/**
 * The client's orchestration rules (client/whisper_client.py): how it reads
 * the server's answers, how long it sleeps between polls and when it stops
 * waiting, which files it picks up, how it names the audio it extracts, and
 * what it records for each video.
 *
 * HTTP is outside the model: each request is an `Exchange`, either a parsed
 * JSON object with its status code or a network error.  The outcomes of
 * ffmpeg, of packaging and of saving are likewise given, per video, as a
 * `VideoRun`.
 */
module Client {
  import opened Wrappers
  import opened Text
  import Models

  // ---------------------------------------------------------------- JSON answers

  /** A JSON value as `response.json()` returns it; numbers are integers here. */
  datatype Json =
    | JNull
    | JBool(b: bool)
    | JNum(n: int)
    | JStr(s: string)
    | JList(items: seq<Json>)
    | JObject(fields: map<string, Json>)

  /** Python truthiness of a decoded JSON value. */
  predicate Truthy(j: Json)
  {
    match j
    case JNull => false
    case JBool(b) => b
    case JNum(n) => n != 0
    case JStr(s) => s != ""
    case JList(items) => items != []
    case JObject(fields) => fields != map[]
  }

  /** `obj.get(key, default)`. */
  function Get(obj: map<string, Json>, key: string, default: Json): Json
  {
    if key in obj then obj[key] else default
  }

  /** One HTTP request: the status code and JSON object it answered with, or a `RequestException`. */
  datatype Exchange = Answered(code: int, body: map<string, Json>) | NetworkError

  const StatusOk: int := 200

  /** check_server_pool_status: room only on a 200 whose `is_full` is present and falsy. */
  function PoolHasRoom(x: Exchange): (room: bool)
    ensures room <==> x.Answered? && x.code == StatusOk && "is_full" in x.body && !Truthy(x.body["is_full"])
  {
    x.Answered? && x.code == StatusOk && !Truthy(Get(x.body, "is_full", JBool(true)))
  }

  /** submit_task: accepted only on a 200 whose `success` is present and truthy. */
  function SubmitAccepted(x: Exchange): (accepted: bool)
    ensures accepted <==> x.Answered? && x.code == StatusOk && "success" in x.body && Truthy(x.body["success"])
  {
    x.Answered? && x.code == StatusOk && Truthy(Get(x.body, "success", JNull))
  }

  /** The JSON the server sends for a pool status (the fields of PoolStatusResponse). */
  function PoolStatusBody(r: Models.PoolStatusResponse): map<string, Json>
  {
    map["is_full" := JBool(r.isFull), "current_size" := JNum(r.currentSize),
        "max_size" := JNum(r.maxSize), "processing_count" := JNum(r.processingCount)]
  }

  /** The JSON the server sends for an ApiResponse. */
  function ApiBody(r: Models.ApiResponse): map<string, Json>
  {
    map["success" := JBool(r.success), "message" := JStr(r.message),
        "data" := if r.taskId.Some? then JObject(map["task_id" := JStr(r.taskId.value)]) else JNull]
  }

  /** The JSON the server sends for a task result (srt_content is null while the task is pooled). */
  function TaskResultBody(r: Models.TaskResultResponse): map<string, Json>
  {
    map["task_id" := JStr(r.taskId),
        "srt_content" := if r.srtContent.Some? then JStr(r.srtContent.value) else JNull,
        "status" := JStr(Models.StatusValue(r.status))]
  }

  /** The client reads the server's answers as the server means them: room iff not full, accepted iff success. */
  lemma ClassificationMatchesServer(pool: Models.PoolStatusResponse, api: Models.ApiResponse, code: int)
    ensures PoolHasRoom(Answered(StatusOk, PoolStatusBody(pool))) <==> !pool.isFull
    ensures SubmitAccepted(Answered(StatusOk, ApiBody(api))) <==> api.success
    ensures code != StatusOk ==> !PoolHasRoom(Answered(code, PoolStatusBody(pool))) && !SubmitAccepted(Answered(code, ApiBody(api)))
  {
    assert "is_full" in PoolStatusBody(pool);
    assert "success" in ApiBody(api);
  }

  // ---------------------------------------------------------------- wait_for_result

  /** The poll interval for the last status seen: processing and pending are configured, completed is 2 s, anything else 10 s. */
  function PollInterval(current: Json, pendingInterval: nat, processingInterval: nat): nat
  {
    if current == JStr("processing") then processingInterval
    else if current == JStr("pending") then pendingInterval
    else if current == JStr("completed") then 2
    else 10
  }

  /** Read against the server's five status values: failed and cancelled fall to the 10-second default. */
  lemma PollIntervalByStatus(s: Models.TaskStatus, pendingInterval: nat, processingInterval: nat)
    ensures PollInterval(JStr(Models.StatusValue(s)), pendingInterval, processingInterval) ==
      match s
      case Pending => pendingInterval
      case Processing => processingInterval
      case Completed => 2
      case Failed => 10
      case Cancelled => 10
  {
    match s
    case Pending =>
    case Processing => assert Models.StatusValue(s) != "pending";
    case Completed =>
      assert Models.StatusValue(s)[0] == 'c' && Models.StatusValue(s) != "processing";
    case Failed =>
      assert Models.StatusValue(s)[0] == 'f';
    case Cancelled =>
      assert Models.StatusValue(s)[1] == 'a';
  }

  /** One round of the polling loop: the status request, then (unless it failed) the result request, then the clock. */
  datatype Round = Round(statusReply: Exchange, resultReply: Exchange, elapsedMs: int)

  /** What a round ends in: the loop returns (with the subtitles or None), or sleeps and goes on. */
  datatype Step = Finish(content: Option<Json>) | Sleep(seconds: nat)

  /** `timeout and ...`: a timeout is enforced only when it is given and non-zero. */
  predicate TimeoutSet(timeout: Option<int>)
  {
    timeout.Some? && timeout.value != 0
  }

  /** The status a round saw: the `status` field of a 200 (defaulting to "unknown"), else None. */
  function SeenStatus(r: Round): Json
  {
    if r.statusReply.Answered? && r.statusReply.code == StatusOk
    then Get(r.statusReply.body, "status", JStr("unknown"))
    else JNull
  }

  function RoundStep(r: Round, timeout: Option<int>, pendingInterval: nat, processingInterval: nat): Step
  {
    if r.statusReply.NetworkError? then Sleep(10)
    else if SeenStatus(r) == JStr("failed") then Finish(None)
    else if r.resultReply.NetworkError? then Sleep(10)
    else if r.resultReply.code == StatusOk && Truthy(Get(r.resultReply.body, "srt_content", JNull))
    then Finish(Some(r.resultReply.body["srt_content"]))
    else if r.resultReply.code == StatusOk && Get(r.resultReply.body, "status", JNull) == JStr("failed")
    then Finish(None)
    else if TimeoutSet(timeout) && r.elapsedMs > timeout.value * 1000 then Finish(None)
    else Sleep(PollInterval(SeenStatus(r), pendingInterval, processingInterval))
  }

  /** How waiting over a sequence of observed rounds ends: subtitles, None, or still polling when the rounds run out. */
  datatype WaitOutcome = Received(srt: Json) | GaveUp | StillPolling

  function Wait(rounds: seq<Round>, timeout: Option<int>, pendingInterval: nat, processingInterval: nat): (w: WaitOutcome)
    ensures w.Received? ==> Truthy(w.srt)
  {
    if rounds == [] then StillPolling
    else match RoundStep(rounds[0], timeout, pendingInterval, processingInterval)
      case Finish(Some(srt)) => Received(srt)
      case Finish(None) => GaveUp
      case Sleep(_) => Wait(rounds[1..], timeout, pendingInterval, processingInterval)
  }

  /** The sleeps taken before the wait ends (or the rounds run out). */
  function Sleeps(rounds: seq<Round>, timeout: Option<int>, pendingInterval: nat, processingInterval: nat): seq<nat>
  {
    if rounds == [] then []
    else match RoundStep(rounds[0], timeout, pendingInterval, processingInterval)
      case Finish(_) => []
      case Sleep(t) => [t] + Sleeps(rounds[1..], timeout, pendingInterval, processingInterval)
  }

  /**
   * wait_for_result, over the rounds it observes.  Returns the subtitles only
   * when a result answer carries non-empty content; returns None when either
   * answer says failed or, with a timeout set, when a round that got through
   * finds the time up; otherwise sleeps (10 s after a network error) and polls
   * again.
   */
  method WaitForResult(rounds: seq<Round>, timeout: Option<int>, pendingInterval: nat, processingInterval: nat)
    returns (outcome: WaitOutcome, sleeps: seq<nat>)
    ensures outcome == Wait(rounds, timeout, pendingInterval, processingInterval)
    ensures sleeps == Sleeps(rounds, timeout, pendingInterval, processingInterval)
  {
    sleeps := [];
    var i := 0;
    while i < |rounds|
      invariant 0 <= i <= |rounds|
      invariant Wait(rounds, timeout, pendingInterval, processingInterval) == Wait(rounds[i..], timeout, pendingInterval, processingInterval)
      invariant Sleeps(rounds, timeout, pendingInterval, processingInterval) == sleeps + Sleeps(rounds[i..], timeout, pendingInterval, processingInterval)
    {
      assert rounds[i..][0] == rounds[i] && rounds[i..][1..] == rounds[i + 1..];
      var step := PollOnce(rounds[i], timeout, pendingInterval, processingInterval);
      match step
      case Finish(Some(srt)) => return Received(srt), sleeps;
      case Finish(None) => return GaveUp, sleeps;
      case Sleep(waitTime) =>
        sleeps := sleeps + [waitTime];
        i := i + 1;
    }
    outcome := StillPolling;
  }

  /** The body of the polling loop for one round: return with the subtitles or None, or the sleep before the next round. */
  method PollOnce(round: Round, timeout: Option<int>, pendingInterval: nat, processingInterval: nat) returns (step: Step)
    ensures step == RoundStep(round, timeout, pendingInterval, processingInterval)
  {
    if round.statusReply.NetworkError? {
      return Sleep(10);
    }
    var current := JNull;
    if round.statusReply.code == StatusOk {
      current := Get(round.statusReply.body, "status", JStr("unknown"));
      if current == JStr("failed") {
        return Finish(None);
      }
    }
    if round.resultReply.NetworkError? {
      return Sleep(10);
    }
    var result := round.resultReply;
    if result.code == StatusOk {
      if Truthy(Get(result.body, "srt_content", JNull)) {
        return Finish(Some(result.body["srt_content"]));
      } else if Get(result.body, "status", JNull) == JStr("failed") {
        return Finish(None);
      }
    }
    if TimeoutSet(timeout) && round.elapsedMs > timeout.value * 1000 {
      return Finish(None);
    }
    step := Sleep(PollInterval(current, pendingInterval, processingInterval));
  }

  /** A round that polls a cancelled task: status 200 "cancelled", result 200 with no subtitles. */
  predicate CancelledRound(r: Round)
  {
    && r.statusReply == Answered(StatusOk, map["status" := JStr("cancelled")])
    && r.resultReply == Answered(StatusOk, TaskResultBody(Models.TaskResultResponse("", None, Models.Cancelled)))
  }

  /** Without a timeout, a cancelled task never ends the wait: every round sleeps 10 s and polls again. */
  lemma {:induction false} CancelledTaskNeverEnds(rounds: seq<Round>, pendingInterval: nat, processingInterval: nat)
    requires forall k :: 0 <= k < |rounds| ==> CancelledRound(rounds[k])
    ensures Wait(rounds, None, pendingInterval, processingInterval) == StillPolling
    ensures Sleeps(rounds, None, pendingInterval, processingInterval) == seq(|rounds|, _ => 10)
  {
    if rounds != [] {
      var r := rounds[0];
      assert Get(r.resultReply.body, "srt_content", JNull) == JNull;
      assert Get(r.resultReply.body, "status", JNull) == JStr("cancelled");
      assert SeenStatus(r) == JStr("cancelled");
      assert RoundStep(r, None, pendingInterval, processingInterval) == Sleep(10);
      CancelledTaskNeverEnds(rounds[1..], pendingInterval, processingInterval);
      assert seq(|rounds|, _ => 10) == [10] + seq(|rounds| - 1, _ => 10);
    }
  }

  /** When every status request fails, the timeout is never checked: the wait does not end, whatever the timeout. */
  lemma {:induction false} NetworkErrorsNeverTimeOut(rounds: seq<Round>, timeout: Option<int>, pendingInterval: nat, processingInterval: nat)
    requires forall k :: 0 <= k < |rounds| ==> rounds[k].statusReply.NetworkError?
    ensures Wait(rounds, timeout, pendingInterval, processingInterval) == StillPolling
  {
    if rounds != [] {
      NetworkErrorsNeverTimeOut(rounds[1..], timeout, pendingInterval, processingInterval);
    }
  }

  /**
   * A completed task leaves the pool (its status is 404) and its result is
   * the transcript; a transcript with no segments is the empty string, so
   * the result answer never carries content and, without a timeout, the
   * wait never ends.
   */
  predicate EmptyTranscriptRound(r: Round)
  {
    && r.statusReply.Answered? && r.statusReply.code == 404
    && r.resultReply == Answered(StatusOk, TaskResultBody(Models.TaskResultResponse("", Some(""), Models.Completed)))
  }

  lemma {:induction false} EmptyTranscriptNeverEnds(rounds: seq<Round>, pendingInterval: nat, processingInterval: nat)
    requires forall k :: 0 <= k < |rounds| ==> EmptyTranscriptRound(rounds[k])
    ensures Wait(rounds, None, pendingInterval, processingInterval) == StillPolling
  {
    if rounds != [] {
      var r := rounds[0];
      assert Get(r.resultReply.body, "srt_content", JNull) == JStr("");
      assert Get(r.resultReply.body, "status", JNull) == JStr("completed");
      assert RoundStep(r, None, pendingInterval, processingInterval) == Sleep(10);
      EmptyTranscriptNeverEnds(rounds[1..], pendingInterval, processingInterval);
    }
  }

  // ---------------------------------------------------------------- paths

  /** The index of the last c in s, or -1 (`str.rfind`). */
  function LastIndexOf(s: string, c: char): (i: int)
    ensures -1 <= i < |s|
    ensures i >= 0 ==> s[i] == c
    ensures forall k :: i < k < |s| ==> s[k] != c
  {
    if s == [] then -1
    else if s[|s| - 1] == c then |s| - 1
    else LastIndexOf(s[..|s| - 1], c)
  }

  /** `Path.name`: the part after the last "/". */
  function Name(p: string): string
  {
    p[LastIndexOf(p, '/') + 1..]
  }

  /** `Path.suffix`: from the last "." of the name, unless that dot starts or ends the name. */
  function Suffix(p: string): (sfx: string)
    ensures EndsWith(p, sfx)
    ensures sfx == [] || (sfx[0] == '.' && |sfx| >= 2)
  {
    var name := Name(p);
    var i := LastIndexOf(name, '.');
    assert name == p[|p| - |name|..];
    if 0 < i < |name| - 1 then
      assert name[i..] == p[|p| - (|name| - i)..];
      name[i..]
    else ""
  }

  /** `Path.with_suffix(suffix)`: the path with its suffix replaced (or suffix appended when it has none). */
  function WithSuffix(p: string, suffix: string): string
  {
    p[..|p| - |Suffix(p)|] + suffix
  }

  /** `Path.stem`: the name without its suffix. */
  function Stem(p: string): string
  {
    var name := Name(p);
    assert EndsWith(p, Suffix(p)) && name == p[|p| - |name|..];
    if |Suffix(p)| <= |name| then name[..|name| - |Suffix(p)|] else name
  }

  const VideoExtensions: set<string> := {".mp4", ".avi", ".mkv", ".mov", ".wmv", ".flv", ".m4v", ".webm"}

  predicate IsVideo(p: string)
  {
    Lower(Suffix(p)) in VideoExtensions
  }

  /** save_srt_file's target: the video's own path with the suffix ".srt", whatever the output directory. */
  function SrtPathFor(video: string): (srt: string)
    ensures EndsWith(srt, ".srt")
    ensures srt[..|srt| - 4] == video[..|video| - |Suffix(video)|]
  {
    var srt := WithSuffix(video, ".srt");
    assert srt[|srt| - 4..] == ".srt";
    srt
  }

  /** A video is picked up when it has a video suffix (in any case) and no subtitle file beside it. */
  predicate NeedsSubtitles(p: string, existing: set<string>)
  {
    IsVideo(p) && SrtPathFor(p) !in existing
  }

  /** A video suffix has four or five characters, and the four-character ones have no 's' after the dot, as ".srt" has. */
  lemma VideoSuffixShape(sfx: string)
    requires Lower(sfx) in VideoExtensions
    ensures |sfx| == 4 || |sfx| == 5
    ensures |sfx| == 4 ==> sfx[1] != 's'
  {
    var low := Lower(sfx);
    if |sfx| == 4 {
      assert low[1] != 's';
      assert low[1] == LowerChar(sfx[1]);
    }
  }

  /** The subtitle file is never the video itself, and once it is saved the video is no longer picked up. */
  lemma SavedSubtitlesAreSkipped(video: string, existing: set<string>)
    requires IsVideo(video)
    ensures SrtPathFor(video) != video
    ensures !NeedsSubtitles(video, existing + {SrtPathFor(video)})
  {
    var srt := SrtPathFor(video);
    var sfx := Suffix(video);
    var n := |video| - |sfx|;
    VideoSuffixShape(sfx);
    if |sfx| == 4 {
      assert srt[n + 1] == 's';
      assert video[n..] == sfx;
      assert video[n + 1] == sfx[1];
    }
  }

  /** The files the scan keeps, in the order it meets them. */
  function Candidates(files: seq<string>, existing: set<string>): seq<string>
  {
    if files == [] then []
    else
      var rest := Candidates(files[..|files| - 1], existing);
      var f := files[|files| - 1];
      if NeedsSubtitles(f, existing) then rest + [f] else rest
  }

  lemma {:induction false} CandidatesMembership(files: seq<string>, existing: set<string>)
    ensures forall f :: f in Candidates(files, existing) <==> f in files && NeedsSubtitles(f, existing)
  {
    if files != [] {
      CandidatesMembership(files[..|files| - 1], existing);
      assert files == files[..|files| - 1] + [files[|files| - 1]];
    }
  }

  /** scan_video_files, over the files `rglob` yields and the set of paths that exist. */
  method ScanVideoFiles(files: seq<string>, existing: set<string>) returns (videos: seq<string>)
    ensures videos == Candidates(files, existing)
  {
    videos := [];
    var i := 0;
    while i < |files|
      invariant 0 <= i <= |files|
      invariant videos == Candidates(files[..i], existing)
    {
      assert files[..i + 1][..i] == files[..i];
      var path := files[i];
      if IsVideo(path) {
        var srtPath := SrtPathFor(path);
        if srtPath !in existing {
          videos := videos + [path];
        }
      }
      i := i + 1;
    }
    assert files[..i] == files;
  }

  // ---------------------------------------------------------------- convert_to_audio's file name

  predicate SafeChar(c: char, isAlnum: char -> bool)
  {
    isAlnum(c) || c == ' ' || c == '-' || c == '_'
  }

  function KeepSafe(s: string, isAlnum: char -> bool): (r: string)
    ensures |r| <= |s|
    ensures forall i :: 0 <= i < |r| ==> SafeChar(r[i], isAlnum)
  {
    if s == [] then []
    else
      var rest := KeepSafe(s[..|s| - 1], isAlnum);
      if SafeChar(s[|s| - 1], isAlnum) then rest + [s[|s| - 1]] else rest
  }

  /**
   * The safe part of an audio name: the first 20 characters of the stem,
   * kept when `str.isalnum` (given as `isAlnum`) accepts them or they are a
   * space, '-' or '_', then right-stripped.
   */
  function SafeName(stem: string, isAlnum: char -> bool): string
  {
    RStrip(KeepSafe(if |stem| <= 20 then stem else stem[..20], isAlnum))
  }

  lemma {:induction false} KeepSafeIdentity(s: string, isAlnum: char -> bool)
    requires forall i :: 0 <= i < |s| ==> SafeChar(s[i], isAlnum)
    ensures KeepSafe(s, isAlnum) == s
  {
    if s != [] {
      KeepSafeIdentity(s[..|s| - 1], isAlnum);
      assert s == s[..|s| - 1] + [s[|s| - 1]];
    }
  }

  /** A safe name is at most 20 safe characters, does not end in whitespace, and sanitising it again changes nothing. */
  lemma SafeNameIdempotent(stem: string, isAlnum: char -> bool)
    ensures var safe := SafeName(stem, isAlnum);
      && |safe| <= 20
      && (forall i :: 0 <= i < |safe| ==> SafeChar(safe[i], isAlnum))
      && (safe == [] || !IsSpace(safe[|safe| - 1]))
      && SafeName(safe, isAlnum) == safe
  {
    var kept := KeepSafe(if |stem| <= 20 then stem else stem[..20], isAlnum);
    var safe := RStrip(kept);
    assert forall i :: 0 <= i < |safe| ==> safe[i] == kept[i];
    KeepSafeIdentity(safe, isAlnum);
  }

  /** `{safe_name}_{unique_id}.ogg`, where the unique id is the first 8 characters of a fresh UUID. */
  function AudioFileName(video: string, uuid: string, isAlnum: char -> bool): (name: string)
    requires |uuid| >= 8
    ensures |name| >= 13 && name[|name| - 13..] == "_" + uuid[..8] + ".ogg"
    ensures name[..|name| - 13] == SafeName(Stem(video), isAlnum)
  {
    var safe := SafeName(Stem(video), isAlnum);
    var tail := "_" + uuid[..8] + ".ogg";
    assert |tail| == 13;
    assert (safe + tail)[|safe|..] == tail && (safe + tail)[..|safe|] == safe;
    safe + tail
  }

  // ---------------------------------------------------------------- process_all_videos

  /**
   * What the outside world does for one video: whether ffmpeg converts it,
   * whether its task package is built, the pool-status answers while the
   * client waits for room, the answer to the submission, the polling
   * rounds, and whether the subtitle file is saved.
   */
  datatype VideoRun = VideoRun(
    converted: bool,
    packaged: bool,
    poolChecks: seq<Exchange>,
    submitReply: Exchange,
    rounds: seq<Round>,
    saved: bool)

  /** The wait for room ends at the first answer that reports room; with none, it never ends. */
  function RoomIndex(checks: seq<Exchange>): (k: nat)
    ensures k <= |checks|
    ensures k < |checks| ==> PoolHasRoom(checks[k])
    ensures forall j :: 0 <= j < k ==> !PoolHasRoom(checks[j])
  {
    if checks == [] then 0
    else if PoolHasRoom(checks[0]) then 0
    else 1 + RoomIndex(checks[1..])
  }

  /**
   * The value recorded for one video, or None when processing it never
   * finishes (the pool never has room, or the wait never ends).  The
   * client waits without a timeout.
   */
  function VideoOutcome(run: VideoRun, pendingInterval: nat, processingInterval: nat): Option<bool>
  {
    if !run.converted || !run.packaged then Some(false)
    else if RoomIndex(run.poolChecks) == |run.poolChecks| then None
    else if !SubmitAccepted(run.submitReply) then Some(false)
    else match Wait(run.rounds, None, pendingInterval, processingInterval)
      case Received(_) => Some(run.saved)
      case GaveUp => Some(false)
      case StillPolling => None
  }

  /** A video is recorded as done only when it was submitted, its subtitles arrived non-empty, and they were saved. */
  lemma SuccessNeedsSavedSubtitles(run: VideoRun, pendingInterval: nat, processingInterval: nat)
    requires VideoOutcome(run, pendingInterval, processingInterval) == Some(true)
    ensures run.converted && run.packaged && SubmitAccepted(run.submitReply) && run.saved
    ensures var w := Wait(run.rounds, None, pendingInterval, processingInterval); w.Received? && Truthy(w.srt)
  {
  }

  /** The `while not check_server_pool_status()` loop, over the answers it observes. */
  method WaitForRoom(checks: seq<Exchange>) returns (room: bool)
    ensures room <==> RoomIndex(checks) < |checks|
  {
    var i := 0;
    while i < |checks|
      invariant 0 <= i <= |checks|
      invariant forall j :: 0 <= j < i ==> !PoolHasRoom(checks[j])
    {
      if PoolHasRoom(checks[i]) {
        return true;
      }
      i := i + 1;
    }
    return false;
  }

  /**
   * The map the loop builds over `videos`: each video whose processing
   * finishes, under its path.  It is the source's answer only when every
   * video finishes (AllFinish).  Otherwise the source never returns.  When a
   * wait for room never ends, it does not even reach the later videos, which
   * this map still records.
   */
  function Recorded(videos: seq<string>, runOf: string -> VideoRun, pendingInterval: nat, processingInterval: nat): map<string, bool>
  {
    if videos == [] then map[]
    else
      var m := Recorded(videos[..|videos| - 1], runOf, pendingInterval, processingInterval);
      var v := videos[|videos| - 1];
      match VideoOutcome(runOf(v), pendingInterval, processingInterval)
      case Some(b) => m[v := b]
      case None => m
  }

  lemma {:induction false} RecordedContents(videos: seq<string>, runOf: string -> VideoRun, pendingInterval: nat, processingInterval: nat)
    ensures forall v :: v in Recorded(videos, runOf, pendingInterval, processingInterval) <==>
      v in videos && VideoOutcome(runOf(v), pendingInterval, processingInterval).Some?
    ensures forall v :: v in Recorded(videos, runOf, pendingInterval, processingInterval) ==>
      Some(Recorded(videos, runOf, pendingInterval, processingInterval)[v]) == VideoOutcome(runOf(v), pendingInterval, processingInterval)
  {
    if videos != [] {
      RecordedContents(videos[..|videos| - 1], runOf, pendingInterval, processingInterval);
      assert videos == videos[..|videos| - 1] + [videos[|videos| - 1]];
    }
  }

  /** Whether every video's processing finishes, video by video. */
  predicate AllFinish(videos: seq<string>, runOf: string -> VideoRun, pendingInterval: nat, processingInterval: nat)
  {
    videos == [] ||
    (AllFinish(videos[..|videos| - 1], runOf, pendingInterval, processingInterval) &&
     VideoOutcome(runOf(videos[|videos| - 1]), pendingInterval, processingInterval).Some?)
  }

  lemma {:induction false} AllFinishEvery(videos: seq<string>, runOf: string -> VideoRun, pendingInterval: nat, processingInterval: nat)
    ensures AllFinish(videos, runOf, pendingInterval, processingInterval) <==>
      forall v :: v in videos ==> VideoOutcome(runOf(v), pendingInterval, processingInterval).Some?
  {
    if videos != [] {
      AllFinishEvery(videos[..|videos| - 1], runOf, pendingInterval, processingInterval);
      assert videos == videos[..|videos| - 1] + [videos[|videos| - 1]];
    }
  }

  /**
   * process_all_videos: scan, then for each video convert, package, wait for
   * room, submit and (in a thread) wait for the subtitles and save them,
   * recording true or false under the video's path.  `finished` is false
   * when some video's processing never finishes, so that the call never
   * returns, and `results` is then only what the finished videos would
   * record, not anything the source hands back.  The threads' writes are
   * applied in submission order, which gives the same map since each writes
   * its own key.
   */
  method ProcessAllVideos(files: seq<string>, existing: set<string>, runOf: string -> VideoRun,
                          pendingInterval: nat, processingInterval: nat)
    returns (finished: bool, results: map<string, bool>)
    ensures Candidates(files, existing) == [] ==> finished && results == map[]
    ensures finished <==> forall v :: v in files && NeedsSubtitles(v, existing) ==>
      VideoOutcome(runOf(v), pendingInterval, processingInterval).Some?
    ensures forall v :: v in results <==>
      (v in files && NeedsSubtitles(v, existing) && VideoOutcome(runOf(v), pendingInterval, processingInterval).Some?)
    ensures forall v :: v in results ==> Some(results[v]) == VideoOutcome(runOf(v), pendingInterval, processingInterval)
  {
    var videos := ScanVideoFiles(files, existing);
    CandidatesMembership(files, existing);
    if |videos| == 0 {
      return true, map[];
    }
    finished, results := RunAll(videos, runOf, pendingInterval, processingInterval);
    RecordedContents(videos, runOf, pendingInterval, processingInterval);
    AllFinishEvery(videos, runOf, pendingInterval, processingInterval);
  }

  /** The loop of process_all_videos over the scanned videos. */
  method RunAll(videos: seq<string>, runOf: string -> VideoRun, pendingInterval: nat, processingInterval: nat)
    returns (finished: bool, results: map<string, bool>)
    ensures finished == AllFinish(videos, runOf, pendingInterval, processingInterval)
    ensures results == Recorded(videos, runOf, pendingInterval, processingInterval)
  {
    finished := true;
    results := map[];
    var i := 0;
    while i < |videos|
      invariant 0 <= i <= |videos|
      invariant finished == AllFinish(videos[..i], runOf, pendingInterval, processingInterval)
      invariant results == Recorded(videos[..i], runOf, pendingInterval, processingInterval)
    {
      assert videos[..i + 1][..i] == videos[..i];
      var video := videos[i];
      var outcome := RunVideo(runOf(video), pendingInterval, processingInterval);
      if outcome.Some? {
        results := results[video := outcome.value];
      } else {
        finished := false;
      }
      i := i + 1;
    }
    assert videos[..i] == videos;
  }

  /** The body of the loop for one video: the steps in order, each failure recorded as false. */
  method RunVideo(run: VideoRun, pendingInterval: nat, processingInterval: nat) returns (outcome: Option<bool>)
    ensures outcome == VideoOutcome(run, pendingInterval, processingInterval)
  {
    if !run.converted {
      return Some(false);
    }
    if !run.packaged {
      return Some(false);
    }
    var room := WaitForRoom(run.poolChecks);
    if !room {
      return None;
    }
    if !SubmitAccepted(run.submitReply) {
      return Some(false);
    }
    var waited, _ := WaitForResult(run.rounds, None, pendingInterval, processingInterval);
    match waited
    case Received(_) => outcome := Some(run.saved);
    case GaveUp => outcome := Some(false);
    case StillPolling => outcome := None;
  }
}
