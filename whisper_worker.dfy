/**
 * The transcription worker (server/whisper_worker.py): the subtitle formatter,
 * the model cache and the routing of one dequeued task to complete or fail.
 *
 * Times are non-negative integer milliseconds.  The speech model, the file
 * probes and the archive extraction are outside the model: what they return
 * or raise is passed in as an `Environment`.
 */
module WhisperWorker {
  import opened Wrappers
  import opened Models
  import opened Text
  import opened Utils
  import opened Manager

  const MillisPerMinute: nat := 60000
  const MillisPerSecond: nat := 1000

  // ---------------------------------------------------------------- _format_time

  /** The shape HH:MM:SS,mmm, with at least two hour digits. */
  predicate WellFormedTime(s: string)
  {
    && |s| >= 12
    && s[|s| - 4] == ',' && s[|s| - 7] == ':' && s[|s| - 10] == ':'
    && AllDigits(s[..|s| - 10]) && AllDigits(s[|s| - 9..|s| - 7])
    && AllDigits(s[|s| - 6..|s| - 4]) && AllDigits(s[|s| - 3..])
  }

  /** The time a well-formed stamp denotes, in milliseconds. */
  function TimeValue(s: string): nat
    requires WellFormedTime(s)
  {
    ParseDigits(s[..|s| - 10]) * MillisPerHour
    + ParseDigits(s[|s| - 9..|s| - 7]) * MillisPerMinute
    + ParseDigits(s[|s| - 6..|s| - 4]) * MillisPerSecond
    + ParseDigits(s[|s| - 3..])
  }

  /** s is a well-formed stamp of the time ms, with minutes and seconds below 60. */
  predicate DenotesTime(s: string, ms: nat)
  {
    && WellFormedTime(s) && TimeValue(s) == ms
    && ParseDigits(s[|s| - 9..|s| - 7]) < 60 && ParseDigits(s[|s| - 6..|s| - 4]) < 60
  }

  /** A number below 10^width pads to exactly width digits. */
  lemma PadExact(n: nat, width: nat)
    requires 1 <= width && n < Pow10(width)
    ensures |ZeroPad(n, width)| == width && AllDigits(ZeroPad(n, width)) && ParseDigits(ZeroPad(n, width)) == n
  {
    DigitsWidth(n, width);
    DigitsValue(n);
    ZeroPadValue(n, width);
  }

  lemma TimeArithmetic(ms: nat)
    ensures ms == (ms / MillisPerHour) * MillisPerHour + ((ms % MillisPerHour) / MillisPerMinute) * MillisPerMinute
                  + ((ms % MillisPerMinute) / MillisPerSecond) * MillisPerSecond + ms % MillisPerSecond
    ensures (ms % MillisPerHour) / MillisPerMinute < 60 && (ms % MillisPerMinute) / MillisPerSecond < 60
  {
    var r := ms % MillisPerHour;
    assert r % MillisPerMinute == ms % MillisPerMinute;
    assert (ms % MillisPerMinute) % MillisPerSecond == ms % MillisPerSecond;
  }

  /** `h:m:s,f`. */
  function Stamp(h: string, m: string, sec: string, f: string): string
  {
    h + ":" + m + ":" + sec + "," + f
  }

  /** The four fields of a stamp sit at fixed distances from its end. */
  lemma StampFields(h: string, m: string, sec: string, f: string)
    requires |h| >= 2 && |m| == 2 && |sec| == 2 && |f| == 3
    requires AllDigits(h) && AllDigits(m) && AllDigits(sec) && AllDigits(f)
    ensures var s := Stamp(h, m, sec, f);
      && WellFormedTime(s)
      && s[..|s| - 10] == h && s[|s| - 9..|s| - 7] == m && s[|s| - 6..|s| - 4] == sec && s[|s| - 3..] == f
  {
    var s := Stamp(h, m, sec, f);
    assert s[..|s| - 10] == h;
    assert s[|s| - 9..|s| - 7] == m;
    assert s[|s| - 6..|s| - 4] == sec;
    assert s[|s| - 3..] == f;
  }

  /** `_format_time`: hours, minutes, seconds and milliseconds, zero-padded to 2, 2, 2 and 3 digits. */
  function FormatTime(ms: nat): string
  {
    var hours := ms / MillisPerHour;
    var minutes := (ms % MillisPerHour) / MillisPerMinute;
    var seconds := (ms % MillisPerMinute) / MillisPerSecond;
    var millis := ms % MillisPerSecond;
    Stamp(ZeroPad(hours, 2), ZeroPad(minutes, 2), ZeroPad(seconds, 2), ZeroPad(millis, 3))
  }

  /** A stamp of digit fields denotes the time those fields add up to. */
  lemma StampDenotes(h: string, m: string, sec: string, f: string, hh: nat, mm: nat, ss: nat, ff: nat)
    requires |h| >= 2 && |m| == 2 && |sec| == 2 && |f| == 3
    requires AllDigits(h) && AllDigits(m) && AllDigits(sec) && AllDigits(f)
    requires ParseDigits(h) == hh && ParseDigits(m) == mm && ParseDigits(sec) == ss && ParseDigits(f) == ff
    requires mm < 60 && ss < 60
    ensures DenotesTime(Stamp(h, m, sec, f), hh * MillisPerHour + mm * MillisPerMinute + ss * MillisPerSecond + ff)
    ensures |Stamp(h, m, sec, f)| == |h| + 10
  {
    StampFields(h, m, sec, f);
  }

  /**
   * A formatted time is well formed and reads back as the same time; its
   * minutes and seconds stay below 60, and below 100 hours it is exactly
   * 12 characters long.
   */
  lemma FormatTimeReadsBack(ms: nat)
    ensures DenotesTime(FormatTime(ms), ms)
    ensures ms < 100 * MillisPerHour ==> |FormatTime(ms)| == 12
  {
    var hours := ms / MillisPerHour;
    var minutes := (ms % MillisPerHour) / MillisPerMinute;
    var seconds := (ms % MillisPerMinute) / MillisPerSecond;
    var millis := ms % MillisPerSecond;
    TimeArithmetic(ms);
    PadExact(minutes, 2);
    PadExact(seconds, 2);
    PadExact(millis, 3);
    ZeroPadValue(hours, 2);
    StampDenotes(ZeroPad(hours, 2), ZeroPad(minutes, 2), ZeroPad(seconds, 2), ZeroPad(millis, 3),
                 hours, minutes, seconds, millis);
    if hours < 100 {
      PadExact(hours, 2);
    }
  }

  // ---------------------------------------------------------------- _result_to_srt

  datatype Segment = Segment(startMs: nat, endMs: nat, text: string)

  /** The transcription result: `segments` and `text` are keys that may be missing. */
  datatype WhisperResult = WhisperResult(segments: Option<seq<Segment>>, text: Option<string>)

  /** The four lines of subtitle i (counting from 0): its number, its time range, its text, a blank. */
  function Block(i: nat, seg: Segment): seq<string>
  {
    [Digits(i + 1), FormatTime(seg.startMs) + " --> " + FormatTime(seg.endMs), Strip(seg.text), ""]
  }

  /** The lines of a list of blocks, block after block. */
  function Flatten(blocks: seq<seq<string>>): (lines: seq<string>)
  {
    if blocks == [] then [] else Flatten(blocks[..|blocks| - 1]) + blocks[|blocks| - 1]
  }

  /** With four lines per block, block i occupies lines 4i to 4i+3. */
  lemma {:induction false} FlattenAt(blocks: seq<seq<string>>, i: nat)
    requires forall b :: b in blocks ==> |b| == 4
    requires i < |blocks|
    ensures |Flatten(blocks)| == 4 * |blocks|
    ensures Flatten(blocks)[4 * i..4 * i + 4] == blocks[i]
  {
    var n := |blocks| - 1;
    FlattenLength(blocks[..n]);
    if i < n {
      FlattenAt(blocks[..n], i);
    }
  }

  lemma {:induction false} FlattenLength(blocks: seq<seq<string>>)
    requires forall b :: b in blocks ==> |b| == 4
    ensures |Flatten(blocks)| == 4 * |blocks|
  {
    if blocks != [] {
      FlattenLength(blocks[..|blocks| - 1]);
    }
  }

  function Blocks(segs: seq<Segment>): (blocks: seq<seq<string>>)
    ensures |blocks| == |segs| && forall i :: 0 <= i < |segs| ==> blocks[i] == Block(i, segs[i])
  {
    seq(|segs|, i requires 0 <= i < |segs| => Block(i, segs[i]))
  }

  /** The lines of a segment list, block after block. */
  function SegmentLines(segs: seq<Segment>): seq<string>
  {
    Flatten(Blocks(segs))
  }

  /** For n segments there are 4n lines, and lines 4i to 4i+3 are subtitle i's number, range, text and blank. */
  lemma SegmentLinesAt(segs: seq<Segment>, i: nat)
    requires i < |segs|
    ensures |SegmentLines(segs)| == 4 * |segs|
    ensures SegmentLines(segs)[4 * i..4 * i + 4] == Block(i, segs[i])
  {
    FlattenAt(Blocks(segs), i);
  }

  /** The fallback when the result has no segments: one subtitle over the first ten seconds. */
  const FallbackRange: string := "00:00:00,000" + " --> " + "00:00:10,000"

  function SrtLines(result: WhisperResult): seq<string>
  {
    match result.segments
    case Some(segs) => SegmentLines(segs)
    case None => ["1", FallbackRange, Strip(if result.text.Some? then result.text.value else ""), ""]
  }

  lemma SmallPads()
    ensures ZeroPad(0, 2) == "00" && ZeroPad(0, 3) == "000" && ZeroPad(10, 2) == "10"
  {
    assert Digits(0) == "0";
    assert Zeros(1) == "0";
    assert Zeros(2) == "00";
    assert Digits(10) == Digits(1) + "0";
  }

  lemma FormatZero()
    ensures FormatTime(0) == "00:00:00,000"
  {
    SmallPads();
  }

  lemma FormatTenSeconds()
    ensures FormatTime(10000) == "00:00:10,000"
  {
    SmallPads();
    assert 10000 / MillisPerHour == 0;
    assert (10000 % MillisPerHour) / MillisPerMinute == 0;
    assert (10000 % MillisPerMinute) / MillisPerSecond == 10;
    assert 10000 % MillisPerSecond == 0;
  }

  /** The fallback is the block of a single segment from 0 to 10 seconds carrying the whole text. */
  lemma FallbackIsFirstBlock(text: string)
    ensures SrtLines(WhisperResult(None, Some(text))) == Block(0, Segment(0, 10000, text))
  {
    FallbackRangeFormatted();
    FirstNumber();
  }

  lemma FallbackRangeFormatted()
    ensures FormatTime(0) + " --> " + FormatTime(10000) == FallbackRange
  {
    FormatZero();
    FormatTenSeconds();
  }

  lemma FirstNumber()
    ensures Digits(0 + 1) == "1"
  {
  }

  lemma AppendFour<T>(s: seq<T>, a: T, b: T, c: T, d: T)
    ensures s + [a] + [b] + [c] + [d] == s + [a, b, c, d]
  {
  }

  /** Adding a segment to a prefix adds its block to the prefix's lines. */
  lemma SegmentLinesSnoc(segs: seq<Segment>, i: nat)
    requires i < |segs|
    ensures SegmentLines(segs[..i + 1]) == SegmentLines(segs[..i]) + Block(i, segs[i])
  {
    var b := Blocks(segs[..i + 1]);
    assert b[..i] == Blocks(segs[..i]);
  }

  /** The loop of `_result_to_srt` over the segments: four lines appended per subtitle. */
  method AppendSegmentLines(segs: seq<Segment>) returns (lines: seq<string>)
    ensures lines == SegmentLines(segs)
  {
    lines := [];
    var i := 0;
    while i < |segs|
      invariant 0 <= i <= |segs|
      invariant lines == SegmentLines(segs[..i])
    {
      var seg := segs[i];
      var startTime := FormatTime(seg.startMs);
      var endTime := FormatTime(seg.endMs);
      var text := Strip(seg.text);
      ghost var before := lines;
      lines := lines + [Digits(i + 1)];
      lines := lines + [startTime + " --> " + endTime];
      lines := lines + [text];
      lines := lines + [""];
      AppendFour(before, Digits(i + 1), startTime + " --> " + endTime, text, "");
      SegmentLinesSnoc(segs, i);
      i := i + 1;
    }
    assert segs[..i] == segs;
  }

  /** `_result_to_srt`: the subtitle lines, or the single fallback subtitle, joined with newlines. */
  method ResultToSrt(result: WhisperResult) returns (srt: string)
    ensures srt == Join(SrtLines(result), "\n")
  {
    var lines: seq<string> := [];
    if result.segments.Some? {
      lines := AppendSegmentLines(result.segments.value);
    } else {
      var text := Strip(if result.text.Some? then result.text.value else "");
      lines := lines + ["1"];
      lines := lines + [FallbackRange];
      lines := lines + [text];
      lines := lines + [""];
      AppendFour([], "1", FallbackRange, text, "");
      assert [] + ["1", FallbackRange, text, ""] == ["1", FallbackRange, text, ""];
      assert lines == SrtLines(result);
    }
    srt := Join(lines, "\n");
  }

  // ---------------------------------------------------------------- routing one task

  /** The model a task asks for: its metadata's model, or the configured default when that is empty. */
  function ModelFor(task: Task): (name: string)
    ensures task.metadata.model != "" ==> name == task.metadata.model
    ensures task.metadata.model == "" ==> name == DefaultModel
  {
    if task.metadata.model != "" then task.metadata.model else DefaultModel
  }

  /** Whether `_load_model(name)` has to load: unless that name is current and a model is loaded. */
  predicate NeedsLoad(currentName: Option<string>, loaded: bool, name: string)
  {
    !(currentName == Some(name) && loaded)
  }

  /** What the outside world answers while one task is processed. */
  datatype Environment = Environment(
    zipExists: bool,                                 // os.path.exists(task.zip_file_path)
    extraction: Result<Extracted, string>,           // extract_task_zip's result, or the message it raises
    audioSize: Option<nat>,                          // os.path.getsize(audio_path); None when the file does not exist
    loadError: Option<string>,                       // what whisper.load_model raises, if it does
    transcription: Result<WhisperResult, string>)    // model.transcribe's result, or the message it raises

  /**
   * `_transcribe_audio`: the audio must exist and be non-empty, the model is
   * loaded unless cached, and the transcription becomes subtitle text.
   */
  function TranscribeOutcome(audioPath: Path, name: string, currentName: Option<string>, loaded: bool,
                             env: Environment): (r: Result<string, string>)
    ensures r.Ok? <==>
      && env.audioSize.Some? && env.audioSize.value > 0
      && (NeedsLoad(currentName, loaded, name) ==> env.loadError.None?)
      && env.transcription.Ok?
    ensures r.Ok? ==> r.value == Join(SrtLines(env.transcription.value), "\n")
  {
    if env.audioSize.None? then Err("Audio file not found: " + audioPath)
    else if env.audioSize.value == 0 then Err("Audio file is empty")
    else if NeedsLoad(currentName, loaded, name) && env.loadError.Some? then Err(env.loadError.value)
    else if env.transcription.Err? then Err(env.transcription.error)
    else Ok(Join(SrtLines(env.transcription.value), "\n"))
  }

  /**
   * Whether `_transcribe_audio` replaces the cached model: the audio exists
   * and is non-empty, the model named is not the one cached, and loading it
   * does not raise.
   */
  predicate LoadsModel(name: string, currentName: Option<string>, loaded: bool, env: Environment)
  {
    env.audioSize.Some? && env.audioSize.value > 0 && NeedsLoad(currentName, loaded, name) && env.loadError.None?
  }

  /** Whether `_process_task` gets as far as transcribing the task's audio. */
  predicate ReachesTranscription(task: Task, env: Environment)
  {
    task.status == Processing && IsSet(task.zipFilePath) && env.zipExists && env.extraction.Ok?
  }

  /** `f"{task.zip_file_path}"`. */
  function ShowPath(p: Option<Path>): string
  {
    if p.Some? then p.value else "None"
  }

  datatype Route = Skip | Fail(message: string) | Complete(srtContent: string)

  /**
   * `_process_task`'s decision: a task that is not processing is left alone;
   * a missing zip, a failed extraction or a failed transcription fails the
   * task with the message raised; only a transcription that succeeds
   * completes it.
   */
  function RouteTask(task: Task, env: Environment, currentName: Option<string>, loaded: bool): (r: Route)
    ensures r.Skip? <==> task.status != Processing
    ensures r.Complete? <==>
      && task.status == Processing && IsSet(task.zipFilePath) && env.zipExists && env.extraction.Ok?
      && TranscribeOutcome(env.extraction.value.audioPath, ModelFor(task), currentName, loaded, env).Ok?
    ensures r.Complete? ==> r.srtContent == Join(SrtLines(env.transcription.value), "\n")
  {
    if task.status != Processing then Skip
    else if !IsSet(task.zipFilePath) || !env.zipExists then Fail("Task zip file not found: " + ShowPath(task.zipFilePath))
    else if env.extraction.Err? then Fail(env.extraction.error)
    else
      match TranscribeOutcome(env.extraction.value.audioPath, ModelFor(task), currentName, loaded, env)
      case Err(e) => Fail(e)
      case Ok(srt) => Complete(srt)
  }

  /**
   * The audio path an extraction returns is gone by the time it is probed
   * (its temporary directory was removed), so a task whose archive is
   * extracted from disk never completes: the probe answers "not found".
   */
  lemma ExtractedTaskNeverCompletes(task: Task, env: Environment, currentName: Option<string>, loaded: bool, files: map<Path, FileData>)
    requires env.extraction.Ok? ==> env.extraction.value.audioPath !in files
    requires env.audioSize.Some? ==> env.extraction.Ok? && env.extraction.value.audioPath in files
    ensures !RouteTask(task, env, currentName, loaded).Complete?
  {
  }

  // ---------------------------------------------------------------- the worker object

  datatype LoadedModel = LoadedModel(name: string)

  class Worker {
    var isRunning: bool
    var model: Option<LoadedModel>
    var currentModelName: Option<string>

    /** The cache fields move together, and a running worker always has a model. */
    ghost predicate Valid()
      reads this
    {
      && (model.Some? <==> currentModelName.Some?)
      && (model.Some? ==> model.value.name == currentModelName.value)
      && (isRunning ==> model.Some?)
    }

    constructor ()
      ensures Valid()
      ensures !isRunning && model == None && currentModelName == None
    {
      isRunning := false;
      model := None;
      currentModelName := None;
    }

    /** health_check: running and a model loaded. */
    function HealthCheck(): (healthy: bool)
      requires Valid()
      reads this
      ensures healthy <==> isRunning
    {
      isRunning && model.Some?
    }

    /**
     * `_load_model`: nothing happens when that model is current and loaded;
     * otherwise the load either raises (`loadError`, nothing changes) or
     * makes the model current, so that the next call with the same name is a
     * cache hit.
     */
    method LoadModel(name: string, loadError: Option<string>) returns (err: Option<string>)
      requires Valid()
      modifies this
      ensures Valid() && isRunning == old(isRunning)
      ensures err == (if NeedsLoad(old(currentModelName), old(model).Some?, name) then loadError else None)
      ensures err.Some? ==> model == old(model) && currentModelName == old(currentModelName)
      ensures err.None? ==> currentModelName == Some(name) && !NeedsLoad(currentModelName, model.Some?, name)
      ensures !NeedsLoad(old(currentModelName), old(model).Some?, name) ==> model == old(model)
    {
      if currentModelName == Some(name) && model.Some? {
        return None;
      }
      if loadError.Some? {
        return loadError;
      }
      model := Some(LoadedModel(name));
      currentModelName := Some(name);
      err := None;
    }

    /** start: a no-op when already running; otherwise preload the default model, then run. */
    method Start(loadError: Option<string>) returns (err: Option<string>)
      requires Valid()
      modifies this
      ensures Valid()
      ensures old(isRunning) ==> err == None && isRunning && model == old(model) && currentModelName == old(currentModelName)
      ensures !old(isRunning) ==> (isRunning <==> err.None?)
      ensures !old(isRunning) && err.None? ==> currentModelName == Some(DefaultModel)
    {
      if isRunning {
        return None;
      }
      err := LoadModel(DefaultModel, loadError);
      if err.None? {
        isRunning := true;
      }
    }

    /** stop: a running worker stops and drops its model. */
    method Stop()
      requires Valid()
      modifies this
      ensures Valid() && !isRunning
      ensures old(isRunning) ==> model == None && currentModelName == None
      ensures !old(isRunning) ==> model == old(model) && currentModelName == old(currentModelName)
    {
      if !isRunning {
        return;
      }
      isRunning := false;
      model := None;
      currentModelName := None;
    }

    /** `_transcribe_audio`, with the model cache updated as `_load_model` does. */
    method TranscribeAudio(audioPath: Path, name: string, env: Environment) returns (r: Result<string, string>)
      requires Valid()
      modifies this
      ensures Valid() && isRunning == old(isRunning)
      ensures r == TranscribeOutcome(audioPath, name, old(currentModelName), old(model).Some?, env)
      ensures r.Ok? ==> currentModelName == Some(name) && model.Some?
      ensures LoadsModel(name, old(currentModelName), old(model).Some?, env) ==>
        model == Some(LoadedModel(name)) && currentModelName == Some(name)
      ensures !LoadsModel(name, old(currentModelName), old(model).Some?, env) ==>
        model == old(model) && currentModelName == old(currentModelName)
    {
      if env.audioSize.None? {
        return Err("Audio file not found: " + audioPath);
      }
      if env.audioSize.value == 0 {
        return Err("Audio file is empty");
      }
      var loadErr := LoadModel(name, env.loadError);
      if loadErr.Some? {
        return Err(loadErr.value);
      }
      if env.transcription.Err? {
        return Err(env.transcription.error);
      }
      var srt := ResultToSrt(env.transcription.value);
      r := Ok(srt);
    }

    /**
     * `_process_task`: the decision of RouteTask is carried out on the pool.
     * A skipped task, or one no longer pooled, leaves the pool and the disk
     * alone; a failed one is failed with the message and its files removed; a
     * transcribed one is completed (and, should saving its result raise,
     * failed inside complete_task with the save error).  The model cache
     * changes only when the transcription step loads another model.
     */
    method ProcessTask(tm: TaskManager, task: Task, env: Environment, now: Timestamp, saveFailure: Option<string>)
      requires Valid() && tm.Valid()
      modifies this, tm, tm.disk
      ensures Valid() && tm.Valid() && isRunning == old(isRunning)
      ensures var route := RouteTask(task, env, old(currentModelName), old(model).Some?);
        && (route.Skip? || task.id !in old(tm.taskPool) ==>
              && tm.taskPool == old(tm.taskPool) && tm.order == old(tm.order) && tm.resultPool == old(tm.resultPool)
              && tm.processingTasks == old(tm.processingTasks) && tm.disk.files == old(tm.disk.files))
        && (route.Fail? && task.id in old(tm.taskPool) ==>
              && tm.taskPool == old(tm.taskPool)[task.id := MarkFailed(old(tm.taskPool)[task.id], route.message, now)]
              && tm.resultPool == old(tm.resultPool) && tm.order == old(tm.order)
              && tm.processingTasks == old(tm.processingTasks) - {task.id}
              && tm.disk.files == old(tm.disk.files) - CleanupTargets(task.id, old(tm.taskPool)[task.id].zipFilePath))
      ensures var route := RouteTask(task, env, old(currentModelName), old(model).Some?);
        && (route.Complete? && task.id in old(tm.taskPool) && saveFailure.None? ==>
              && tm.resultPool == old(tm.resultPool)[task.id := TaskResult(task.id, route.srtContent, now, Some(ResultPath(task.id)))]
              && tm.taskPool == old(tm.taskPool) - {task.id}
              && tm.order == Without(old(tm.order), task.id)
              && tm.processingTasks == old(tm.processingTasks) - {task.id}
              && tm.disk.files == old(tm.disk.files)[ResultPath(task.id) := TextFile(route.srtContent)]
                                  - ZipTarget(old(tm.taskPool)[task.id].zipFilePath))
        && (route.Complete? && task.id in old(tm.taskPool) && saveFailure.Some? ==>
              && tm.taskPool == old(tm.taskPool)[task.id := MarkFailed(old(tm.taskPool)[task.id], saveFailure.value, now)]
              && tm.resultPool == old(tm.resultPool) && tm.order == old(tm.order)
              && tm.processingTasks == old(tm.processingTasks) - {task.id}
              && tm.disk.files == old(tm.disk.files) - CleanupTargets(task.id, old(tm.taskPool)[task.id].zipFilePath))
      ensures ReachesTranscription(task, env) && LoadsModel(ModelFor(task), old(currentModelName), old(model).Some?, env) ==>
        model == Some(LoadedModel(ModelFor(task))) && currentModelName == Some(ModelFor(task))
      ensures !(ReachesTranscription(task, env) && LoadsModel(ModelFor(task), old(currentModelName), old(model).Some?, env)) ==>
        model == old(model) && currentModelName == old(currentModelName)
    {
      if task.status != Processing {
        return;
      }
      var ok: bool;
      if !IsSet(task.zipFilePath) || !env.zipExists {
        ok := tm.FailTask(task.id, "Task zip file not found: " + ShowPath(task.zipFilePath), now);
        return;
      }
      if env.extraction.Err? {
        ok := tm.FailTask(task.id, env.extraction.error, now);
        return;
      }
      var audioPath := env.extraction.value.audioPath;
      var srt := TranscribeAudio(audioPath, ModelFor(task), env);
      if srt.Err? {
        ok := tm.FailTask(task.id, srt.error, now);
        return;
      }
      ok := tm.CompleteTask(task.id, srt.value, now, saveFailure);
    }
  }
}
