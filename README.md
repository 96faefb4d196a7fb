# async-whisper-task-pool, modelled in Dafny

This project models the core of async-whisper-task-pool. The system is a
transcription server. Clients upload encrypted task archives, each holding
an audio file and a metadata record. The server keeps the tasks in a bounded
pool, and a worker turns each task into SRT subtitles. A companion script
removes runs of repeated subtitles.

The modules follow the program's files:

- `Models` (models.dfy): the records of `server/models.py` with their defaults.
- `Text` (text.dfy): the Python string operations the code uses:
  - `str(n)` and `f"{n:0Wd}"`;
  - `join`, `endswith`, `strip`, `rstrip` and `lower`.
- `Utils` (utils.dfy): the salt‖token container framing, the two-entry task
  archive, and the result and cleanup file bookkeeping of `server/utils.py`.
  The file system is a `Disk` object holding a map from path to content.
- `Manager` (task_manager.dfy): the class `TaskManager`. Its fields are the
  three dictionaries of `server/task_manager.py`, which its methods update in
  place. A sequence `order` keeps the dictionary's insertion order.
- `WhisperWorker` (whisper_worker.dfy), from `server/whisper_worker.py`:
  - the SRT formatter (`_format_time`, `_result_to_srt`);
  - the model cache;
  - the routing of one dequeued task to complete or fail.
- `Api` (api.dfy): the decisions of the HTTP handlers of `server/api.py`.
- `Client` (whisper_client.dfy): the rules of `client/whisper_client.py`:
  - how answers are classified;
  - the poll interval and when waiting ends;
  - the scan filter;
  - the safe audio file name;
  - the per-video bookkeeping of `process_all_videos`.
- `SrtCleaning` (srt_cleaner.dfy): `script/srt_cleaner.py`'s detection of
  maximal runs of equal normalised text, their removal (keeping the first
  entry of each run), the renumbering, and the counters of the cleaner
  object.

Times are integer milliseconds. Every foreign primitive is passed in as a
function or as a given outcome: Fernet, PBKDF2, zip, JSON, whisper, ffmpeg
and HTTP. Whenever a proof relies on such a primitive, the only thing it
assumes is that each decoder inverts its encoder (`Utils.Lawful`).

## Model

| member | source | states |
|---|---|---|
| Models.StatusIndex | server/models.py:7-13 | every status is one of exactly five members, each at exactly one position of the enumeration |
| Models.ParseStatus | server/models.py:7-13 | a string denotes a status exactly when it is that status's wire value ("pending", "processing", "completed", "failed", "cancelled") |
| Models.MetadataFrom | server/models.py:15-21 | metadata exists exactly when task_id, filename and password are given; model defaults to "large-v3-turbo" and submit_time to the current time |
| Models.NewTask | server/models.py:28-37 | a new task is pending, not started, not completed and without error, and carries the given id, metadata and zip path |
| Text.DigitsValue | server/whisper_worker.py:190 | `str(n)` is a non-empty string of digits, without a leading zero, that reads back as n |
| Text.ZeroPadValue | server/whisper_worker.py:211 | zero-padding n to a width gives max(width, number of digits of n) digits that read back as n |
| Text.RStrip | client/whisper_client.py:160 | `rstrip` keeps a prefix that does not end in whitespace and drops only whitespace |
| Text.LStrip | script/srt_cleaner.py:114 | `lstrip` keeps a suffix that does not start with whitespace and drops only whitespace |
| Text.StripTrimmed | script/srt_cleaner.py:34 | a stripped string neither starts nor ends with whitespace |
| Text.Lower | script/srt_cleaner.py:116 | lowering keeps the length and maps each character, leaving no upper-case ASCII letter |
| Utils.ResultPath | server/utils.py:164 | the result file ends in ".srt"; for an id without "/" it is an entry directly inside RESULT_DIR |
| Utils.UploadPath | server/api.py:116 | the upload ends in ".zip.enc"; for an id without "/" it is an entry directly inside UPLOAD_DIR |
| Utils.ResultPathInjective | server/utils.py:164-166 | with the default RESULT_DIR, two tasks share a result path (as a string) only when they are the same task, and no result path is an upload path |
| Utils.DistinctResultEntries | server/utils.py:164-166 | for two distinct ids without "/", the result files are distinct names directly inside RESULT_DIR, neither "." nor "..", so they are distinct files |
| Utils.AbsoluteIdEscapes | server/api.py:99-116 | the form's task id reaches `os.path.join` unchecked, so an absolute id names a result file and an upload outside RESULT_DIR and UPLOAD_DIR |
| Utils.Frame | server/utils.py:46 | salt‖token is 16 bytes longer than the token and splits back into exactly that salt and token |
| Utils.Unframe | server/utils.py:65-66 | the first 16 bytes and the rest concatenate back to the data; a container shorter than a salt is all salt |
| Utils.Seal | server/utils.py:36-50 | an encrypted container begins with the salt its key was derived from |
| Utils.SealRoundTrip | server/utils.py:58-76 | decrypting with the password used to encrypt gives back the plaintext |
| Utils.TaskArchive | server/utils.py:100-103 | a task archive holds exactly metadata.json and audio.ogg |
| Utils.OpenContainer | server/utils.py:117-147 | reading a container succeeds exactly when it decrypts, unzips, has both entries and the metadata loads; it returns that record and audio; it fails with a decryption error exactly when decryption fails |
| Utils.ContainerRoundTrip | server/utils.py:85-147 | a container built from a record and an audio file opens, with the same password, to that record and audio |
| Utils.CreateTaskZip | server/utils.py:85-114 | a missing audio file fails with the disk unchanged; otherwise UPLOAD_DIR/{id}.zip.enc holds the sealed archive and the plaintext zip is gone |
| Utils.ExtractTaskZip | server/utils.py:117-150 | a missing container or any failed step is reported; on success the audio path lies in the removed temporary directory and no longer exists |
| Utils.SaveResult | server/utils.py:161-170 | RESULT_DIR/{id}.srt now holds the subtitles, or the write fails and the disk is unchanged |
| Utils.CleanupTargets | server/utils.py:186-198 | cleanup targets exactly the task's result file and, when one is given, its zip |
| Utils.CleanupTaskFiles | server/utils.py:186-201 | cleanup removes exactly those targets and nothing else, and never fails |
| Manager.Without | server/task_manager.py:103 | deleting an id from the ordered keys keeps every other id, keeps them distinct, and changes nothing when the id is absent |
| Manager.FirstPendingIndex | server/task_manager.py:65-66 | the scan stops at the first pending task in insertion order, having passed only non-pending ones |
| Manager.CountsCoverAll | server/task_manager.py:207-213 | the five per-status counts add up to the number of pooled tasks |
| Manager.CollectExpired | server/task_manager.py:193-198 | the sweep selects exactly the results older than the retention period |
| Manager.RemovePoolFiles | server/task_manager.py:218-220 | the cleanup targets of every pooled task are removed and nothing else |
| Manager.RemoveResultFiles | server/task_manager.py:222-224 | the result file of every stored result is removed and nothing else |
| Manager.TaskManager.constructor | server/task_manager.py:16-21 | a new manager has three empty pools and the configured capacity MAX_TASK_POOL_SIZE (5) |
| Manager.TaskManager.PoolSize | server/task_manager.py:17 | the insertion order lists each pooled id exactly once |
| Manager.TaskManager.ProcessingBounded | server/task_manager.py:34-42 | processing_count never exceeds current_size, since every processing id is pooled |
| Manager.TaskManager.IsPoolFull | server/task_manager.py:29-32 | full exactly when the pool holds at least max size tasks |
| Manager.TaskManager.GetPoolStatus | server/task_manager.py:34-42 | is_full is current_size >= max_size; current_size is the pool size; processing_count is the size of the processing map |
| Manager.TaskManager.GetTaskStatus | server/task_manager.py:134-137 | the task under the id exactly when it is pooled |
| Manager.TaskManager.GetTaskResult | server/task_manager.py:139-142 | the result under the id exactly when one is stored |
| Manager.TaskManager.AddTask | server/task_manager.py:44-60 | a full pool refuses and nothing changes; otherwise the id maps to the new task; a replaced id keeps its place and the size; the old task's files are cleaned when it had a zip |
| Manager.TaskManager.GetNextTask | server/task_manager.py:62-71 | the first pending task in insertion order becomes processing, with started_at set, and is recorded as processing; with none pending nothing changes |
| Manager.TaskManager.FailTask | server/task_manager.py:113-132 | an unknown id changes nothing; otherwise, whatever its status, the task becomes failed with completed_at and the message, stays in the pool and counts toward capacity, leaves the processing map, and its files are cleaned |
| Manager.TaskManager.CompleteTask | server/task_manager.py:73-111 | an unknown id changes nothing; otherwise, whatever its status, the result is stored, and the task and its zip are removed; when saving fails the task is failed with the error instead |
| Manager.TaskManager.Retire | server/task_manager.py:91-103 | the result is stored, the zip removed, and the id leaves the pool, the order and the processing map |
| Manager.TaskManager.CancelTask | server/task_manager.py:166-184 | only a pending or processing task is cancelled: it gets completed_at, stays pooled, leaves processing and its files are cleaned; otherwise nothing changes |
| Manager.TaskManager.ClearTaskResult | server/task_manager.py:144-154 | true exactly when a result was stored; it and its result file are removed and the pool is untouched |
| Manager.TaskManager.SweepExpiredResults | server/task_manager.py:186-205 | exactly the results older than RESULT_RETENTION_HOURS (24) and their files are removed |
| Manager.TaskManager.CountByStatus | server/task_manager.py:207-213 | every status has its count, and the counts sum to the pool size |
| Manager.TaskManager.CleanupAll | server/task_manager.py:215-231 | all three pools are emptied, and every pooled task's files and every result file are removed |
| WhisperWorker.FormatTimeReadsBack | server/whisper_worker.py:203-211 | a formatted time is HH:MM:SS,mmm, with minutes and seconds below 60, that reads back as the same time; below 100 hours it is 12 characters long |
| WhisperWorker.SegmentLinesAt | server/whisper_worker.py:184-193 | n segments give 4n lines; lines 4i to 4i+3 are the number i+1, "start --> end", the stripped text and a blank line |
| WhisperWorker.FallbackIsFirstBlock | server/whisper_worker.py:194-199 | a result without segments gives the block of a single segment from 0 to 10 seconds carrying the whole text |
| WhisperWorker.AppendSegmentLines | server/whisper_worker.py:185-193 | the loop over segments produces exactly the segment lines |
| WhisperWorker.ResultToSrt | server/whisper_worker.py:179-201 | the subtitles are the segment lines, or the fallback block, joined with newlines |
| WhisperWorker.ModelFor | server/whisper_worker.py:122 | the task's model, or the configured default when that is empty |
| WhisperWorker.TranscribeOutcome | server/whisper_worker.py:142-177 | transcription succeeds exactly when the audio exists and is non-empty, the model is cached or loads, and the transcription succeeds; it then gives the formatted subtitles |
| WhisperWorker.RouteTask | server/whisper_worker.py:98-130 | a task that is not processing is skipped; it is completed exactly when its zip exists, extraction succeeds and transcription succeeds; every other outcome fails it |
| WhisperWorker.ExtractedTaskNeverCompletes | server/whisper_worker.py:113-149 | when the extracted audio has been removed with its temporary directory, no task completes |
| WhisperWorker.Worker.constructor | server/whisper_worker.py:20-23 | a new worker is stopped and has no model |
| WhisperWorker.Worker.HealthCheck | server/whisper_worker.py:213-228 | healthy exactly when running (a running worker always has a model) |
| WhisperWorker.Worker.LoadModel | server/whisper_worker.py:56-75 | no reload when the name is current and a model is loaded; otherwise a failed load changes nothing, and a successful one makes the name current |
| WhisperWorker.Worker.Start | server/whisper_worker.py:25-36 | a no-op when running; otherwise the default model is loaded and the worker runs exactly when that load succeeds |
| WhisperWorker.Worker.Stop | server/whisper_worker.py:38-54 | a running worker stops and drops its model; a stopped one is unchanged |
| WhisperWorker.Worker.TranscribeAudio | server/whisper_worker.py:142-177 | the outcome is TranscribeOutcome; on success the requested model is the cached one; the cache is replaced exactly when the audio is usable, another model is needed and loading it succeeds, and is otherwise untouched |
| WhisperWorker.Worker.ProcessTask | server/whisper_worker.py:98-140 | a skipped or unpooled task changes neither pool nor disk; a failing one is failed with the message and its zip and result file removed; a transcribed one is completed with its subtitles, its result written and its zip removed, or, when saving raises, failed with the save error; the model cache changes only when the transcription step loads another model |
| Api.TaskStatusReply | server/api.py:182-201 | 404 exactly when the id is not pooled, including after completion; otherwise the task's status fields |
| Api.TaskResultReply | server/api.py:204-233 | a pooled task answers no subtitles and its own status; otherwise a stored result answers its subtitles as completed; otherwise 404 |
| Api.DownloadReply | server/api.py:236-253 | 404 exactly when no result is stored; otherwise its subtitles as {id}.srt |
| Api.PooledTaskHasNoSubtitles | server/api.py:185-215 | a pooled task, even failed or cancelled, has a status and a result answer without subtitles, both with the same status |
| Api.ClearResultHandler | server/api.py:256-271 | 404 exactly when the manager had no result to clear |
| Api.CancelHandler | server/api.py:274-289 | 404 exactly when the task is absent or not cancellable; otherwise it is cancelled |
| Api.SubmittedMetadata | server/api.py:129-137 | metadata exists exactly when the record has task_id, filename, password and model; the model is not defaulted |
| Api.ReceiveUpload | server/api.py:115-147 | the upload is kept exactly when it opens with the fixed password and its record is complete; otherwise it is removed |
| Api.SubmitTask | server/api.py:98-179 | 429 when full, before anything is written; then 400 for a wrong suffix, with nothing written; then 400 and no upload for a container that does not open; otherwise the form's id maps to a new pending task, a new id is appended to the order, and the disk holds the upload at UPLOAD_DIR/{id}.zip.enc less the replaced task's zip and result file; a concurrent fill gives 500 without the upload; re-submitting an id deletes its own upload; results and the processing map never change |
| Api.AddUploadedTask | server/api.py:149-167 | add_task's refusal removes the upload and answers 500; its success answers the task id, with the pool, the order and the disk as add_task leaves them (a replaced task's zip and result file cleaned); results and the processing map never change |
| Api.StatusAfterCompletion | server/api.py:182-224 | once a task completes, its status answers 404 while its result answers the subtitles as completed |
| Client.PoolHasRoom | client/whisper_client.py:470-482 | room exactly when the answer is a 200 whose is_full is present and falsy |
| Client.SubmitAccepted | client/whisper_client.py:252-288 | accepted exactly when the answer is a 200 whose success is truthy |
| Client.ClassificationMatchesServer | client/whisper_client.py:470-482 | on the server's own answers, room means not full and acceptance means success; a non-200 answer is neither |
| Client.PollIntervalByStatus | client/whisper_client.py:341-357 | processing and pending use their configured intervals, completed 2 seconds, failed and cancelled 10 |
| Client.Wait | client/whisper_client.py:290-363 | the subtitles it returns are non-empty |
| Client.WaitForResult | client/whisper_client.py:290-363 | the polling loop ends as Wait does and sleeps as Sleeps does |
| Client.PollOnce | client/whisper_client.py:295-363 | one round either returns or sleeps, as RoundStep says |
| Client.CancelledTaskNeverEnds | client/whisper_client.py:309-357 | without a timeout, a cancelled task is polled forever, every 10 seconds |
| Client.NetworkErrorsNeverTimeOut | client/whisper_client.py:336-363 | while every status request fails, even a set timeout never ends the wait |
| Client.EmptyTranscriptNeverEnds | client/whisper_client.py:320-329 | without a timeout, a completed task with empty subtitles is polled forever |
| Client.Suffix | client/whisper_client.py:144 | the suffix is empty or a dot and at least one more character, and the path ends with it |
| Client.SrtPathFor | client/whisper_client.py:146 | the subtitle path ends in ".srt" and otherwise equals the video path without its suffix |
| Client.SavedSubtitlesAreSkipped | client/whisper_client.py:143-150 | a video's subtitle path is never the video, and once it exists the video is no longer picked up |
| Client.CandidatesMembership | client/whisper_client.py:139-153 | a file is picked up exactly when it is a video without a sibling .srt |
| Client.ScanVideoFiles | client/whisper_client.py:139-153 | the scan loop returns exactly the candidates, in file order |
| Client.KeepSafe | client/whisper_client.py:160 | the filter keeps only alphanumerics, space, '-' and '_', and never lengthens |
| Client.SafeNameIdempotent | client/whisper_client.py:160 | the safe name has at most 20 safe characters, does not end in whitespace, and is its own safe name |
| Client.AudioFileName | client/whisper_client.py:159-161 | the audio name is the safe name of the stem, then "_", the first 8 characters of the id and ".ogg" |
| Client.RoomIndex | client/whisper_client.py:553-556 | the wait for room ends at the first answer that reports room |
| Client.WaitForRoom | client/whisper_client.py:553-556 | the loop finds room exactly when some answer reports it |
| Client.SuccessNeedsSavedSubtitles | client/whisper_client.py:491-504 | a video is recorded true only when it was converted, packaged and submitted, its subtitles arrived non-empty, and they were saved |
| Client.RecordedContents | client/whisper_client.py:528-581 | a video is recorded exactly when its processing finishes, under its own outcome |
| Client.AllFinishEvery | client/whisper_client.py:583-587 | the run finishes exactly when every video's processing finishes |
| Client.ProcessAllVideos | client/whisper_client.py:515-596 | an empty scan gives {}; the result maps exactly the picked-up videos whose processing finishes, each to its outcome |
| Client.RunAll | client/whisper_client.py:528-587 | the loop over the videos builds Recorded and finishes as AllFinish says |
| Client.RunVideo | client/whisper_client.py:531-575 | conversion, packaging and submission failures record false; otherwise the outcome is the wait's, true only when the save succeeds |
| SrtCleaning.SrtEntry.constructor | script/srt_cleaner.py:30-34 | an entry stores its index and times, and its stripped text |
| SrtCleaning.RenderReadsBack | script/srt_cleaner.py:36-37 | a rendered entry splits into its number, its time range, its text and a blank line; the number reads back as the index |
| SrtCleaning.NormalizeText | script/srt_cleaner.py:103-116 | the comparison key is trimmed, single-spaced and free of upper case, and normalising it again changes nothing |
| SrtCleaning.NormalizeIsNormal | script/srt_cleaner.py:114-116 | normalised text is stripped, single-spaced and lower-case |
| SrtCleaning.NormalFixed | script/srt_cleaner.py:114-116 | normalising text that is already normal changes nothing |
| SrtCleaning.NormalizeIdempotent | script/srt_cleaner.py:114-116 | normalising twice is normalising once |
| SrtCleaning.RunEnd | script/srt_cleaner.py:137-142 | the inner scan stops at the first key that differs from the run's, or at the end |
| SrtCleaning.ScanSound | script/srt_cleaner.py:134-149 | every range the scan reports is a maximal run at least the threshold long, and the ranges are strictly increasing |
| SrtCleaning.ScanComplete | script/srt_cleaner.py:134-149 | every maximal run at least the threshold long is reported |
| SrtCleaning.DupRunsExact | script/srt_cleaner.py:118-151 | the reported ranges are exactly the maximal runs at least the threshold long, in increasing order |
| SrtCleaning.RunAt | script/srt_cleaner.py:135-142 | the inner loop computes the run's key and its end |
| SrtCleaning.FindConsecutiveDuplicates | script/srt_cleaner.py:118-151 | the nested scan returns DupRuns, which is [] when there are fewer entries than the threshold |
| SrtCleaning.CleanedLength | script/srt_cleaner.py:175-185 | the cleaned list has the input length minus Σ(end − start) |
| SrtCleaning.HeadsKept | script/srt_cleaner.py:175-178 | the first entry of every range is kept |
| SrtCleaning.RewriteNeeded | script/srt_cleaner.py:268 | the cleaned list differs from the input exactly when some entry is removed |
| SrtCleaning.NothingRemoved | script/srt_cleaner.py:166-170 | with nothing to remove the input list comes back unchanged |
| SrtCleaning.AddInterval | script/srt_cleaner.py:177-178 | the inner loop adds the positions after the first of a range |
| SrtCleaning.CollectRemovals | script/srt_cleaner.py:173-181 | the loop over ranges collects exactly their inner positions and counts Σ(end − start) |
| SrtCleaning.KeepEntries | script/srt_cleaner.py:185 | the filter keeps, in order, the entries whose position is not removed |
| SrtCleaning.Renumber | script/srt_cleaner.py:188-189 | the entries are numbered 1..n in order |
| SrtCleaning.CountKeys | script/srt_cleaner.py:203-207 | the counter holds each normalised text as often as it occurs |
| SrtCleaning.Repeated | script/srt_cleaner.py:212 | exactly the texts counted more than once are kept, with their counts |
| SrtCleaning.CleanEntries | script/srt_cleaner.py:173-191 | the kept entries are numbered 1..n, the removed ones keep their numbers, and the removal count is Σ(end − start) |
| SrtCleaning.SrtCleaner.constructor | script/srt_cleaner.py:46-56 | a new cleaner has the given threshold and zero counters |
| SrtCleaning.SrtCleaner.RemoveDuplicates | script/srt_cleaner.py:153-191 | with no ranges the input is returned and left alone; otherwise the cleaned, renumbered list is returned; total_removed grows by Σ(end − start) |
| SrtCleaning.SrtCleaner.AnalyzeDuplicates | script/srt_cleaner.py:193-213 | the texts counted more than once, with their counts; every entry is added to the global counter |
| SrtCleaning.SrtCleaner.ProcessFile | script/srt_cleaner.py:231-274 | an empty file gives false and changes nothing; otherwise processed_files grows by one, total_removed by the entries removed, the global counter by every key, the kept entries are renumbered from 1 when a run was found, and the cleaned entries are written, to the output path or else the input path, exactly when some entry was removed |

## Left out

- Manager.TaskManager.constructor, Manager.TaskManager.SweepExpiredResults: MAX_TASK_POOL_SIZE and RESULT_RETENTION_HOURS take their defaults, 5 and 24. Their environment overrides are not modelled. Every other operation holds for any capacity.
- Utils.ResultPath, Utils.UploadPath, Utils.ResultPathInjective: UPLOAD_DIR and RESULT_DIR are fixed at their defaults, and their environment overrides are not modelled. `os.path.join` is modelled, but no path is normalised: ".." and "." components and repeated "/" are not resolved, so `Under`, `Entry` and the injectivity of `ResultPathInjective` are textual. Ids "x" and "./x" give two model paths for one file. `DistinctResultEntries` gives file-level distinctness for ids without "/". Containment is promised only for ids without "/". With an absolute RESULT_DIR, injectivity fails: `AbsoluteResultDirCollides` shows two ids sharing one file.
- Concurrency is left out: the `threading.Lock`, the asyncio worker loop, the hourly sweep schedule, and the client's threads and joins. Each operation is one atomic step.
- Manager.TaskManager.CompleteTask, Manager.TaskManager.SweepExpiredResults: `complete_task` calls `fail_task` while the lock is held (server/task_manager.py:110), and the sweep calls `clear_task_result` the same way (server/task_manager.py:201). The lock is not re-entrant, so in the program both deadlock. The model gives the intended sequential effect.
- Sleeps and clocks are left out. Times are integer milliseconds, passed in as `now` or as each poll's elapsed time.
- `_format_time` works on floating-point seconds. The model takes non-negative integer milliseconds.
- The cryptographic, archive and encoding primitives are function parameters, not implementations: PBKDF2-HMAC-SHA256 (section 5.2 of RFC 8018), Fernet, base64url (section 5 of RFC 4648), zip/DEFLATE (RFC 1951), JSON and UTF-8. The same goes for whisper, ffmpeg, the HTTP transport and FastAPI routing.
- Client.PoolHasRoom, Client.SubmitAccepted, Client.Wait, Client.WaitForResult, Client.VideoOutcome, Client.RunVideo: an answer whose body is not a JSON object, or is malformed JSON, is not modelled. In the source, `.get` on such a body raises an exception other than `RequestException`. `wait_for_result` does not catch it, and `wait_for_single_result` (client/whisper_client.py:506-509) and the per-video block (client/whisper_client.py:579-581) record the video as False. `Exchange` has no alternative for such an answer, so the model never takes that route.
- The regex SRT parser and the UTF-8/GB2312 encoding fallback of `parse_srt_file` are left out. The cleaner starts from a list of entries.
- `write_srt_file`'s output is returned as the path and content to write. A failed write is not modelled.
- These are left out: the `list_tasks`, `stats`, `health` and root endpoints, `get_all_tasks`, `get_all_results`, `FileManager.read_result`, `get_file_size` and the worker's `get_status`. They only read state and do no checking.
- `_worker_loop` is left out. Its single step is `GetNextTask` followed by `ProcessTask`.
- The generic 500 handler for unexpected exceptions is left out. So is a failure to write the upload.
- `process_single_video`, `process_directory`, `print_global_statistics` and the argument-parsing mains are left out.
- The client's removal of its temporary files and directory is left out.
- Text.Lower, Text.IsAlnum: only ASCII letters are lowered and counted as alphanumeric. The client's `str.isalnum` is a parameter (`isAlnum`) instead.
- Client.PollIntervalByStatus: the intervals are non-negative numbers of seconds. A negative configured interval is not modelled.
- WhisperWorker.ExtractedTaskNeverCompletes: this hazard is stated about the decision function. `ProcessTask` takes the extraction outcome and the audio probe as separate parameters, so a caller could still pass an audio path that exists.
- SrtCleaning.SrtCleaner.RemoveDuplicates, SrtCleaning.SrtCleaner.ProcessFile: both require the entries to be distinct objects. The parser always creates a fresh entry per subtitle.
- SrtCleaning.SrtCleaner.ProcessFile: a threshold of 1 or less reports runs of length one. Their entries are renumbered in place even though nothing is removed and nothing is written.
- Manager.TaskManager.CompleteTask: the transient COMPLETED mark set before saving is not visible to any later call. After a failed save the model shows the FAILED state that follows it.
- SrtCleaning.SrtCleaner.AnalyzeDuplicates, SrtCleaning.SrtCleaner.ProcessFile: the global counter and the processed-files counter are updated once, after the loop. They are not updated entry by entry.
