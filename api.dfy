/**
 * The decisions of the HTTP handlers (server/api.py): the order of the
 * checks and the status code each outcome maps to.  Routing, request
 * parsing and the JSON encoding of bodies are outside the model; a handler
 * is a function of the pool (or a method on it, when it changes the pool)
 * whose answer is either a response body or an HTTP error with its detail.
 */
module Api {
  import opened Wrappers
  import opened Models
  import opened Text
  import opened Utils
  import opened Manager

  /** A handler's answer: a 200 with a body, or an HTTPException with its status code and detail. */
  datatype Reply<+T> = Success(body: T) | HttpError(code: int, detail: string)

  const NotFound: int := 404
  const BadRequest: int := 400
  const TooManyRequests: int := 429
  const InternalError: int := 500

  /** The suffix an uploaded task file must carry. */
  const UploadSuffix: string := ".zip.enc"

  // ---------------------------------------------------------------- read-only handlers

  /** GET /tasks/{id}/status: the pooled task's status fields, or 404. */
  function TaskStatusReply(tm: TaskManager, id: TaskId): (r: Reply<TaskStatusResponse>)
    requires tm.Valid()
    reads tm
    ensures r.HttpError? <==> tm.GetTaskStatus(id).None?
    ensures r.HttpError? ==> r.code == NotFound
    ensures r.Success? ==>
      var t := tm.taskPool[id];
      r.body == TaskStatusResponse(id, t.status, t.createdAt, t.startedAt, t.completedAt, t.errorMessage)
  {
    match tm.GetTaskStatus(id)
    case None => HttpError(NotFound, "Task not found")
    case Some(task) =>
      Success(TaskStatusResponse(task.id, task.status, task.createdAt, task.startedAt, task.completedAt, task.errorMessage))
  }

  /**
   * GET /tasks/{id}/result: a pooled task answers with its status and no
   * subtitles, whatever that status is; otherwise a stored result answers
   * with its subtitles as completed; otherwise 404.
   */
  function TaskResultReply(tm: TaskManager, id: TaskId): (r: Reply<TaskResultResponse>)
    requires tm.Valid()
    reads tm
    ensures r.HttpError? <==> id !in tm.taskPool && id !in tm.resultPool
    ensures r.HttpError? ==> r.code == NotFound
    ensures r.Success? ==> r.body.taskId == id
    ensures r.Success? ==> (r.body.srtContent.Some? <==> id !in tm.taskPool)
    ensures id in tm.taskPool ==> r.Success? && r.body.status == tm.taskPool[id].status
    ensures id !in tm.taskPool && id in tm.resultPool ==>
      r.Success? && r.body.status == Completed && r.body.srtContent == Some(tm.resultPool[id].srtContent)
  {
    match tm.GetTaskStatus(id)
    case Some(task) => Success(TaskResultResponse(id, None, task.status))
    case None =>
      match tm.GetTaskResult(id)
      case Some(result) => Success(TaskResultResponse(id, Some(result.srtContent), Completed))
      case None => HttpError(NotFound, "Task not found")
  }

  /** The body of GET /tasks/{id}/result/download: the subtitles, offered as `{id}.srt`. */
  datatype SrtDownload = SrtDownload(content: string, attachmentName: string)

  /** GET /tasks/{id}/result/download: the stored subtitles, or 404 when there is no result. */
  function DownloadReply(tm: TaskManager, id: TaskId): (r: Reply<SrtDownload>)
    requires tm.Valid()
    reads tm
    ensures r.HttpError? <==> id !in tm.resultPool
    ensures r.HttpError? ==> r.code == NotFound
    ensures r.Success? ==> r.body.content == tm.resultPool[id].srtContent && EndsWith(r.body.attachmentName, ".srt")
  {
    match tm.GetTaskResult(id)
    case None => HttpError(NotFound, "Task result not found")
    case Some(result) =>
      var name := id + ".srt";
      assert name[|name| - 4..] == ".srt";
      Success(SrtDownload(result.srtContent, name))
  }

  /**
   * A pending or processing task is answered by status and result alike
   * with its status and no subtitles; the download is 404 until a result
   * exists, and no result exists while the id is pooled and unfinished
   * unless an earlier run of the same id left one.
   */
  lemma PooledTaskHasNoSubtitles(tm: TaskManager, id: TaskId)
    requires tm.Valid() && id in tm.taskPool
    ensures TaskStatusReply(tm, id).Success? && TaskResultReply(tm, id).Success?
    ensures TaskResultReply(tm, id).body.srtContent == None
    ensures TaskResultReply(tm, id).body.status == TaskStatusReply(tm, id).body.status
  {
  }

  // ---------------------------------------------------------------- handlers that change the pool

  /** DELETE /tasks/{id}/result: 404 exactly when the manager has no result to clear. */
  method ClearResultHandler(tm: TaskManager, id: TaskId) returns (r: Reply<ApiResponse>)
    requires tm.Valid()
    modifies tm, tm.disk
    ensures tm.Valid()
    ensures r.HttpError? <==> id !in old(tm.resultPool)
    ensures r.HttpError? ==> r.code == NotFound
    ensures r.Success? ==> r.body.success
    ensures tm.resultPool == old(tm.resultPool) - {id} && tm.taskPool == old(tm.taskPool)
  {
    var cleared := tm.ClearTaskResult(id);
    if cleared {
      r := Success(ApiResponse(true, "Task result cleared successfully", None));
    } else {
      r := HttpError(NotFound, "Task result not found");
    }
  }

  /** DELETE /tasks/{id}: 404 exactly when the task is absent or neither pending nor processing. */
  method CancelHandler(tm: TaskManager, id: TaskId, now: Timestamp) returns (r: Reply<ApiResponse>)
    requires tm.Valid()
    modifies tm, tm.disk
    ensures tm.Valid()
    ensures r.HttpError? <==> !(id in old(tm.taskPool) && Cancellable(old(tm.taskPool)[id]))
    ensures r.HttpError? ==> r.code == NotFound && tm.taskPool == old(tm.taskPool)
    ensures r.Success? ==> r.body.success && id in tm.taskPool && tm.taskPool[id].status == Cancelled
  {
    var cancelled := tm.CancelTask(id, now);
    if cancelled {
      r := Success(ApiResponse(true, "Task cancelled successfully", None));
    } else {
      r := HttpError(NotFound, "Task not found or cannot be cancelled");
    }
  }

  // ---------------------------------------------------------------- submit

  /** The handler reads all four fields of the record; a missing one raises. */
  predicate CompleteRecord(record: map<string, string>)
  {
    "task_id" in record && "filename" in record && "password" in record && "model" in record
  }

  /** The metadata the handler builds: the model is taken from the record, not defaulted. */
  function SubmittedMetadata(record: map<string, string>, now: Timestamp): (m: Option<TaskMetadata>)
    ensures m.Some? <==> CompleteRecord(record)
    ensures m.Some? ==> m.value.taskId == record["task_id"] && m.value.model == record["model"] && m.value.submitTime == now
  {
    if "model" in record then MetadataFrom(record, now) else None
  }

  /** Whether an uploaded container yields a task: it opens with the fixed password and its record is complete. */
  predicate Admissible(p: Primitives, content: Bytes)
  {
    var outcome := OpenContainer(p, content, FixedPassword);
    outcome.Ok? && CompleteRecord(outcome.value.0)
  }

  /**
   * The file part of POST /tasks/submit: the upload is written to `upload`
   * and opened with the fixed password; when it does not open, or its record
   * lacks a field, it is removed again.
   */
  method ReceiveUpload(disk: Disk, p: Primitives, upload: Path, content: Bytes, tempDir: Path, now: Timestamp)
    returns (metadata: Option<TaskMetadata>)
    requires forall f :: f in disk.files ==> !Under(f, tempDir)
    requires !Under(upload, tempDir)
    modifies disk
    ensures metadata.Some? <==> Admissible(p, content)
    ensures metadata.Some? ==>
      && metadata == SubmittedMetadata(OpenContainer(p, content, FixedPassword).value.0, now)
      && disk.files == old(disk.files)[upload := Binary(content)]
    ensures metadata.None? ==> disk.files == old(disk.files) - {upload}
  {
    disk.files := disk.files[upload := Binary(content)];
    assert BytesOf(p, disk.files[upload]) == content;
    var extracted := ExtractTaskZip(disk, p, upload, FixedPassword, tempDir);
    metadata := if extracted.Ok? then SubmittedMetadata(extracted.value.metadata, now) else None;
    if metadata.None? {
      disk.files := disk.files - {upload};
    }
  }

  /**
   * The files left once add_task overwrites the task pooled under `id`: its
   * zip and result file are cleaned when it had a zip path; a new id cleans
   * nothing.
   */
  function Replaced(files: map<Path, FileData>, pool: map<TaskId, Task>, id: TaskId): (left: map<Path, FileData>)
    ensures left.Keys <= files.Keys
    ensures forall f :: f in left ==> left[f] == files[f]
    ensures id in pool && IsSet(pool[id].zipFilePath) ==>
      ResultPath(id) !in left && pool[id].zipFilePath.value !in left
  {
    if id in pool && IsSet(pool[id].zipFilePath) then files - CleanupTargets(id, pool[id].zipFilePath) else files
  }

  /**
   * POST /tasks/submit.  In order: 429 when the pool is full, before
   * anything is written; 400 when the file name does not end in ".zip.enc",
   * with nothing written; the upload is then stored at
   * UPLOAD_DIR/{task_id}.zip.enc and opened; a container that does not open
   * or lacks a metadata field is removed and answered with 400; otherwise a
   * new task with the form's id (not the record's) and the upload as its zip
   * is added.  `concurrent` is a submission another request gets admitted
   * between this request's capacity check and its add_task; when that fills
   * the pool, add_task refuses, the upload is removed and the answer is 500.
   * A task already pooled under the same id had its zip at the same path,
   * so replacing it removes the upload that was just written.
   */
  method SubmitTask(tm: TaskManager, p: Primitives, taskId: TaskId, filename: string, content: Bytes,
                    tempDir: Path, now: Timestamp, concurrent: Option<Task>)
    returns (r: Reply<ApiResponse>)
    requires tm.Valid()
    requires forall f :: f in tm.disk.files ==> !Under(f, tempDir)
    requires !Under(UploadPath(taskId), tempDir)
    modifies tm, tm.disk
    ensures tm.Valid()
    ensures tm.resultPool == old(tm.resultPool) && tm.processingTasks == old(tm.processingTasks)
    ensures old(|tm.taskPool|) >= tm.maxPoolSize ==>
      && r == HttpError(TooManyRequests, "Task pool is full")
      && tm.taskPool == old(tm.taskPool) && tm.order == old(tm.order) && tm.disk.files == old(tm.disk.files)
    ensures old(|tm.taskPool|) < tm.maxPoolSize && !EndsWith(filename, UploadSuffix) ==>
      && r == HttpError(BadRequest, "Task file must be encrypted zip format (.zip.enc)")
      && tm.taskPool == old(tm.taskPool) && tm.order == old(tm.order) && tm.disk.files == old(tm.disk.files)
    ensures old(|tm.taskPool|) < tm.maxPoolSize && EndsWith(filename, UploadSuffix) && !Admissible(p, content) ==>
      && r == HttpError(BadRequest, "Invalid task file format or encryption")
      && tm.taskPool == old(tm.taskPool) && tm.order == old(tm.order)
      && tm.disk.files == old(tm.disk.files) - {UploadPath(taskId)}
    ensures old(|tm.taskPool|) < tm.maxPoolSize && EndsWith(filename, UploadSuffix) && Admissible(p, content)
            && concurrent.None? ==>
      var record := OpenContainer(p, content, FixedPassword).value.0;
      && r == Success(ApiResponse(true, "Task submitted successfully", Some(taskId)))
      && tm.taskPool == old(tm.taskPool)[taskId := NewTask(taskId, SubmittedMetadata(record, now).value, now, Some(UploadPath(taskId)))]
      && tm.order == (if taskId in old(tm.taskPool) then old(tm.order) else old(tm.order) + [taskId])
      && tm.disk.files == Replaced(old(tm.disk.files)[UploadPath(taskId) := Binary(content)], old(tm.taskPool), taskId)
      && (taskId in old(tm.taskPool) && old(tm.taskPool)[taskId].zipFilePath == Some(UploadPath(taskId))
          ==> UploadPath(taskId) !in tm.disk.files)
    ensures r.Success? ==> taskId in tm.taskPool && tm.taskPool[taskId].zipFilePath == Some(UploadPath(taskId))
    ensures r.HttpError? && r.code == InternalError ==> concurrent.Some? && UploadPath(taskId) !in tm.disk.files
  {
    if tm.IsPoolFull() {
      return HttpError(TooManyRequests, "Task pool is full");
    }
    if !EndsWith(filename, UploadSuffix) {
      return HttpError(BadRequest, "Task file must be encrypted zip format (.zip.enc)");
    }
    var upload := UploadPath(taskId);
    var metadata := ReceiveUpload(tm.disk, p, upload, content, tempDir, now);
    if metadata.None? {
      return HttpError(BadRequest, "Invalid task file format or encryption");
    }
    var task := NewTask(taskId, metadata.value, now, Some(upload));
    r := AddUploadedTask(tm, task, concurrent);
  }

  /**
   * The last step of POST /tasks/submit, on a pool that was not full: add
   * the task, after the concurrent submission if there is one; a refusal removes the task's upload and is
   * answered with 500.  Replacing a pooled task that had the same zip path
   * removes that file, which is the upload just written.
   */
  method AddUploadedTask(tm: TaskManager, task: Task, concurrent: Option<Task>) returns (r: Reply<ApiResponse>)
    requires tm.Valid() && IsSet(task.zipFilePath)
    requires |tm.taskPool| < tm.maxPoolSize  // checked by the handler a moment earlier
    modifies tm, tm.disk
    ensures tm.Valid()
    ensures tm.resultPool == old(tm.resultPool) && tm.processingTasks == old(tm.processingTasks)
    ensures concurrent.None? ==>
      && r == Success(ApiResponse(true, "Task submitted successfully", Some(task.id)))
      && tm.taskPool == old(tm.taskPool)[task.id := task]
      && tm.order == (if task.id in old(tm.taskPool) then old(tm.order) else old(tm.order) + [task.id])
      && tm.disk.files == Replaced(old(tm.disk.files), old(tm.taskPool), task.id)
      && (task.id in old(tm.taskPool) && old(tm.taskPool)[task.id].zipFilePath == task.zipFilePath
          ==> task.zipFilePath.value !in tm.disk.files)
    ensures r.Success? ==> task.id in tm.taskPool && tm.taskPool[task.id] == task
    ensures r.HttpError? ==>
      && r == HttpError(InternalError, "Failed to add task to pool")
      && concurrent.Some? && task.zipFilePath.value !in tm.disk.files
  {
    if concurrent.Some? {
      var _ := tm.AddTask(concurrent.value);
    }
    var added := tm.AddTask(task);
    if added {
      r := Success(ApiResponse(true, "Task submitted successfully", Some(task.id)));
    } else {
      tm.disk.files := tm.disk.files - {task.zipFilePath.value};
      r := HttpError(InternalError, "Failed to add task to pool");
    }
  }

  /**
   * Once a task completes, its status is 404 while its result answers with
   * the subtitles as completed: completion moves the task out of the pool
   * and into the results.
   */
  method StatusAfterCompletion(tm: TaskManager, id: TaskId, srtContent: string, now: Timestamp)
    returns (status: Reply<TaskStatusResponse>, result: Reply<TaskResultResponse>)
    requires tm.Valid() && id in tm.taskPool
    modifies tm, tm.disk
    ensures tm.Valid()
    ensures status == HttpError(NotFound, "Task not found")
    ensures result == Success(TaskResultResponse(id, Some(srtContent), Completed))
  {
    var ok := tm.CompleteTask(id, srtContent, now, None);
    status := TaskStatusReply(tm, id);
    result := TaskResultReply(tm, id);
  }
}
