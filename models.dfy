/**
 * The records the task pool stores and the server answers with
 * (server/models.py).  Timestamps are integer milliseconds; identifiers and
 * paths are strings.  A pydantic field declared with `...` is a plain field
 * here, an `Optional` field is an `Option`, and the defaults are applied by
 * the constructor functions below.
 */
module Models {
  import opened Wrappers

  type TaskId = string
  type Path = string
  type Timestamp = int

  datatype TaskStatus = Pending | Processing | Completed | Failed | Cancelled

  /** The five members of the enum, in declaration order. */
  const AllStatuses: seq<TaskStatus> := [Pending, Processing, Completed, Failed, Cancelled]

  /** Every status is one of the five, and each sits at exactly one position of AllStatuses. */
  function StatusIndex(s: TaskStatus): (i: nat)
    ensures i < |AllStatuses| == 5 && AllStatuses[i] == s
    ensures forall j :: 0 <= j < |AllStatuses| && AllStatuses[j] == s ==> j == i
  {
    match s
    case Pending => 0
    case Processing => 1
    case Completed => 2
    case Failed => 3
    case Cancelled => 4
  }

  /** The enum's string value, as it appears on the wire. */
  function StatusValue(s: TaskStatus): string
  {
    match s
    case Pending => "pending"
    case Processing => "processing"
    case Completed => "completed"
    case Failed => "failed"
    case Cancelled => "cancelled"
  }

  /** `TaskStatus(v)`: the member whose value is v, if any. */
  function ParseStatus(v: string): (r: Option<TaskStatus>)
    ensures forall s :: StatusValue(s) == v <==> r == Some(s)
  {
    if v == "pending" then Some(Pending)
    else if v == "processing" then Some(Processing)
    else if v == "completed" then Some(Completed)
    else if v == "failed" then Some(Failed)
    else if v == "cancelled" then Some(Cancelled)
    else None
  }

  const DefaultModel: string := "large-v3-turbo"

  datatype TaskMetadata = TaskMetadata(
    taskId: TaskId,
    filename: string,
    password: string,
    model: string,
    submitTime: Timestamp)

  /**
   * `TaskMetadata(**fields)`: task_id, filename and password are required,
   * model defaults to "large-v3-turbo" and submit_time to the current time.
   */
  function MetadataFrom(fields: map<string, string>, now: Timestamp): (r: Option<TaskMetadata>)
    ensures r.Some? <==> "task_id" in fields && "filename" in fields && "password" in fields
    ensures r.Some? ==>
      && r.value.taskId == fields["task_id"]
      && r.value.filename == fields["filename"]
      && r.value.password == fields["password"]
      && r.value.model == (if "model" in fields then fields["model"] else DefaultModel)
      && r.value.submitTime == now
  {
    if "task_id" in fields && "filename" in fields && "password" in fields then
      Some(TaskMetadata(fields["task_id"], fields["filename"], fields["password"],
                        if "model" in fields then fields["model"] else DefaultModel, now))
    else None
  }

  datatype Task = Task(
    id: TaskId,
    metadata: TaskMetadata,
    status: TaskStatus,
    createdAt: Timestamp,
    startedAt: Option<Timestamp>,
    completedAt: Option<Timestamp>,
    errorMessage: Option<string>,
    zipFilePath: Option<Path>)

  /** `Task(id=..., metadata=..., zip_file_path=...)`: a new task is pending, not started, not finished, without error. */
  function NewTask(id: TaskId, metadata: TaskMetadata, createdAt: Timestamp, zipFilePath: Option<Path>): (t: Task)
    ensures t.id == id && t.metadata == metadata && t.createdAt == createdAt && t.zipFilePath == zipFilePath
    ensures t.status == Pending
    ensures t.startedAt == None && t.completedAt == None && t.errorMessage == None
  {
    Task(id, metadata, Pending, createdAt, None, None, None, zipFilePath)
  }

  /** Python truthiness of an optional path: present and not the empty string. */
  predicate IsSet(p: Option<Path>)
  {
    p.Some? && p.value != ""
  }

  datatype TaskResult = TaskResult(
    taskId: TaskId,
    srtContent: string,
    createdAt: Timestamp,
    filePath: Option<Path>)

  datatype TaskStatusResponse = TaskStatusResponse(
    taskId: TaskId,
    status: TaskStatus,
    createdAt: Timestamp,
    startedAt: Option<Timestamp>,
    completedAt: Option<Timestamp>,
    errorMessage: Option<string>)

  /** The subtitle text is optional in a result response; the status is not. */
  datatype TaskResultResponse = TaskResultResponse(
    taskId: TaskId,
    srtContent: Option<string>,
    status: TaskStatus)

  datatype PoolStatusResponse = PoolStatusResponse(
    isFull: bool,
    currentSize: nat,
    maxSize: int,
    processingCount: nat)

  /** `ApiResponse`; its free-form `data` only ever carries a task id in the core. */
  datatype ApiResponse = ApiResponse(
    success: bool,
    message: string,
    taskId: Option<TaskId>)
}
