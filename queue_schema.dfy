/** The records of the per-chat message queue as the API validates them:
    field bounds, the permission-mode literal and its default. */
module QueueSchema {
  import opened Common
  import opened Calendar
  import opened TextFormats

  const MaxContentLength: nat := 100000
  const MaxModelIdLength: nat := 100

  datatype PermissionMode = Plan | Ask | Auto

  function ModeName(m: PermissionMode): (s: string)
  {
    match m
    case Plan => "plan"
    case Ask => "ask"
    case Auto => "auto"
  }

  /** The `Literal["plan", "ask", "auto"]` check. */
  function ParsePermissionMode(s: string): (r: Option<PermissionMode>)
    ensures r.Some? <==> s in {"plan", "ask", "auto"}
  {
    if s == "plan" then Some(Plan)
    else if s == "ask" then Some(Ask)
    else if s == "auto" then Some(Auto)
    else None
  }

  lemma ModeRoundTrip(m: PermissionMode)
    ensures ParsePermissionMode(ModeName(m)) == Some(m)
  {
  }

  /** The field default when no mode is supplied. */
  const DefaultMode: PermissionMode := Auto

  predicate ValidContent(s: string) { 1 <= |s| <= MaxContentLength }

  predicate ValidModelId(s: string) { 1 <= |s| <= MaxModelIdLength }

  /** A JSON object (attachment descriptors are passed through as they are). */
  type Attachment = map<string, Json>

  /** `QueuedMessageBase`: what a client sends to queue a message. */
  datatype QueuedMessageBase = QueuedMessageBase(
    content: string, modelId: string, permissionMode: PermissionMode, thinkingMode: Option<string>)

  predicate ValidBase(b: QueuedMessageBase)
  {
    ValidContent(b.content) && ValidModelId(b.modelId)
  }

  /** `QueueMessageUpdate`: a new content for a queued message. */
  datatype QueueMessageUpdate = QueueMessageUpdate(content: string)

  predicate ValidUpdate(u: QueueMessageUpdate)
  {
    ValidContent(u.content)
  }

  /** `QueuedMessage`: a queued message as listed, with its place in the queue. */
  datatype QueuedMessage = QueuedMessage(
    id: Id, content: string, modelId: string, permissionMode: PermissionMode, thinkingMode: Option<string>,
    position: int, queuedAt: Instant, attachments: Option<seq<Attachment>>)

  predicate ValidQueuedMessage(m: QueuedMessage)
  {
    ValidContent(m.content) && ValidModelId(m.modelId)
  }

  /** `QueueListResponse`. */
  datatype QueueListResponse = QueueListResponse(items: seq<QueuedMessage>, count: int)

  /** `QueueAddResponse`. */
  datatype QueueAddResponse = QueueAddResponse(id: Id, position: int, attachments: Option<seq<Attachment>>)

  /** pydantic's `ValidationError`; which field failed is not modelled. */
  datatype ValidationError = ValidationError

  /** Constructing a `QueuedMessage` from raw field values: it succeeds exactly
      when every bound holds and the mode is one of the literals. */
  function MakeQueuedMessage(id: Id, content: string, modelId: string, permissionMode: string,
                             thinkingMode: Option<string>, position: int, queuedAt: Instant,
                             attachments: Option<seq<Attachment>>)
    : (r: Result<QueuedMessage, ValidationError>)
    ensures r.Ok? <==> ValidContent(content) && ValidModelId(modelId) && ParsePermissionMode(permissionMode).Some?
    ensures r.Ok? ==>
      ValidQueuedMessage(r.value) && ModeName(r.value.permissionMode) == permissionMode &&
      r.value == QueuedMessage(id, content, modelId, r.value.permissionMode, thinkingMode, position, queuedAt, attachments)
  {
    if ValidContent(content) && ValidModelId(modelId) then
      match ParsePermissionMode(permissionMode)
      case Some(m) => Ok(QueuedMessage(id, content, modelId, m, thinkingMode, position, queuedAt, attachments))
      case None => Err(ValidationError)
    else Err(ValidationError)
  }

  /** A validated base message always builds a listed message. */
  lemma BaseBuilds(b: QueuedMessageBase, id: Id, position: int, queuedAt: Instant, attachments: Option<seq<Attachment>>)
    requires ValidBase(b)
    ensures MakeQueuedMessage(id, b.content, b.modelId, ModeName(b.permissionMode), b.thinkingMode, position, queuedAt, attachments) ==
      Ok(QueuedMessage(id, b.content, b.modelId, b.permissionMode, b.thinkingMode, position, queuedAt, attachments))
  {
    ModeRoundTrip(b.permissionMode);
  }
}
