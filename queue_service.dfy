/** The per-chat message queue: one Redis list per chat, read and written by
    `QueueService`. Entries are FIFO: added at the tail, taken from the head. */
module MessageQueue {
  import opened Common
  import opened Calendar
  import opened TextFormats
  import opened QueueSchema

  /** One entry of a chat's list, as `add_message` stores it. The keys that
      readers take with `.get` are optional. */
  datatype StoredMessage = StoredMessage(
    id: Id, content: string, modelId: string, permissionMode: Option<string>,
    thinkingMode: Option<string>, queuedAt: Instant, attachments: Option<seq<Attachment>>)

  /** `data["id"] == str(message_id)`, stated on the ids themselves (see `MatchesIdText`). */
  predicate MatchesId(m: StoredMessage, id: Id)
  {
    m.id == id
  }

  /** Comparing the id texts, as the lookups do, is comparing the ids. */
  lemma MatchesIdText(m: StoredMessage, id: Id)
    ensures FormatUuid(m.id) == FormatUuid(id) <==> MatchesId(m, id)
  {
    FormatUuidInjective(m.id, id);
  }

  /** The index of the first entry with the given id. */
  function FindMessage(q: seq<StoredMessage>, id: Id): (r: Option<nat>)
    ensures r.Some? ==> r.value < |q| && MatchesId(q[r.value], id)
    ensures r.Some? ==> forall j :: 0 <= j < r.value ==> !MatchesId(q[j], id)
    ensures r.None? <==> forall j :: 0 <= j < |q| ==> !MatchesId(q[j], id)
  {
    if q == [] then None
    else if MatchesId(q[0], id) then Some(0)
    else match FindMessage(q[1..], id)
      case None => None
      case Some(k) => Some(k + 1)
  }

  /** `data.get("permission_mode", "auto")`. */
  function ModeOrDefault(mode: Option<string>): (s: string)
  {
    match mode
    case Some(s) => s
    case None => "auto"
  }

  /** Whether the `QueuedMessage` built from an entry passes validation. */
  predicate Buildable(m: StoredMessage)
  {
    ValidContent(m.content) && ValidModelId(m.modelId) && ParsePermissionMode(ModeOrDefault(m.permissionMode)).Some?
  }

  /** The `QueuedMessage` the readers build for entry `m` at index `idx`. */
  function View(m: StoredMessage, idx: nat): (r: Result<QueuedMessage, ValidationError>)
    ensures r.Ok? <==> Buildable(m)
    ensures r.Ok? ==>
      r.value.id == m.id && r.value.content == m.content && r.value.modelId == m.modelId &&
      r.value.position == idx && r.value.queuedAt == m.queuedAt &&
      r.value.thinkingMode == m.thinkingMode && r.value.attachments == m.attachments &&
      ModeName(r.value.permissionMode) == ModeOrDefault(m.permissionMode)
    ensures r.Ok? && m.permissionMode.None? ==> r.value.permissionMode == Auto
  {
    MakeQueuedMessage(m.id, m.content, m.modelId, ModeOrDefault(m.permissionMode), m.thinkingMode, idx,
                      m.queuedAt, m.attachments)
  }

  /** Every entry of the list can be listed. */
  predicate Listable(q: seq<StoredMessage>)
  {
    forall i :: 0 <= i < |q| ==> Buildable(q[i])
  }

  /** `get_queue`'s response: one item per entry, in list order, `position` the index. */
  function ListQueue(q: seq<StoredMessage>): (r: Result<QueueListResponse, ValidationError>)
    ensures r.Ok? <==> Listable(q)
    ensures r.Ok? ==> r.value.count == |r.value.items| == |q|
    ensures r.Ok? ==> forall i :: 0 <= i < |q| ==> View(q[i], i) == Ok(r.value.items[i])
  {
    if Listable(q) then
      var items := seq(|q|, i requires 0 <= i < |q| => View(q[i], i).value);
      Ok(QueueListResponse(items, |items|))
    else Err(ValidationError)
  }

  /** Listed items carry their index as position and come in queue order. */
  lemma ListedInOrder(q: seq<StoredMessage>, i: nat)
    requires ListQueue(q).Ok? && i < |q|
    ensures ListQueue(q).value.items[i].position == i && ListQueue(q).value.items[i].id == q[i].id
  {
    assert View(q[i], i) == Ok(ListQueue(q).value.items[i]);
  }

  /** `existing or []`. */
  function OrEmpty(a: Option<seq<Attachment>>): (r: seq<Attachment>)
  {
    if a.Some? then a.value else []
  }

  /** `if attachments:` on an optional list. */
  predicate NonEmpty(a: Option<seq<Attachment>>)
  {
    a.Some? && a.value != []
  }

  /** The entry `append_to_message` writes back. */
  function Appended(m: StoredMessage, content: string, attachments: Option<seq<Attachment>>): (r: StoredMessage)
    ensures r.content == m.content + "\n" + content
    ensures NonEmpty(attachments) ==> r.attachments == Some(OrEmpty(m.attachments) + attachments.value)
    ensures !NonEmpty(attachments) ==> r.attachments == m.attachments
    ensures r == m.(content := r.content, attachments := r.attachments)
  {
    var a := if NonEmpty(attachments) then Some(OrEmpty(m.attachments) + attachments.value) else m.attachments;
    m.(content := m.content + "\n" + content, attachments := a)
  }

  /** Redis `LREM key 1 x`: drop the first element equal to `x`. */
  function RemoveFirst(q: seq<StoredMessage>, x: StoredMessage): (r: seq<StoredMessage>)
  {
    if q == [] then []
    else if q[0] == x then q[1..]
    else [q[0]] + RemoveFirst(q[1..], x)
  }

  /** LREM of an element with no equal element before it removes exactly that index. */
  lemma {:induction false} RemoveFirstSplit(q: seq<StoredMessage>, i: nat)
    requires i < |q| && forall j :: 0 <= j < i ==> q[j] != q[i]
    ensures RemoveFirst(q, q[i]) == q[..i] + q[i + 1..]
    decreases i
  {
    if i > 0 {
      var x, t := q[i], q[1..];
      assert t[i - 1] == x;
      assert forall j :: 0 <= j < i - 1 ==> t[j] == q[j + 1];
      RemoveFirstSplit(t, i - 1);
      assert q[..i] + q[i + 1..] == [q[0]] + (t[..i - 1] + t[i..]);
    }
  }

  /** The raw entry found by id is removed at the index where it was found:
      an equal entry earlier in the list would have matched first. */
  lemma RemoveFirstAt(q: seq<StoredMessage>, id: Id)
    requires FindMessage(q, id).Some?
    ensures var i := FindMessage(q, id).value; RemoveFirst(q, q[i]) == q[..i] + q[i + 1..]
  {
    var i := FindMessage(q, id).value;
    assert forall j :: 0 <= j < i ==> q[j].id != q[i].id;
    RemoveFirstSplit(q, i);
  }

  /** Removing an entry keeps a list readable. */
  lemma ListableRemove(q: seq<StoredMessage>, i: nat)
    requires i < |q|
    ensures Listable(q) ==> Listable(q[..i] + q[i + 1..])
  {
    var r := q[..i] + q[i + 1..];
    assert forall j :: 0 <= j < |r| ==> r[j] == q[if j < i then j else j + 1];
  }

  function FullMessage(max: nat): (s: string)
  {
    "Queue is full (max " + NatToDecimal(max) + " messages)"
  }

  lemma ListableUpdate(q: seq<StoredMessage>, i: nat, m: StoredMessage)
    requires i < |q| && Buildable(m)
    ensures Listable(q) ==> Listable(q[i := m])
  {
  }

  class QueueService {
    /** `MAX_QUEUE_SIZE`: the constant's value is not part of this model. */
    const maxQueueSize: nat
    /** The list of every chat, by chat id. */
    var queues: map<string, seq<StoredMessage>>

    constructor(maxQueueSize: nat)
      ensures this.maxQueueSize == maxQueueSize && queues == map[]
    {
      this.maxQueueSize := maxQueueSize;
      queues := map[];
    }

    /** The chat's list; a missing key is an empty list. */
    function Queue(chatId: string): (q: seq<StoredMessage>)
      reads this
    {
      if chatId in queues then queues[chatId] else []
    }

    /** No list is longer than the capacity. */
    ghost predicate WithinCapacity()
      reads this
    {
      forall c :: c in queues ==> |queues[c]| <= maxQueueSize
    }

    /** Every list can be read back by `get_queue`. */
    ghost predicate AllListable()
      reads this
    {
      forall c :: c in queues ==> Listable(queues[c])
    }

    /** `add_message`: refused when the list is full, otherwise appended at the
        tail; the position returned is the old length. */
    method AddMessage(chatId: string, content: string, modelId: string, permissionMode: string,
                      thinkingMode: Option<string>, attachments: Option<seq<Attachment>>, newId: Id, now: Instant)
      returns (r: Result<(Id, nat), string>)
      modifies this
      ensures |old(Queue(chatId))| >= maxQueueSize ==> r == Err(FullMessage(maxQueueSize)) && queues == old(queues)
      ensures |old(Queue(chatId))| < maxQueueSize ==>
        r == Ok((newId, |old(Queue(chatId))|)) &&
        queues == old(queues)[chatId := old(Queue(chatId)) +
          [StoredMessage(newId, content, modelId, Some(permissionMode), thinkingMode, now, attachments)]]
      ensures old(WithinCapacity()) ==> WithinCapacity()
      ensures old(AllListable()) && ValidContent(content) && ValidModelId(modelId) &&
        ParsePermissionMode(permissionMode).Some?
        ==> AllListable()
    {
      var q := Queue(chatId);
      var currentLen := |q|;
      if currentLen >= maxQueueSize {
        return Err(FullMessage(maxQueueSize));
      }
      var m := StoredMessage(newId, content, modelId, Some(permissionMode), thinkingMode, now, attachments);
      queues := queues[chatId := q + [m]];
      r := Ok((newId, currentLen));
    }

    /** `get_queue`. */
    method GetQueue(chatId: string) returns (r: Result<QueueListResponse, ValidationError>)
      ensures r == ListQueue(Queue(chatId))
    {
      var q := Queue(chatId);
      var items: seq<QueuedMessage> := [];
      var idx := 0;
      while idx < |q|
        invariant 0 <= idx <= |q| && |items| == idx
        invariant forall i :: 0 <= i < idx ==> View(q[i], i) == Ok(items[i])
      {
        var v := View(q[idx], idx);
        if v.Err? {
          return Err(ValidationError);
        }
        items := items + [v.value];
        idx := idx + 1;
      }
      r := Ok(QueueListResponse(items, |items|));
      assert items == ListQueue(q).value.items;
    }

    /** The `enumerate` search shared by the methods that look an entry up by id. */
    method Locate(chatId: string, messageId: Id) returns (found: Option<nat>)
      ensures found == FindMessage(Queue(chatId), messageId)
    {
      var q := Queue(chatId);
      var idx := 0;
      while idx < |q|
        invariant 0 <= idx <= |q|
        invariant forall j :: 0 <= j < idx ==> !MatchesId(q[j], messageId)
      {
        if MatchesId(q[idx], messageId) {
          return Some(idx);
        }
        idx := idx + 1;
      }
      return None;
    }

    /** `update_message`: replaces the content of the first entry with the id
        (`LSET`), then builds its `QueuedMessage`, which may fail validation. */
    method UpdateMessage(chatId: string, messageId: Id, content: string)
      returns (r: Result<Option<QueuedMessage>, ValidationError>)
      modifies this
      ensures FindMessage(old(Queue(chatId)), messageId).None? ==> r == Ok(None) && queues == old(queues)
      ensures FindMessage(old(Queue(chatId)), messageId).Some? ==>
        var i := FindMessage(old(Queue(chatId)), messageId).value;
        var m := old(Queue(chatId))[i].(content := content);
        queues == old(queues)[chatId := old(Queue(chatId))[i := m]] &&
        r == (if View(m, i).Ok? then Ok(Some(View(m, i).value)) else Err(ValidationError))
      ensures old(WithinCapacity()) ==> WithinCapacity()
      ensures old(AllListable()) && ValidContent(content) ==> AllListable()
    {
      var found := Locate(chatId, messageId);
      if found.None? {
        return Ok(None);
      }
      var i := found.value;
      var q := Queue(chatId);
      var m := q[i].(content := content);
      queues := queues[chatId := q[i := m]];
      if Buildable(m) {
        ListableUpdate(q, i, m);
      }
      var v := View(m, i);
      r := if v.Ok? then Ok(Some(v.value)) else Err(ValidationError);
    }

    /** `append_to_message` as written: joins the contents with a newline and
        concatenates the attachments when new ones are given, writes the entry
        back (`LSET`), and only then builds its `QueuedMessage`. */
    method AppendToMessage(chatId: string, messageId: Id, content: string, attachments: Option<seq<Attachment>>)
      returns (r: Result<Option<QueuedMessage>, ValidationError>)
      modifies this
      ensures FindMessage(old(Queue(chatId)), messageId).None? ==> r == Ok(None) && queues == old(queues)
      ensures FindMessage(old(Queue(chatId)), messageId).Some? ==>
        var i := FindMessage(old(Queue(chatId)), messageId).value;
        var m := Appended(old(Queue(chatId))[i], content, attachments);
        queues == old(queues)[chatId := old(Queue(chatId))[i := m]] &&
        r == (if View(m, i).Ok? then Ok(Some(View(m, i).value)) else Err(ValidationError))
      ensures old(WithinCapacity()) ==> WithinCapacity()
    {
      var found := Locate(chatId, messageId);
      if found.None? {
        return Ok(None);
      }
      var i := found.value;
      var q := Queue(chatId);
      var m := Appended(q[i], content, attachments);
      queues := queues[chatId := q[i := m]];
      var v := View(m, i);
      r := if v.Ok? then Ok(Some(v.value)) else Err(ValidationError);
    }

    /** `append_to_message` checking the joined entry before writing it: a
        rejected append leaves the list as it was, so the list stays listable. */
    method AppendToMessageChecked(chatId: string, messageId: Id, content: string, attachments: Option<seq<Attachment>>)
      returns (r: Result<Option<QueuedMessage>, ValidationError>)
      modifies this
      ensures FindMessage(old(Queue(chatId)), messageId).None? ==> r == Ok(None) && queues == old(queues)
      ensures FindMessage(old(Queue(chatId)), messageId).Some? ==>
        var i := FindMessage(old(Queue(chatId)), messageId).value;
        var m := Appended(old(Queue(chatId))[i], content, attachments);
        (View(m, i).Ok? ==> r == Ok(Some(View(m, i).value)) && queues == old(queues)[chatId := old(Queue(chatId))[i := m]]) &&
        (View(m, i).Err? ==> r == Err(ValidationError) && queues == old(queues))
      ensures old(WithinCapacity()) ==> WithinCapacity()
      ensures old(AllListable()) ==> AllListable()
    {
      var found := Locate(chatId, messageId);
      if found.None? {
        return Ok(None);
      }
      var i := found.value;
      var q := Queue(chatId);
      var m := Appended(q[i], content, attachments);
      var v := View(m, i);
      if v.Err? {
        return Err(ValidationError);
      }
      queues := queues[chatId := q[i := m]];
      ListableUpdate(q, i, m);
      r := Ok(Some(v.value));
    }

    /** `remove_message`: drops the first entry with the id and keeps the order
        of the others. */
    method RemoveMessage(chatId: string, messageId: Id) returns (removed: bool)
      modifies this
      ensures FindMessage(old(Queue(chatId)), messageId).None? ==> !removed && queues == old(queues)
      ensures FindMessage(old(Queue(chatId)), messageId).Some? ==>
        var i := FindMessage(old(Queue(chatId)), messageId).value;
        removed && queues == old(queues)[chatId := old(Queue(chatId))[..i] + old(Queue(chatId))[i + 1..]]
      ensures old(WithinCapacity()) ==> WithinCapacity()
      ensures old(AllListable()) ==> AllListable()
    {
      var found := Locate(chatId, messageId);
      if found.None? {
        return false;
      }
      var q := Queue(chatId);
      var i := found.value;
      var rest := RemoveFirst(q, q[i]);
      RemoveFirstAt(q, messageId);
      ListableRemove(q, i);
      queues := queues[chatId := rest];
      return true;
    }

    /** `pop_next_message`: takes the head, or nothing from an empty list. */
    method PopNextMessage(chatId: string) returns (r: Option<StoredMessage>)
      modifies this
      ensures old(Queue(chatId)) == [] ==> r.None? && queues == old(queues)
      ensures old(Queue(chatId)) != [] ==>
        r == Some(old(Queue(chatId))[0]) && queues == old(queues)[chatId := old(Queue(chatId))[1..]]
      ensures old(WithinCapacity()) ==> WithinCapacity()
      ensures old(AllListable()) ==> AllListable()
    {
      var q := Queue(chatId);
      if q == [] {
        return None;
      }
      queues := queues[chatId := q[1..]];
      r := Some(q[0]);
      assert forall j :: 0 <= j < |q| - 1 ==> queues[chatId][j] == q[j + 1];
    }

    /** `has_messages`. */
    method HasMessages(chatId: string) returns (r: bool)
      ensures r <==> |Queue(chatId)| > 0
    {
      var length := |Queue(chatId)|;
      r := length > 0;
    }
  }

  /** A full-length message with one more line appended: both parts pass the
      content bound, yet the stored result does not, so `get_queue` fails for
      the chat from then on. */
  lemma AppendBreaksListing(id: Id, now: Instant)
    ensures var m := StoredMessage(id, seq(MaxContentLength, i => 'a'), "m", Some("auto"), None, now, None);
      Listable([m]) && ValidContent("b") && !Listable([m][0 := Appended(m, "b", None)]) &&
      ListQueue([m][0 := Appended(m, "b", None)]).Err?
  {
    var m := StoredMessage(id, seq(MaxContentLength, i => 'a'), "m", Some("auto"), None, now, None);
    var a := Appended(m, "b", None);
    assert |a.content| == MaxContentLength + 2;
    assert !Buildable([m][0 := a][0]);
  }

  // -----------------------------------------------------------------------
  // Attachment descriptors

  /** An attachment row of a stored chat message. */
  datatype MessageAttachment = MessageAttachment(
    id: Id, messageId: Id, fileUrl: string, fileType: string, filename: string, createdAt: Instant)

  /** The JSON descriptor of one attachment. */
  function Descriptor(a: MessageAttachment): (d: Attachment)
    ensures d.Keys == {"id", "message_id", "file_url", "file_type", "filename", "created_at"}
  {
    map["id" := JString(FormatUuid(a.id)), "message_id" := JString(FormatUuid(a.messageId)),
        "file_url" := JString(a.fileUrl), "file_type" := JString(a.fileType),
        "filename" := JString(a.filename), "created_at" := JString(IsoFormat(a.createdAt))]
  }

  /** A descriptor reads back as the attachment it was made from. */
  lemma DescriptorRoundTrip(a: MessageAttachment)
    ensures var d := Descriptor(a);
      d["id"].JString? && ParseUuid(d["id"].s) == Some(a.id) &&
      d["message_id"].JString? && ParseUuid(d["message_id"].s) == Some(a.messageId) &&
      d["created_at"].JString? && ParseIso(d["created_at"].s) == Some(a.createdAt) &&
      d["file_url"] == JString(a.fileUrl) && d["file_type"] == JString(a.fileType) &&
      d["filename"] == JString(a.filename)
  {
    var d := Descriptor(a);
    assert d["id"] == JString(FormatUuid(a.id));
    assert d["message_id"] == JString(FormatUuid(a.messageId));
    assert d["created_at"] == JString(IsoFormat(a.createdAt));
    UuidRoundTrip(a.id);
    UuidRoundTrip(a.messageId);
    IsoRoundTrip(a.createdAt);
  }

  /** `serialize_message_attachments`: nothing unless both the queued entry and
      the stored message have attachments; then one descriptor per stored
      attachment, in order. */
  function SerializeMessageAttachments(queued: Option<seq<Attachment>>, stored: seq<MessageAttachment>)
    : (r: Option<seq<Attachment>>)
    ensures r.None? <==> !NonEmpty(queued) || stored == []
    ensures r.Some? ==> |r.value| == |stored| && forall i :: 0 <= i < |stored| ==> r.value[i] == Descriptor(stored[i])
  {
    if !NonEmpty(queued) || stored == [] then None
    else Some(seq(|stored|, i requires 0 <= i < |stored| => Descriptor(stored[i])))
  }
}
