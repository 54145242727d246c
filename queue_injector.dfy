/** Injecting the next queued message into a running chat stream: the prompt
    text sent to the sandboxed agent, the message wrapping it, the event test
    that decides when to try, and the guard that pops the queue. */
module QueueInjection {
  import opened Common
  import opened QueueSchema
  import opened MessageQueue

  /** A Python exception raised while reading an attachment descriptor. */
  datatype PromptError =
    | KeyError(key: string)
    | AttributeError

  /** `path.split('/')[-1]`: the text after the last slash, or all of it. */
  function LastSegment(path: string): (name: string)
    ensures '/' !in name
    ensures '/' !in path ==> name == path
  {
    var parts := Split(path, '/');
    parts[|parts| - 1]
  }

  /** The segment is a suffix of the path, preceded by a slash when it is not all of it. */
  lemma LastSegmentSuffix(path: string)
    ensures var name := LastSegment(path);
      |name| <= |path| && path[|path| - |name|..] == name &&
      (|name| < |path| ==> path[|path| - |name| - 1] == '/')
  {
    var parts := Split(path, '/');
    JoinLast(parts, '/');
  }

  /** The last part of a join is its suffix, after a separator when there are several parts. */
  lemma {:induction false} JoinLast(parts: seq<string>, c: char)
    requires |parts| >= 1
    ensures var s, last := Join(parts, [c]), parts[|parts| - 1];
      |last| <= |s| && s[|s| - |last|..] == last &&
      (|parts| > 1 ==> |last| < |s| && s[|s| - |last| - 1] == c)
    decreases |parts|
  {
    if |parts| > 1 {
      JoinLast(parts[1..], c);
      var rest := Join(parts[1..], [c]);
      assert Join(parts, [c]) == parts[0] + [c] + rest;
    }
  }

  /** One line of the attachments block: `- /home/user/<name>`. */
  function FileLine(att: Attachment): (r: Result<string, PromptError>)
    ensures r.Ok? <==> "file_path" in att && att["file_path"].JString?
    ensures r.Ok? ==> r.value == "- /home/user/" + LastSegment(att["file_path"].s)
  {
    if "file_path" !in att then Err(KeyError("file_path"))
    else match att["file_path"]
      case JString(p) => Ok("- /home/user/" + LastSegment(p))
      case _ => Err(AttributeError)
  }

  /** The lines of all attachments, in order; the first failure is raised. */
  function FileLines(atts: seq<Attachment>): (r: Result<seq<string>, PromptError>)
    ensures r.Ok? <==> forall i :: 0 <= i < |atts| ==> FileLine(atts[i]).Ok?
    ensures r.Ok? ==> |r.value| == |atts| && forall i :: 0 <= i < |atts| ==> r.value[i] == FileLine(atts[i]).value
  {
    if atts == [] then Ok([])
    else match FileLine(atts[0])
      case Err(e) => Err(e)
      case Ok(line) =>
        match FileLines(atts[1..])
        case Err(e) => Err(e)
        case Ok(rest) => Ok([line] + rest)
  }

  function PromptBlock(content: string): (s: string)
  {
    "<user_prompt>" + content + "</user_prompt>"
  }

  const AttachmentsHeader: string := "<user_attachments>\nUser uploaded the following files\n"
  const AttachmentsFooter: string := "\n</user_attachments>\n\n"

  /** `_prepare_user_prompt`. */
  function PrepareUserPrompt(content: string, attachments: Option<seq<Attachment>>): (r: Result<string, PromptError>)
    ensures !NonEmpty(attachments) ==> r == Ok(PromptBlock(content))
    ensures NonEmpty(attachments) ==> (r.Ok? <==> FileLines(attachments.value).Ok?)
    ensures NonEmpty(attachments) && r.Ok? ==>
      r.value == AttachmentsHeader + Join(FileLines(attachments.value).value, "\n") + AttachmentsFooter + PromptBlock(content)
  {
    if !NonEmpty(attachments) then Ok(PromptBlock(content))
    else match FileLines(attachments.value)
      case Err(e) => Err(e)
      case Ok(lines) => Ok(AttachmentsHeader + Join(lines, "\n") + AttachmentsFooter + PromptBlock(content))
  }

  /** Every prompt ends with the user's text in its block. */
  lemma PromptEndsWithContent(content: string, attachments: Option<seq<Attachment>>)
    requires PrepareUserPrompt(content, attachments).Ok?
    ensures var p := PrepareUserPrompt(content, attachments).value; var b := PromptBlock(content);
      |b| <= |p| && p[|p| - |b|..] == b
  {
    var p := PrepareUserPrompt(content, attachments).value;
    if NonEmpty(attachments) {
      var lines := FileLines(attachments.value).value;
      assert p == (AttachmentsHeader + Join(lines, "\n") + AttachmentsFooter) + PromptBlock(content);
    }
  }

  /** When no file name holds a newline, the block's lines read back as one line
      per attachment, in order. */
  lemma FilesListReadsBack(atts: seq<Attachment>)
    requires atts != [] && FileLines(atts).Ok?
    requires forall i :: 0 <= i < |atts| ==> '\n' !in atts[i]["file_path"].s
    ensures var lines := FileLines(atts).value;
      Split(Join(lines, "\n"), '\n') == lines &&
      forall i :: 0 <= i < |lines| ==> lines[i] == "- /home/user/" + LastSegment(atts[i]["file_path"].s)
  {
    var lines := FileLines(atts).value;
    forall k | 0 <= k < |lines|
      ensures '\n' !in lines[k]
    {
      LineOneLine(atts[k]["file_path"].s);
    }
    SplitJoin(lines, '\n');
  }

  /** A path without a newline gives a line without one. */
  lemma LineOneLine(p: string)
    requires '\n' !in p
    ensures '\n' !in "- /home/user/" + LastSegment(p)
  {
    LastSegmentSuffix(p);
    var name := LastSegment(p);
    assert forall j :: 0 <= j < |name| ==> name[j] == p[|p| - |name| + j];
  }

  /** The message written to the agent's input: a user turn with the prompt. */
  datatype InjectionMessage = InjectionMessage(
    messageType: string, role: string, content: string, parentToolUseId: Option<string>, sessionId: Option<string>)

  /** `_build_injection_message`. */
  function BuildInjectionMessage(queued: StoredMessage, sessionId: Option<string>): (r: Result<InjectionMessage, PromptError>)
    ensures r.Ok? <==> PrepareUserPrompt(queued.content, queued.attachments).Ok?
    ensures r.Ok? ==>
      r.value.messageType == "user" && r.value.role == "user" && r.value.parentToolUseId.None? &&
      r.value.sessionId == sessionId && r.value.content == PrepareUserPrompt(queued.content, queued.attachments).value
  {
    match PrepareUserPrompt(queued.content, queued.attachments)
    case Err(e) => Err(e)
    case Ok(prompt) => Ok(InjectionMessage("user", "user", prompt, None, sessionId))
  }

  /** `should_try_injection`: only after a top-level tool finished. A `tool`
      entry that is not an object fails on `.get`. */
  function ShouldTryInjection(event: map<string, Json>): (r: Result<bool, PromptError>)
    ensures r == Ok(true) <==>
      Get(event, "type", JNull) == JString("tool_completed") &&
      Get(event, "tool", JObject(map[])).JObject? &&
      !Truthy(Get(Get(event, "tool", JObject(map[])).fields, "parent_id", JNull))
    ensures Get(event, "type", JNull) != JString("tool_completed") ==> r == Ok(false)
    ensures r.Err? <==>
      Get(event, "type", JNull) == JString("tool_completed") && !Get(event, "tool", JObject(map[])).JObject?
    ensures r.Err? ==> r.error == AttributeError
  {
    if Get(event, "type", JNull) != JString("tool_completed") then Ok(false)
    else match Get(event, "tool", JObject(map[]))
      case JObject(tool) => Ok(!Truthy(Get(tool, "parent_id", JNull)))
      case _ => Err(AttributeError)
  }

  /** The queue-facing part of `check_and_inject`: nothing happens to an empty
      queue; otherwise exactly the head is taken and the message built from it
      is the one written. Creating the chat messages, publishing the event and
      the transport write are left out. */
  method CheckAndInject(queue: QueueService, chatId: string, sessionId: Option<string>)
    returns (r: Result<bool, PromptError>, sent: Option<InjectionMessage>)
    modifies queue
    ensures old(queue.Queue(chatId)) == [] ==> r == Ok(false) && sent.None? && queue.queues == old(queue.queues)
    ensures old(queue.Queue(chatId)) != [] ==>
      queue.queues == old(queue.queues)[chatId := old(queue.Queue(chatId))[1..]] &&
      var built := BuildInjectionMessage(old(queue.Queue(chatId))[0], sessionId);
      (built.Ok? ==> r == Ok(true) && sent == Some(built.value)) &&
      (built.Err? ==> r == Err(built.error) && sent.None?)
  {
    var has := queue.HasMessages(chatId);
    if !has {
      return Ok(false), None;
    }
    var queued := queue.PopNextMessage(chatId);
    if queued.None? {
      return Ok(false), None;
    }
    var built := BuildInjectionMessage(queued.value, sessionId);
    if built.Err? {
      return Err(built.error), None;
    }
    return Ok(true), Some(built.value);
  }
}
