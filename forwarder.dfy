/**
 * The per-message handler: resolve the topic, resolve the reply anchor,
 * send text or re-upload media, record the new id. The client library's
 * answers (download, upload and send) are inputs.
 */
module Forwarder {
  import opened Wrappers
  import opened Config
  import opened MapStore
  import opened Updates
  import opened Media

  /** The (message id, thread id) pair a forwarded message replies to. */
  datatype ReplyTo = InputReplyToMessage(replyToMsgId: int, topMsgId: int)

  /**
   * An inbound message: `replyToMsgId` is `reply_to.reply_to_msg_id`
   * (None when the message is not a reply), `media` is None when the
   * message carries no media.
   */
  datatype Message = Message(id: int, replyToMsgId: Option<int>, text: Option<string>, media: Option<MessageMedia>)

  /** The request the handler issues to the destination group. */
  datatype Request =
    | SendMessageRequest(peer: int, message: string, replyTo: ReplyTo)
    | SendMediaRequest(peer: int, media: InputMedia, message: string, replyTo: ReplyTo)

  /**
   * How the client answers a send (for media: the upload and then the
   * send): it raises, returns an update list, or returns a short answer that
   * has no `updates` field, which the sender's loop then raises on.
   */
  datatype ClientResponse = ClientRaised | UpdatesResponse(updates: seq<Update>) | ShortResponse

  /** How `download_media` answers: it raises, or returns a path that may be None or "". */
  datatype Download = DownloadRaised | DownloadedTo(path: Option<string>)

  /** What a sender gives back: it raised, or returned the extracted id (possibly None). */
  datatype SendResult = SendRaised | Returned(sentId: Option<int>)

  /** How the handling of one message ends. */
  datatype Outcome =
    | Skipped
    | DownloadFailed
    | Sent(request: Request, sentId: Option<int>)
      /** An exception reached the handler's top-level `except`. */
    | Failed

  /** The handler's state after one message: the outcome, the in-memory map and the file. */
  datatype Step = Step(outcome: Outcome, dict: Dict, disk: StoredFile)

  /** Either the handler stopped before sending, or it sent a request with this result. */
  datatype Dispatch = NotDispatched(outcome: Outcome) | Dispatched(request: Request, result: SendResult)

  function SendResultOf(response: ClientResponse): SendResult {
    match response
    case UpdatesResponse(us) => Returned(FirstSentId(us))
    case _ => SendRaised
  }

  /**
   * The reply anchor: the topic root, unless the message replies to a
   * message whose mapped id is truthy; the thread is always the topic.
   */
  function ReplyAnchor(entries: map<int, int>, topic: int, replyToMsgId: Option<int>): (r: ReplyTo)
    ensures r.topMsgId == topic
    ensures r.replyToMsgId != topic ==>
      Truthy(replyToMsgId) && replyToMsgId.value in entries && r.replyToMsgId == entries[replyToMsgId.value] != 0
  {
    if Truthy(replyToMsgId) && replyToMsgId.value in entries && entries[replyToMsgId.value] != 0
    then InputReplyToMessage(entries[replyToMsgId.value], topic)
    else InputReplyToMessage(topic, topic)
  }

  /** The message's reply target has a truthy id with a truthy mapped id. */
  predicate RepliesToForwarded(entries: map<int, int>, msg: Message) {
    Truthy(msg.replyToMsgId) && msg.replyToMsgId.value in entries && entries[msg.replyToMsgId.value] != 0
  }

  /** Steps 1 to 6 of the handler: everything up to and including the send. */
  function DispatchOf(entries: map<int, int>, chat: int, msg: Message, download: Download, response: ClientResponse): (r: Dispatch)
    ensures r.Dispatched? <==>
      chat in TopicMap && (msg.media.None? || (download.DownloadedTo? && TruthyText(download.path)))
    ensures r.Dispatched? ==>
      && r.request.peer == DestinationGroup
      && r.request.replyTo == ReplyAnchor(entries, TopicMap[chat], msg.replyToMsgId)
      && r.request.message == OrEmpty(msg.text)
      && (r.request.SendMessageRequest? <==> msg.media.None?)
      && r.result == SendResultOf(response)
    ensures r.NotDispatched? ==> r.outcome != Skipped || chat !in TopicMap
  {
    match TopicFor(chat)
    case None => NotDispatched(Skipped)
    case Some(topic) =>
      var anchor := ReplyAnchor(entries, topic, msg.replyToMsgId);
      if msg.media.None? then
        Dispatched(SendMessageRequest(DestinationGroup, OrEmpty(msg.text), anchor), SendResultOf(response))
      else
        match download
        case DownloadRaised => NotDispatched(Failed)
        case DownloadedTo(path) =>
          if !TruthyText(path) then NotDispatched(DownloadFailed)
          else
            var media := InputMediaFor(path.value, msg.media.value);
            Dispatched(SendMediaRequest(DestinationGroup, media, OrEmpty(msg.text), anchor), SendResultOf(response))
  }

  /** Whether the send returned a truthy id, which the handler then records. */
  predicate Records(d: Dispatch) {
    d.Dispatched? && d.result.Returned? && Truthy(d.result.sentId)
  }

  /** Step 7: record a truthy sent id and rewrite the file (`save` is how the write ends). */
  function Commit(dict: Dict, disk: StoredFile, id: int, request: Request, result: SendResult, save: SaveResult): (r: Step)
    requires ValidDict(dict)
    ensures ValidDict(r.dict)
    ensures r.outcome.Sent? || r.outcome.Failed?
    ensures r.outcome.Sent? ==> r.outcome.request == request && result == Returned(r.outcome.sentId)
    ensures r.disk != disk || r.dict != dict ==> result.Returned? && Truthy(result.sentId)
  {
    match result
    case SendRaised => Step(Failed, dict, disk)
    case Returned(sent) =>
      if !Truthy(sent) then Step(Sent(request, sent), dict, disk)
      else
        var d := Put(dict, id, sent.value);
        Step(if save.Saved? then Sent(request, sent) else Failed, d, FileAfterSave(disk, d, save))
  }

  /** The whole handler as a function of the map, the file and the client's answers. */
  function Forward(dict: Dict, disk: StoredFile, chat: int, msg: Message, download: Download,
                   response: ClientResponse, save: SaveResult): (r: Step)
    requires ValidDict(dict)
    ensures ValidDict(r.dict)
  {
    match DispatchOf(dict.entries, chat, msg, download, response)
    case NotDispatched(outcome) => Step(outcome, dict, disk)
    case Dispatched(request, result) => Commit(dict, disk, msg.id, request, result, save)
  }

  /** `safe_send_text`: one SendMessageRequest, then the id scan over its updates. */
  method SafeSendText(peer: int, text: Option<string>, replyTo: ReplyTo, response: ClientResponse)
    returns (request: Request, result: SendResult)
    ensures request == SendMessageRequest(peer, OrEmpty(text), replyTo)
    ensures result == SendResultOf(response)
  {
    request := SendMessageRequest(peer, OrEmpty(text), replyTo);
    match response {
      case UpdatesResponse(us) =>
        var id := ExtractSentId(us);
        result := Returned(id);
      case _ =>
        result := SendRaised;
    }
  }

  /**
   * `safe_send_media`: upload the staged file, classify the original media,
   * send, then the id scan. The request is the one the sender builds; when
   * the client raises it may not have gone out.
   */
  method SafeSendMedia(peer: int, filePath: string, caption: Option<string>, replyTo: ReplyTo,
                       original: MessageMedia, response: ClientResponse)
    returns (request: Request, result: SendResult)
    ensures request == SendMediaRequest(peer, InputMediaFor(filePath, original), OrEmpty(caption), replyTo)
    ensures result == SendResultOf(response)
  {
    var media := BuildInputMedia(filePath, original);
    request := SendMediaRequest(peer, media, OrEmpty(caption), replyTo);
    match response {
      case UpdatesResponse(us) =>
        var id := ExtractSentId(us);
        result := Returned(id);
      case _ =>
        result := SendRaised;
    }
  }

  /** `handler(event)` for a message `msg` from chat `chat`, updating `store` in place. */
  method Handle(store: MessageMap, chat: int, msg: Message, download: Download,
                response: ClientResponse, save: SaveResult)
    returns (outcome: Outcome)
    requires store.Valid()
    modifies store
    ensures store.Valid()
    ensures Step(outcome, store.dict, store.disk) ==
      Forward(old(store.dict), old(store.disk), chat, msg, download, response, save)
  {
    var topic := TopicFor(chat);
    if topic.None? {
      return Skipped;
    }
    var topicId := topic.value;

    var replyTo := InputReplyToMessage(topicId, topicId);
    if Truthy(msg.replyToMsgId) {
      var originalId := msg.replyToMsgId.value;
      var mapped := store.Get(originalId);
      if Truthy(mapped) {
        replyTo := InputReplyToMessage(mapped.value, topicId);
      }
    }
    assert replyTo == ReplyAnchor(store.dict.entries, topicId, msg.replyToMsgId);
    ghost var dispatch := DispatchOf(store.dict.entries, chat, msg, download, response);

    var request: Request;
    var result: SendResult;
    if msg.media.None? {
      request, result := SafeSendText(DestinationGroup, Some(OrEmpty(msg.text)), replyTo, response);
    } else {
      if download.DownloadRaised? {
        return Failed;
      }
      var filePath := download.path;
      if !TruthyText(filePath) {
        return DownloadFailed;
      }
      request, result := SafeSendMedia(DestinationGroup, filePath.value, msg.text, replyTo, msg.media.value, response);
    }
    assert dispatch == Dispatched(request, result);
    if result.SendRaised? {
      return Failed;
    }

    var sentId := result.sentId;
    ghost var step := Commit(store.dict, store.disk, msg.id, request, result, save);
    var ok := store.Record(msg.id, sentId, save);
    outcome := if ok then Sent(request, sentId) else Failed;
  }

  // ---------------------------------------------------------------------
  // Properties of the handler
  // ---------------------------------------------------------------------

  /** A chat without a topic is skipped with no send and no change; no other chat is skipped. */
  lemma SkippedIffNoTopic(dict: Dict, disk: StoredFile, chat: int, msg: Message, download: Download,
                          response: ClientResponse, save: SaveResult)
    requires ValidDict(dict)
    ensures var r := Forward(dict, disk, chat, msg, download, response, save);
      (r.outcome == Skipped <==> chat !in TopicMap) &&
      (chat !in TopicMap ==> r.dict == dict && r.disk == disk)
  {
  }

  /** The subscribed chat without a topic never gets anything forwarded. */
  lemma PerpsCallsIsNeverForwarded(dict: Dict, disk: StoredFile, msg: Message, download: Download,
                                   response: ClientResponse, save: SaveResult)
    requires ValidDict(dict)
    ensures PerpsCalls in SourceGroups
    ensures Forward(dict, disk, PerpsCalls, msg, download, response, save) == Step(Skipped, dict, disk)
  {
  }

  /**
   * A `Sent` outcome carries the request the handler built and the id its
   * send returned; without a request the handler ends with no change.
   */
  lemma SentRequestIsDispatched(dict: Dict, disk: StoredFile, chat: int, msg: Message, download: Download,
                                response: ClientResponse, save: SaveResult)
    requires ValidDict(dict)
    ensures var r := Forward(dict, disk, chat, msg, download, response, save);
      var d := DispatchOf(dict.entries, chat, msg, download, response);
      && (r.outcome.Sent? ==> d.Dispatched? && r.outcome.request == d.request && d.result == Returned(r.outcome.sentId))
      && (d.NotDispatched? ==> r == Step(d.outcome, dict, disk))
  {
  }

  /**
   * A reply to a forwarded message is anchored to its mapped copy, in the
   * chat's topic thread, whether the send then succeeds or fails.
   */
  lemma ReplyFollowsMapping(dict: Dict, disk: StoredFile, chat: int, msg: Message, download: Download,
                            response: ClientResponse, save: SaveResult)
    requires ValidDict(dict)
    requires RepliesToForwarded(dict.entries, msg)
    ensures var d := DispatchOf(dict.entries, chat, msg, download, response);
      d.Dispatched? ==>
        d.request.replyTo == InputReplyToMessage(dict.entries[msg.replyToMsgId.value], TopicMap[chat])
    ensures var r := Forward(dict, disk, chat, msg, download, response, save);
      r.outcome.Sent? ==>
        r.outcome.request.replyTo == InputReplyToMessage(dict.entries[msg.replyToMsgId.value], TopicMap[chat])
  {
  }

  /**
   * A message that is not a reply, replies to an unknown message, or whose
   * mapping is 0, is anchored to the topic root, whether the send then
   * succeeds or fails.
   */
  lemma OtherwiseReplyToTopicRoot(dict: Dict, disk: StoredFile, chat: int, msg: Message, download: Download,
                                  response: ClientResponse, save: SaveResult)
    requires ValidDict(dict)
    requires !RepliesToForwarded(dict.entries, msg)
    ensures var d := DispatchOf(dict.entries, chat, msg, download, response);
      d.Dispatched? ==> d.request.replyTo == InputReplyToMessage(TopicMap[chat], TopicMap[chat])
    ensures var r := Forward(dict, disk, chat, msg, download, response, save);
      r.outcome.Sent? ==>
        r.outcome.request.replyTo == InputReplyToMessage(TopicMap[chat], TopicMap[chat])
  {
  }

  /** A failed download (None or empty path) sends nothing and changes nothing. */
  lemma DownloadFailureHasNoEffect(dict: Dict, disk: StoredFile, chat: int, msg: Message, path: Option<string>,
                                   response: ClientResponse, save: SaveResult)
    requires ValidDict(dict)
    requires chat in TopicMap && msg.media.Some? && !TruthyText(path)
    ensures Forward(dict, disk, chat, msg, DownloadedTo(path), response, save) == Step(DownloadFailed, dict, disk)
  {
  }

  /**
   * Text goes out as a send-message request with the message text, or ""
   * when it has none; the outcome is `Failed` only when a truthy id's write
   * raises.
   */
  lemma TextIsSentAsMessage(dict: Dict, disk: StoredFile, chat: int, msg: Message, download: Download,
                            us: seq<Update>, save: SaveResult)
    requires ValidDict(dict)
    requires chat in TopicMap && msg.media.None?
    ensures
      var request := SendMessageRequest(DestinationGroup, OrEmpty(msg.text),
                                        ReplyAnchor(dict.entries, TopicMap[chat], msg.replyToMsgId));
      && DispatchOf(dict.entries, chat, msg, download, UpdatesResponse(us)) == Dispatched(request, Returned(FirstSentId(us)))
      && Forward(dict, disk, chat, msg, download, UpdatesResponse(us), save).outcome ==
           (if Truthy(FirstSentId(us)) && !save.Saved? then Failed else Sent(request, FirstSentId(us)))
  {
  }

  /**
   * The map gains or overwrites exactly `msg.id -> sentId` when the send
   * returned a truthy id, and is otherwise unchanged; no other entry moves.
   */
  lemma MapChangesOnlyAtMessageId(dict: Dict, disk: StoredFile, chat: int, msg: Message, download: Download,
                                  response: ClientResponse, save: SaveResult)
    requires ValidDict(dict)
    ensures var r := Forward(dict, disk, chat, msg, download, response, save);
      var d := DispatchOf(dict.entries, chat, msg, download, response);
      if Records(d)
      then r.dict.entries == dict.entries[msg.id := d.result.sentId.value]
      else r.dict == dict
  {
  }

  /** Entries are never removed. */
  lemma MapOnlyGrows(dict: Dict, disk: StoredFile, chat: int, msg: Message, download: Download,
                     response: ClientResponse, save: SaveResult)
    requires ValidDict(dict)
    ensures var r := Forward(dict, disk, chat, msg, download, response, save);
      dict.entries.Keys <= r.dict.entries.Keys &&
      forall k :: k in dict.entries && k != msg.id ==> r.dict.entries[k] == dict.entries[k]
  {
  }

  /** After a recorded forward the file reloads to exactly the in-memory map. */
  lemma RecordedForwardIsPersisted(dict: Dict, disk: StoredFile, chat: int, msg: Message, download: Download,
                                   response: ClientResponse, save: SaveResult)
    requires ValidDict(dict)
    ensures var r := Forward(dict, disk, chat, msg, download, response, save);
      r.outcome.Sent? && Truthy(r.outcome.sentId) ==> LoadMap(r.disk) == r.dict
  {
    var r := Forward(dict, disk, chat, msg, download, response, save);
    match DispatchOf(dict.entries, chat, msg, download, response)
    case NotDispatched(_) =>
    case Dispatched(request, result) =>
      RecordedCommitIsSaved(dict, disk, msg.id, request, result, save);
    if r.outcome.Sent? && Truthy(r.outcome.sentId) {
      SaveLoadRoundTrip(r.dict);
    }
  }

  lemma RecordedCommitIsSaved(dict: Dict, disk: StoredFile, id: int, request: Request, result: SendResult, save: SaveResult)
    requires ValidDict(dict)
    ensures var r := Commit(dict, disk, id, request, result, save);
      r.outcome.Sent? && Truthy(r.outcome.sentId) ==> r.disk == Parsed(SaveMap(r.dict))
  {
  }

  /** The file is rewritten only where a truthy id is recorded, and then it is as far as the write got. */
  lemma FileChangesOnlyWhenRecording(dict: Dict, disk: StoredFile, chat: int, msg: Message, download: Download,
                                     response: ClientResponse, save: SaveResult)
    requires ValidDict(dict)
    ensures var r := Forward(dict, disk, chat, msg, download, response, save);
      r.disk == if Records(DispatchOf(dict.entries, chat, msg, download, response))
                then FileAfterSave(disk, r.dict, save) else disk
  {
  }

  /** A failure before the file is opened for writing leaves it untouched. */
  lemma FailureLeavesFile(dict: Dict, disk: StoredFile, chat: int, msg: Message, download: Download,
                          response: ClientResponse, save: SaveResult)
    requires ValidDict(dict)
    ensures var r := Forward(dict, disk, chat, msg, download, response, save);
      !r.outcome.Sent? && !save.WriteRaised? ==> r.disk == disk
  {
  }

  /**
   * A write that raises after `open(MAP_FILE, "w")` has truncated the file
   * leaves it incomplete: the handler fails, and the next start loads an
   * empty map, so every mapping is lost.
   */
  lemma FailedWriteLosesMap(dict: Dict, disk: StoredFile, chat: int, msg: Message, download: Download,
                            response: ClientResponse)
    requires ValidDict(dict)
    ensures var r := Forward(dict, disk, chat, msg, download, response, WriteRaised(false));
      Records(DispatchOf(dict.entries, chat, msg, download, response)) ==>
        r.outcome == Failed && LoadMap(r.disk) == EmptyDict
  {
    var r := Forward(dict, disk, chat, msg, download, response, WriteRaised(false));
    LoadAfterSave(disk, r.dict, WriteRaised(false));
  }

  /**
   * A photo without a video attribute goes out as an uploaded photo of the
   * staged file, whether the send then succeeds or fails.
   */
  lemma PhotoIsSentAsPhoto(dict: Dict, disk: StoredFile, chat: int, msg: Message, path: string,
                           response: ClientResponse, save: SaveResult)
    requires ValidDict(dict)
    requires chat in TopicMap && msg.media.Some? && IsPhoto(msg.media.value) && path != ""
    ensures var d := DispatchOf(dict.entries, chat, msg, DownloadedTo(Some(path)), response);
      d.Dispatched? && d.request.SendMediaRequest? && d.request.media == UploadedPhoto(path)
    ensures var r := Forward(dict, disk, chat, msg, DownloadedTo(Some(path)), response, save);
      r.outcome.Sent? ==> r.outcome.request.SendMediaRequest? && r.outcome.request.media == UploadedPhoto(path)
  {
  }

  /**
   * A text message from a routed chat whose send returns a truthy id, with
   * a completed write, is sent and recorded, and the file is rewritten.
   */
  lemma RecordedTextStep(dict: Dict, disk: StoredFile, chat: int, msg: Message, download: Download, us: seq<Update>)
    requires ValidDict(dict)
    requires chat in TopicMap && msg.media.None? && Truthy(FirstSentId(us))
    ensures
      var sent := FirstSentId(us);
      var anchor := ReplyAnchor(dict.entries, TopicMap[chat], msg.replyToMsgId);
      var d := Put(dict, msg.id, sent.value);
      Forward(dict, disk, chat, msg, download, UpdatesResponse(us), Saved) ==
        Step(Sent(SendMessageRequest(DestinationGroup, OrEmpty(msg.text), anchor), sent), d, Parsed(SaveMap(d)))
  {
  }

  lemma FirstChatRoutesToTopicOne()
    ensures -1003058619673 in TopicMap && TopicMap[-1003058619673] == 1
  {
  }

  lemma HelloIsForwarded(disk: StoredFile)
    ensures
      var d := Dict([100], map[100 := 555]);
      Forward(EmptyDict, disk, -1003058619673, Message(100, None, Some("hello"), None), DownloadRaised,
              UpdatesResponse([Update(Some(555), None)]), Saved) ==
        Step(Sent(SendMessageRequest(DestinationGroup, "hello", InputReplyToMessage(1, 1)), Some(555)), d, Parsed(SaveMap(d)))
  {
    FirstChatRoutesToTopicOne();
    var us := [Update(Some(555), None)];
    assert FirstSentId(us) == Some(555);
    var msg := Message(100, None, Some("hello"), None);
    RecordedTextStep(EmptyDict, disk, -1003058619673, msg, DownloadRaised, us);
    assert Put(EmptyDict, 100, 555) == Dict([100], map[100 := 555]);
    assert ReplyAnchor(EmptyDict.entries, 1, None) == InputReplyToMessage(1, 1);
    assert OrEmpty(msg.text) == "hello";
  }

  lemma ReplyToHelloIsAnchored(disk: StoredFile)
    ensures
      var d := Dict([100, 101], map[100 := 555, 101 := 556]);
      Forward(Dict([100], map[100 := 555]), disk, -1003058619673, Message(101, Some(100), Some("indeed"), None),
              DownloadRaised, UpdatesResponse([Update(None, Some(556))]), Saved) ==
        Step(Sent(SendMessageRequest(DestinationGroup, "indeed", InputReplyToMessage(555, 1)), Some(556)), d, Parsed(SaveMap(d)))
  {
    FirstChatRoutesToTopicOne();
    var dict := Dict([100], map[100 := 555]);
    var us := [Update(None, Some(556))];
    assert FirstSentId(us) == Some(556);
    var msg := Message(101, Some(100), Some("indeed"), None);
    RecordedTextStep(dict, disk, -1003058619673, msg, DownloadRaised, us);
    assert ReplyAnchor(dict.entries, 1, Some(100)) == InputReplyToMessage(555, 1);
    assert Put(dict, 101, 556) == Dict([100, 101], map[100 := 555, 101 := 556]);
    assert OrEmpty(msg.text) == "indeed";
  }

  /**
   * A text "hello" in the first source chat goes to topic 1 at the topic
   * root and is recorded; a later reply to it is anchored to its copy.
   */
  lemma ReplyChainScenario(disk: StoredFile)
    ensures
      var chat := -1003058619673;
      var first := Message(100, None, Some("hello"), None);
      var r1 := Forward(EmptyDict, disk, chat, first, DownloadRaised, UpdatesResponse([Update(Some(555), None)]), Saved);
      var second := Message(101, Some(100), Some("indeed"), None);
      var r2 := Forward(r1.dict, r1.disk, chat, second, DownloadRaised, UpdatesResponse([Update(None, Some(556))]), Saved);
      && r1.outcome == Sent(SendMessageRequest(DestinationGroup, "hello", InputReplyToMessage(1, 1)), Some(555))
      && r1.dict == Dict([100], map[100 := 555])
      && r2.outcome == Sent(SendMessageRequest(DestinationGroup, "indeed", InputReplyToMessage(555, 1)), Some(556))
      && r2.dict == Dict([100, 101], map[100 := 555, 101 := 556])
  {
    HelloIsForwarded(disk);
    ReplyToHelloIsAnchored(Parsed(SaveMap(Dict([100], map[100 := 555]))));
  }

  lemma SevenFromFirstChat(disk: StoredFile)
    ensures Forward(EmptyDict, disk, -1003058619673, Message(7, None, None, None), DownloadRaised,
                    UpdatesResponse([Update(Some(555), None)]), Saved).dict == Dict([7], map[7 := 555])
  {
    FirstChatRoutesToTopicOne();
    var us := [Update(Some(555), None)];
    assert FirstSentId(us) == Some(555);
    RecordedTextStep(EmptyDict, disk, -1003058619673, Message(7, None, None, None), DownloadRaised, us);
    assert Put(EmptyDict, 7, 555) == Dict([7], map[7 := 555]);
  }

  lemma SevenFromSecondChat(disk: StoredFile)
    ensures Forward(Dict([7], map[7 := 555]), disk, -1001263412188, Message(7, None, None, None), DownloadRaised,
                    UpdatesResponse([Update(Some(777), None)]), Saved).dict == Dict([7], map[7 := 777])
  {
    var chatB := -1001263412188;
    assert chatB in TopicMap;
    var us := [Update(Some(777), None)];
    assert FirstSentId(us) == Some(777);
    var dict := Dict([7], map[7 := 555]);
    RecordedTextStep(dict, disk, chatB, Message(7, None, None, None), DownloadRaised, us);
    assert Put(dict, 7, 777) == Dict([7], map[7 := 777]);
  }

  /**
   * The map is keyed by message id alone: a message with the same id from
   * another source chat overwrites the entry, and a later reply in the first
   * chat is anchored to the other chat's copy, in the first chat's topic.
   */
  lemma SameIdFromAnotherChatOverwrites(disk: StoredFile)
    ensures
      var chatA, chatB := -1003058619673, -1001263412188;
      var ok1, ok2 := UpdatesResponse([Update(Some(555), None)]), UpdatesResponse([Update(Some(777), None)]);
      var r1 := Forward(EmptyDict, disk, chatA, Message(7, None, None, None), DownloadRaised, ok1, Saved);
      var r2 := Forward(r1.dict, r1.disk, chatB, Message(7, None, None, None), DownloadRaised, ok2, Saved);
      var reply := Message(8, Some(7), None, None);
      && r2.dict.entries == map[7 := 777]
      && ReplyAnchor(r2.dict.entries, TopicMap[chatA], reply.replyToMsgId) == InputReplyToMessage(777, 1)
  {
    FirstChatRoutesToTopicOne();
    SevenFromFirstChat(disk);
    var r1 := Forward(EmptyDict, disk, -1003058619673, Message(7, None, None, None), DownloadRaised,
                      UpdatesResponse([Update(Some(555), None)]), Saved);
    SevenFromSecondChat(r1.disk);
    assert ReplyAnchor(map[7 := 777], 1, Some(7)) == InputReplyToMessage(777, 1);
  }
}
