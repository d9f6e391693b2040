# Telegram topic forwarder, modelled in Dafny

The forwarder copies every new message from a fixed set of source chats into one
destination group. Each source chat has its own topic thread there. Reply chains
survive the copy: a persisted message map takes each source message id to the id
of its forwarded copy. When a message replies to a message that was already
forwarded, the copy replies to that message's copy. Otherwise it replies to the
topic root.

The model covers the handler's per-message decisions and bookkeeping:

- `config.dfy` (`Config`): the subscribed chats, the destination group and the chat-to-topic table, with what they imply.
- `decimal.dfy` (`Decimal`): `str(k)` for the map's integer keys, and Python's `int(s)` for reading them back. `int(s)` strips surrounding ASCII whitespace, accepts an optional sign, and allows single underscores between digits.
- `map_store.dfy` (`MapStore`): decoded JSON values, with an object's members as the file lists them; a repeated name is merged as `json.load` does, keeping the first position and the last value. A Python dict with int keys, kept as its entries plus its key insertion order. `load_map` and `save_map`. The class `MessageMap`, which owns the in-memory map and the file contents.
- `updates.dfy` (`Updates`): the first-match scan over a send response's updates, which both senders share.
- `media.dfy` (`Media`): the photo-versus-document decision, `os.path.basename`, and the upload descriptor.
- `forwarder.dfy` (`Forwarder`): the two senders and the handler. `Handle` is imperative: it updates a `MessageMap` in place, step by step, as the source does. It is proved equal to the specification function `Forward`, and the handler's properties are lemmas about `Forward`.

Python truthiness is explicit: a reply-to id, mapped id, sent id or message id of 0 counts as absent, and so does an empty download path (`Truthy`, `TruthyText`).

Every answer from the chat client is an input to the model: the download result and the upload-and-send response. So is how the map file write ends: it succeeds; `open` raises; or the write raises after `open(MAP_FILE, "w")` has already truncated the file. Each of them can raise. A raise ends in the `Failed` outcome, as the handler's top-level `except` does.

Three behaviours of the code are easy to miss, and the model keeps them:
- An entry is written with `message_map[message.id] = sent_id`. A later message with the same id overwrites it. Message ids from different source chats share one key space (`SameIdFromAnotherChatOverwrites`).
- An entry is recorded only when the sent id is truthy, so a returned id of 0 is not recorded, although a message was sent.
- If `save_map` raises after the in-memory update, the new entry stays in memory and the outcome is `Failed`. The file is kept only when `open` itself raised. A raise while writing leaves the truncated file incomplete, so the next start loads an empty map and every mapping is lost (`FailedWriteLosesMap`).

## Model

| member | source | states |
|---|---|---|
| `Config.TopicFor` | main.py:162 | `TOPIC_MAP.get(chat)`: a topic exactly for the chats in the table, and that topic is a positive id |
| `Config.OnlyPerpsCallsIsUnrouted` | main.py:25-46 | among the subscribed chats, exactly -1001513104671 has no topic |
| `Config.UnsubscribedChatHasTopic` | main.py:38-46 | -1002337482415 has topic 6801 but is not subscribed, so that entry is never used |
| `Config.TopicIdsArePositive` | main.py:38-46 | every configured topic id is a positive (truthy) message id |
| `Wrappers.OrEmpty` | main.py:83 | `s or ""` is the text itself when truthy and "" for None or "" |
| `Decimal.IntToString` | main.py:71 | `str(i)`: nonempty, a leading '-' exactly for negative i, digits otherwise |
| `Decimal.ParseInt` | main.py:63 | `int(s)`: blank text raises; an accepted text is, once stripped, digits and underscores after an optional sign; a negative result needs a leading '-' |
| `Decimal.ParseIntOfIntToString` | main.py:63-71 | `int(str(i)) == i` for every integer, negative ones included |
| `Decimal.IntToStringInjective` | main.py:71 | distinct integer keys are written as distinct strings |
| `Decimal.TrimLeftSkipsPadding` | main.py:63 | stripping ignores any run of leading whitespace |
| `Decimal.TrimRightSkipsPadding` | main.py:63 | stripping ignores any run of trailing whitespace |
| `Decimal.ParseIntIgnoresPadding` | main.py:63 | for every integer i and any whitespace before and after, `int(pad + str(i) + pad') == i` |
| `Decimal.ParseIntAcceptsPlusSign` | main.py:63 | `int("+" + str(n)) == n` for every natural number n |
| `Decimal.ParseIntAcceptsSeparators` | main.py:63 | `int("-1_0")` is -10: a single underscore between digits is accepted |
| `Decimal.ParseIntOfUnsigned` | main.py:63 | unsigned text with a digit at each end is accepted iff its digits are well formed, with their value |
| `Decimal.ParseIntRejectsTrailingLetter` | main.py:63 | `int(str(n) + "a")` raises for every natural number n |
| `Decimal.ParseIntRejectsDoubledSeparator` | main.py:63 | `int(str(a) + "__" + str(b))` raises for all natural numbers a and b |
| `MapStore.IntOf` | main.py:63 | `int(v)` on a decoded value: booleans give 0/1, strings parse as `int(s)`; null, NaN or infinity, lists and objects raise |
| `MapStore.Put` | main.py:221 | dict assignment sets exactly that key; an existing key keeps its position, a new key goes last; the dict stays well formed |
| `MapStore.ObjectPut` | main.py:62 | setting a name in the object dict leaves that name with the new value |
| `MapStore.ObjectPutMembers` | main.py:62 | setting a name adds no member other than the new one |
| `MapStore.ObjectPutKeeps` | main.py:62 | setting a name keeps every member of other names |
| `MapStore.ObjectPutAbsent` | main.py:62 | setting a name not yet present appends it last |
| `MapStore.ObjectPutDistinct` | main.py:62 | setting a name keeps the names distinct |
| `MapStore.ObjectItems` | main.py:62 | the dict `json.load` builds from an object's members has distinct names and holds only members of the file |
| `MapStore.LastOfNameIsItem` | main.py:62 | the last member with a given name is an item of the decoded dict |
| `MapStore.ObjectItemsOfDistinct` | main.py:62 | members without repeated names decode to themselves |
| `MapStore.RepeatedNameKeepsLastValue` | main.py:62-63 | `{"1": "x", "1": 5}` loads as `{1: 5}`: the replaced value never reaches `int()` |
| `MapStore.LoadMembers` | main.py:63 | the comprehension's result, when it succeeds, is a well-formed dict |
| `MapStore.LoadMembersSnoc` | main.py:63 | a member list loads iff all but its last member load and the last member converts |
| `MapStore.LoadMembersSucceedsIff` | main.py:63 | the comprehension over the decoded dict's items succeeds iff every key and every value converts with `int()` |
| `MapStore.LoadMap` | main.py:58-66 | `load_map()` gives a well-formed dict, and the empty one for anything but a parsed JSON object |
| `MapStore.SaveMap` | main.py:69-71 | `save_map(d)` writes one member per entry, in dict order, keyed by `str(k)` with the integer value |
| `MapStore.LoadOfCorruptIsEmpty` | main.py:58-66 | a missing file, an unreadable one, or one that is not a JSON object loads as the empty map |
| `MapStore.LoadOfBadMemberIsEmpty` | main.py:60-65 | one bad key or value that no later member of the same name replaces discards the whole file: the map loads empty |
| `MapStore.LoadSavedMembers` | main.py:63-71 | loading the members written for a distinct key list gives those keys, in that order, with their values |
| `MapStore.SavedNamesAreDistinct` | main.py:71 | the names `save_map` writes for distinct keys are distinct |
| `MapStore.SaveLoadRoundTrip` | main.py:58-71 | `load_map` after `save_map(d)` gives back `d`: the same entries and key order |
| `MapStore.LoadAfterSave` | main.py:58-71 | after `save_map(d)` the next load gives d when the text is whole, the old contents when `open` raised, and the empty map when a write raised after truncation |
| `MapStore.MessageMap.Open` | main.py:74 | the store starts as `load_map()` of the file and is well formed |
| `MapStore.MessageMap.Get` | main.py:176 | `message_map.get(id)` is the mapped id when present and None otherwise |
| `MapStore.MessageMap.Record` | main.py:220-222 | on a truthy sent id: sets exactly `message_map[id] = sent_id` and rewrites the file with `save_map`, whose `open(MAP_FILE, "w")` truncates it first. A whole write reloads to the map; a raising `open` keeps the old file; a write that raises after truncation reloads as the empty map, with the entry kept in memory. Otherwise nothing changes |
| `Updates.FirstSentId` | main.py:87-93 | a returned id is the id of some qualifying update |
| `Updates.FirstSentIdIsEarliest` | main.py:87-93 | the result is None iff no update qualifies; otherwise it is the id of the earliest qualifying update, with the message id checked before `u.id` |
| `Updates.ExtractSentId` | main.py:144-148 | the loop with early return yields the first qualifying update's id, and None iff none qualifies |
| `Updates.OwnIdZeroIsReturned` | main.py:90-91 | an update whose own `id` is 0 ends the scan with the falsy id 0 |
| `Updates.MessageIdZeroIsSkipped` | main.py:88-91 | a message id of 0 does not end the scan: the update's own id, or else the later updates, decide |
| `Media.Basename` | main.py:126 | the result is the longest suffix of the path without '/', so it is empty or preceded by '/' |
| `Media.ScanForVideo` | main.py:113-118 | the loop with `break` finds a video attribute iff one exists |
| `Media.InputMediaFor` | main.py:120-134 | the descriptor uploads the staged path; it is a photo iff the media is a photo without a video attribute; otherwise a document of type application/octet-stream whose only attribute is the file name of the staged path |
| `Media.BuildInputMedia` | main.py:109-134 | uploaded photo iff the photo is present and the document has no video attribute; otherwise a document with mime type application/octet-stream and exactly one filename attribute, the basename of the staged path |
| `Media.VideoLosesItsAttributes` | main.py:124-134 | a video document is re-sent as a generic document with no video attribute |
| `Media.PhotoWithoutAttributeList` | main.py:114-121 | when the document has no attribute list the scan is skipped, and a photo stays a photo |
| `Media.BasenameOfStagedFile` | main.py:126 | the file name attribute of `tmp_media/photo.jpg` is `photo.jpg` |
| `Forwarder.SafeSendText` | main.py:80-93 | sends a SendMessageRequest with `text or ""` and the given anchor; the result is the first qualifying update's id, or a raise when the call raises or the response has no updates list |
| `Forwarder.SafeSendMedia` | main.py:99-150 | builds the media descriptor from the classification, sends it with `caption or ""`, and extracts the id the same way |
| `Forwarder.ReplyAnchor` | main.py:167-181 | the thread is always the topic; the anchor differs from the topic root only for a truthy reply id whose mapped id is truthy, and is then that mapped id |
| `Forwarder.DispatchOf` | main.py:162-213 | a request is built iff the chat has a topic and the message is text or its download gave a truthy path; it goes to the destination group with the reply anchor and `text or ""`, as text iff there is no media |
| `Forwarder.Commit` | main.py:219-222 | the outcome is Sent or Failed; Sent carries the request and the returned id; the map and file change only for a truthy returned id |
| `Forwarder.Forward` | main.py:157-226 | the whole step keeps the map well formed; the lemmas below state its behaviour |
| `Forwarder.Handle` | main.py:157-222 | the in-place handler's outcome, final map and file equal the specification `Forward` of the old map and file |
| `Forwarder.SkippedIffNoTopic` | main.py:162-165 | a message is skipped iff its chat has no topic; a skip changes neither the map nor the file |
| `Forwarder.PerpsCallsIsNeverForwarded` | main.py:162-165 | every message from the subscribed chat -1001513104671 is skipped with no effect |
| `Forwarder.SentRequestIsDispatched` | main.py:157-222 | a Sent outcome carries the request the handler built and the id its send returned; with no request built, nothing changes |
| `Forwarder.ReplyFollowsMapping` | main.py:174-181 | a reply to a message with a truthy mapped id m gets anchor (m, topic) in every request the handler builds, so also when the send or the save then fails |
| `Forwarder.OtherwiseReplyToTopicRoot` | main.py:167-181 | every other request the handler builds has anchor (topic, topic), whatever happens after the send |
| `Forwarder.DownloadFailureHasNoEffect` | main.py:199-203 | media whose download yields None or "" gives DownloadFailed, with the map and file unchanged |
| `Forwarder.TextIsSentAsMessage` | main.py:188-194 | a message without media is dispatched as text to the destination group with its anchor; the outcome carries the extracted id, or is Failed when a truthy id's file write raises |
| `Forwarder.MapChangesOnlyAtMessageId` | main.py:219-222 | the map becomes `old[msg.id := sent]` iff a send returned a truthy id, and is unchanged otherwise |
| `Forwarder.MapOnlyGrows` | main.py:219-221 | no key is removed and no entry other than `msg.id` changes |
| `Forwarder.RecordedForwardIsPersisted` | main.py:219-222 | after a recorded forward the file reloads to exactly the in-memory map |
| `Forwarder.FailureLeavesFile` | main.py:219-226 | an outcome other than Sent leaves the file as it was unless a write raised after `open` had truncated it |
| `Forwarder.FileChangesOnlyWhenRecording` | main.py:219-222 | the file changes only when a truthy id is recorded, and then holds what the write left |
| `Forwarder.FailedWriteLosesMap` | main.py:219-226 | when a recorded id's write raises after truncation, the outcome is Failed and the next start loads an empty map |
| `Forwarder.PhotoIsSentAsPhoto` | main.py:120-122 | a photo without a video attribute is dispatched as an uploaded photo of the staged file, whether the send then succeeds or fails |
| `Forwarder.RecordedTextStep` | main.py:167-222 | a text message from a routed chat whose send returns a truthy id, with a successful write, is sent with its anchor, recorded with `Put`, and the file is rewritten to the new map |
| `Forwarder.HelloIsForwarded` | main.py:157-222 | "hello" as message 100 in chat -1003058619673 goes to topic 1 at the root, and the map becomes {100: 555} |
| `Forwarder.ReplyToHelloIsAnchored` | main.py:157-222 | with the map {100: 555}, a reply to 100 in the same chat is anchored to (555, 1), and the map becomes {100: 555, 101: 556} |
| `Forwarder.ReplyChainScenario` | main.py:157-222 | "hello" in chat -1003058619673 goes to topic 1 at the root and is recorded as 100 -> 555; a reply to 100 is anchored to (555, 1) |
| `Forwarder.SevenFromFirstChat` | main.py:157-222 | message 7 from chat -1003058619673 with sent id 555 makes the map {7: 555} |
| `Forwarder.SevenFromSecondChat` | main.py:157-222 | message 7 from chat -1001263412188 with sent id 777 turns {7: 555} into {7: 777} |
| `Forwarder.SameIdFromAnotherChatOverwrites` | main.py:176-221 | the same message id from a second chat overwrites the entry, so a reply in the first chat is anchored to the second chat's copy |

## Left out

- The chat client: connection, session, authentication, and the contents of `SendMessageRequest`, `SendMediaRequest`, `upload_file` and `download_media`. They are network calls, so only their results are inputs. The uploaded file handle is represented by the staged path it was uploaded from.
- SafeSendMedia: the upload and the send are one input. When either raises, the request the model returns is the one the sender would have sent; it may never have gone out.
- Async/await and the event subscription. The handler is modelled for any chat id. The subscription filter appears only in the `Config` lemmas.
- File system effects: creating the scratch directory and checking for the file. How far a raising write got is only "whole" or "not whole": a truncated or partial text is not modelled, only that it does not parse. Deleting the staged media (main.py:216-217) is assumed to succeed; if `os.remove` raised, the real handler would skip recording the id. The JSON text format is not modelled either: a file is missing, unparsable, or a decoded JSON value.
- Console output and the traceback print. A caught exception is only the `Failed` outcome.
- The environment-variable configuration and the credentials (main.py:21-23), which no decision depends on.
- Decimal.ParseInt: Python's `int()` also accepts non-ASCII decimal digits and non-ASCII whitespace. The model treats such keys as corrupt.
- Decimal.ParseIntOfIntToString: CPython 3.11 and later refuse `str()` and `int()` beyond 4300 digits by default (a ValueError). The model has no such limit; no message id comes near it.
- MapStore.IntOf: a JSON float is represented by the integer `int()` truncates it to. Float parsing is not modelled.
- Media.Basename: models the POSIX `os.path.basename` ('/' only). The Windows variant also splits on '\\' and drive letters.
