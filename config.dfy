/** The compiled-in routing constants of the forwarder. */
module Config {
  import opened Wrappers

  /** The chats whose new messages the handler is subscribed to. */
  const SourceGroups: seq<int> := [
    -1003058619673,
    -1001556054753,
    -1002006131201,
    -1001685592361,
    -1002229136312,
    -1001513104671,
    -1001263412188
  ]

  /** The single group every forwarded message lands in. */
  const DestinationGroup: int := -1002436012210

  /** Source chat id to the root message id of its topic in the destination group. */
  const TopicMap: map<int, int> := map[
    -1003058619673 := 1,
    -1001263412188 := 7049,
    -1002229136312 := 6804,
    -1002006131201 := 6802,
    -1001556054753 := 6803,
    -1001685592361 := 6803,
    -1002337482415 := 6801
  ]

  /** The source chat whose topic is missing from the table. */
  const PerpsCalls: int := -1001513104671

  /** The chat that has a topic but is not subscribed to. */
  const UnsubscribedChat: int := -1002337482415

  /** `TOPIC_MAP.get(chat)`. */
  function TopicFor(chat: int): (r: Option<int>)
    ensures r.Some? <==> chat in TopicMap
    ensures r.Some? ==> r.value == TopicMap[chat] && r.value > 0
  {
    if chat in TopicMap then Some(TopicMap[chat]) else None
  }

  /** Exactly one subscribed chat has no topic, so its messages are never forwarded. */
  lemma OnlyPerpsCallsIsUnrouted()
    ensures forall chat :: chat in SourceGroups ==> (TopicFor(chat).None? <==> chat == PerpsCalls)
  {
  }

  /** The one topic entry for a chat outside the subscription is dead configuration. */
  lemma UnsubscribedChatHasTopic()
    ensures UnsubscribedChat !in SourceGroups && TopicFor(UnsubscribedChat) == Some(6801)
  {
  }

  /** Every configured topic id is a truthy message id, so a topic root is a usable reply anchor. */
  lemma TopicIdsArePositive()
    ensures forall chat :: chat in TopicMap ==> TopicMap[chat] > 0
  {
  }
}
