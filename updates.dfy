/**
 * Reading the new message's id out of the update list a send request
 * answers with: the first update that exposes an id wins.
 */
module Updates {
  import opened Wrappers

  /**
   * One update of the response. `messageId` is `u.message.id` when the
   * update carries a message object with an id; `ownId` is `u.id` when the
   * update has an `id` field at all.
   */
  datatype Update = Update(messageId: Option<int>, ownId: Option<int>)

  /** An update ends the scan when its message id is truthy or it has its own `id`. */
  predicate Qualifies(u: Update) {
    Truthy(u.messageId) || u.ownId.Some?
  }

  /** The id a qualifying update yields: the message id first, then `u.id`. */
  function IdOf(u: Update): int
    requires Qualifies(u)
  {
    if Truthy(u.messageId) then u.messageId.value else u.ownId.value
  }

  /** The id of the first qualifying update, or None when no update qualifies. */
  function FirstSentId(us: seq<Update>): (r: Option<int>)
    ensures r.Some? ==> exists u :: u in us && Qualifies(u) && r.value == IdOf(u)
    decreases |us|
  {
    if us == [] then None
    else if Qualifies(us[0]) then Some(IdOf(us[0]))
    else FirstSentId(us[1..])
  }

  /** FirstSentId finds the earliest qualifying update, and nothing when none qualifies. */
  lemma {:induction false} FirstSentIdIsEarliest(us: seq<Update>)
    ensures FirstSentId(us).None? <==> forall i :: 0 <= i < |us| ==> !Qualifies(us[i])
    ensures FirstSentId(us).Some? ==>
      exists i :: 0 <= i < |us| && Qualifies(us[i]) && FirstSentId(us).value == IdOf(us[i]) &&
        forall j :: 0 <= j < i ==> !Qualifies(us[j])
    decreases |us|
  {
    if us != [] && !Qualifies(us[0]) {
      var rest := us[1..];
      FirstSentIdIsEarliest(rest);
      assert forall i :: 0 <= i < |rest| ==> rest[i] == us[i + 1];
      if FirstSentId(rest).Some? {
        var i :| 0 <= i < |rest| && Qualifies(rest[i]) && FirstSentId(rest).value == IdOf(rest[i]) &&
          forall j :: 0 <= j < i ==> !Qualifies(rest[j]);
        assert Qualifies(us[i + 1]);
        assert forall j :: 0 <= j < i + 1 ==> !Qualifies(us[j]) by {
          forall j | 0 <= j < i + 1 ensures !Qualifies(us[j]) {
            if j > 0 { assert us[j] == rest[j - 1]; }
          }
        }
      } else {
        forall i | 0 <= i < |us| ensures !Qualifies(us[i]) {
          if i > 0 { assert us[i] == rest[i - 1]; }
        }
      }
    }
  }

  /**
   * The loop over `resp.updates` with early return shared by both senders:
   * it returns the first qualifying update's id, or None.
   */
  method ExtractSentId(updates: seq<Update>) returns (r: Option<int>)
    ensures r == FirstSentId(updates)
    ensures r.None? <==> forall i :: 0 <= i < |updates| ==> !Qualifies(updates[i])
  {
    FirstSentIdIsEarliest(updates);
    for i := 0 to |updates|
      invariant forall j :: 0 <= j < i ==> !Qualifies(updates[j])
      invariant FirstSentId(updates) == FirstSentId(updates[i..])
    {
      var u := updates[i];
      assert updates[i..][1..] == updates[i + 1..];
      if Truthy(u.messageId) {
        return u.messageId;
      }
      if u.ownId.Some? {
        return u.ownId;
      }
    }
    return None;
  }

  /** `u.id` is returned as it is: an update whose own id is 0 yields the falsy id 0. */
  lemma OwnIdZeroIsReturned(us: seq<Update>)
    requires |us| > 0 && us[0] == Update(None, Some(0))
    ensures FirstSentId(us) == Some(0) && !Truthy(FirstSentId(us))
  {
  }

  /** A message id of 0 does not end the scan: the update's own id, or a later update, is used. */
  lemma MessageIdZeroIsSkipped(id: int, more: seq<Update>)
    ensures FirstSentId([Update(Some(0), Some(id))] + more) == Some(id)
    ensures FirstSentId([Update(Some(0), None)] + more) == FirstSentId(more)
  {
    assert ([Update(Some(0), None)] + more)[1..] == more;
  }
}
