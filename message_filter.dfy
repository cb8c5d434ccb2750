/**
 * The group filter applied by `find_messages` to the messages the gateway
 * returns for a group id (main.py). The gateway's match on the key's
 * remote id is coarse, so the client keeps only the messages whose
 * sender-key-distribution payload names the requested group.
 */
module MessageFilter {
  import opened EvolutionTypes
  import opened Sequences

  /** A message names group `g` in its sender-key payload. This reads only
      the payload, not whether the content block is empty. */
  predicate CarriesGroupId(m: Message, g: string) {
    m.message.Some? && m.message.value.senderKeyDistributionMessage.Some? &&
    m.message.value.senderKeyDistributionMessage.value.groupId == g
  }

  /** The tests of the loop body, in the order the source makes them: a
      non-empty content block, a non-empty sender-key payload, and a group id
      equal to the requested one (exact, case-sensitive). The emptiness test
      never decides: a block that holds a sender-key payload is not empty. */
  predicate KeepsMessage(m: Message, remoteJid: string)
    ensures KeepsMessage(m, remoteJid) <==> CarriesGroupId(m, remoteJid)
  {
    match m.message
    case None => false
    case Some(content) =>
      !content.IsEmpty() &&
      match content.senderKeyDistributionMessage
      case None => false
      case Some(sender) => sender.groupId == remoteJid
  }

  /** The selection `find_messages` returns, as a function of the fetched
      list: no longer than it, and holding only fetched messages whose
      sender-key payload names the requested group. */
  function FilterByGroup(data: seq<Message>, remoteJid: string): (r: seq<Message>)
    ensures |r| <= |data|
    ensures forall m :: m in r ==> m in data && CarriesGroupId(m, remoteJid)
  {
    Filter(m => KeepsMessage(m, remoteJid), data)
  }

  /** The loop of `find_messages`: skip messages without content, skip those
      without a sender-key payload, append those whose group id matches. */
  method FindMessages(data: seq<Message>, remoteJid: string) returns (messages: seq<Message>)
    ensures messages == FilterByGroup(data, remoteJid)
  {
    messages := [];
    for i := 0 to |data|
      invariant messages == FilterByGroup(data[..i], remoteJid)
    {
      var message := data[i];
      assert data[..i + 1] == data[..i] + [message];
      FilterSnoc(m => KeepsMessage(m, remoteJid), data[..i], message);
      var messageContent := message.message;
      if messageContent.None? || messageContent.value.IsEmpty() {
        continue;
      }
      var sender := messageContent.value.senderKeyDistributionMessage;
      if sender.None? {
        continue;
      }
      if sender.value.groupId == remoteJid {
        messages := messages + [message];
      }
    }
    assert data[..|data|] == data;
  }

  /** Soundness and completeness: a message is returned exactly when it is
      one of the fetched messages and its sender-key payload names the
      requested group. */
  lemma FilterByGroupSelects(data: seq<Message>, remoteJid: string, m: Message)
    ensures m in FilterByGroup(data, remoteJid) <==> m in data && CarriesGroupId(m, remoteJid)
  {
    if m in data && CarriesGroupId(m, remoteJid) {
      FilterComplete(m => KeepsMessage(m, remoteJid), data, m);
    }
  }

  /** The emptiness test can be dropped without changing the result: the
      list is the same as selecting on the sender-key payload alone, with
      repeated messages and their order included. */
  lemma FilterByGroupIgnoresEmptiness(data: seq<Message>, remoteJid: string)
    ensures FilterByGroup(data, remoteJid) == Filter(m => CarriesGroupId(m, remoteJid), data)
  {
    FilterSameTest(m => KeepsMessage(m, remoteJid), m => CarriesGroupId(m, remoteJid), data);
  }

  /** What comes back is the fetched list with messages deleted, in the
      original order, and no longer than it. */
  lemma FilterByGroupPreservesOrder(data: seq<Message>, remoteJid: string)
    ensures IsSubsequence(FilterByGroup(data, remoteJid), data)
    ensures |FilterByGroup(data, remoteJid)| <= |data|
  {
    FilterIsSubsequence(m => KeepsMessage(m, remoteJid), data);
  }

  /** A message with no or an empty content block, or with no sender-key
      payload, is never returned, whatever group is asked for. */
  lemma FilterByGroupDropsUnmarked(data: seq<Message>, remoteJid: string, m: Message)
    requires m.message.None? || m.message.value.IsEmpty() ||
             m.message.value.senderKeyDistributionMessage.None?
    ensures m !in FilterByGroup(data, remoteJid)
  {
  }

  /** Filtering an already filtered list for the same group changes nothing. */
  lemma FilterByGroupIdempotent(data: seq<Message>, remoteJid: string)
    ensures FilterByGroup(FilterByGroup(data, remoteJid), remoteJid) == FilterByGroup(data, remoteJid)
  {
    FilterIdempotent(m => KeepsMessage(m, remoteJid), data);
  }
}
