/** The maintenance script cleanup_conversations.js: it counts the stored
    conversations without an owner, stops when there are none, and otherwise
    deletes the messages of those conversations, then the conversations
    themselves, and counts again. A failing database call throws and ends the
    script with the effects of the calls before it in place. */
module Cleanup {
  import opened Wrappers
  import opened Seqs
  import opened ObjectIds
  import opened Models
  import opened Store
  import ChatController
  import Webhook

  /** `{userId: {$exists: false}}`: the owner field is left out of the stored
      document, which happens exactly for an empty owner. */
  predicate LacksUserId(c: Conversation) {
    c.userId == ""
  }

  /** The query matches exactly the conversations whose stored document has
      no `userId` field. */
  lemma LacksUserIdDocument(c: Conversation)
    ensures LacksUserId(c) <==> "userId" !in ConversationDocument(c)
  {
  }

  /** The conversations the query matches, in natural order. */
  function Anonymous(cs: seq<Conversation>): (r: seq<Conversation>)
    ensures forall i :: 0 <= i < |r| ==> LacksUserId(r[i])
    ensures multiset(r) <= multiset(cs)
  {
    Filter(cs, LacksUserId)
  }

  /** `countDocuments({userId: {$exists: false}})`. */
  function CountAnonymous(cs: seq<Conversation>): nat {
    |Anonymous(cs)|
  }

  /** The ids the script collects before deleting anything. */
  function CollectedIds(cs: seq<Conversation>): (ids: set<ObjectId>)
    ensures forall i :: 0 <= i < |cs| && LacksUserId(cs[i]) ==> cs[i].id in ids
  {
    set i | 0 <= i < |cs| && LacksUserId(cs[i]) :: cs[i].id
  }

  /** `deleteMany({conversationId: {$in: ids}})` on messages. */
  function SweepMessages(ms: seq<Message>, ids: set<ObjectId>): (r: seq<Message>)
    ensures forall i :: 0 <= i < |r| ==> r[i].conversationId !in ids
    ensures multiset(r) <= multiset(ms)
  {
    Filter(ms, (m: Message) => m.conversationId !in ids)
  }

  /** `deleteMany({userId: {$exists: false}})` on conversations. */
  function SweepConversations(cs: seq<Conversation>): (r: seq<Conversation>)
    ensures forall i :: 0 <= i < |r| ==> !LacksUserId(r[i])
    ensures multiset(r) <= multiset(cs)
  {
    Filter(cs, (c: Conversation) => !LacksUserId(c))
  }

  /** How a run ends: nothing to do, done with the summary it prints, or
      stopped by a database call that throws. */
  datatype Outcome =
    | AlreadyClean
    | Cleaned(found: nat, messagesDeleted: nat, conversationsDeleted: nat, remaining: nat)
    | Aborted(at: Step)

  datatype Run = Run(outcome: Outcome, store: Store)

  /** The script's database calls in program order, numbered from 1; every
      other step is 0. */
  function Order(s: Step): nat {
    match s
    case ConvCount => 1
    case ConvSample => 2
    case ConvCollect => 3
    case MessagesDelete => 4
    case ConvDelete => 5
    case ConvRecount => 6
    case _ => 0
  }

  /** The script's database calls. */
  const ScriptSteps: set<Step> := {ConvCount, ConvSample, ConvCollect, MessagesDelete, ConvDelete, ConvRecount}

  /** The calls that change nothing when they throw: the reads, and the
      first delete itself. */
  const HarmlessSteps: set<Step> := {ConvCount, ConvSample, ConvCollect, MessagesDelete}

  /** The deletes and the final count, once the ids are collected. */
  function Sweep(st: Store, faults: Faults): (r: Run)
    ensures r.store.users == st.users
    ensures MessagesDelete in faults ==> r == Run(Aborted(MessagesDelete), st)
    ensures MessagesDelete !in faults ==>
      r.store.messages == SweepMessages(st.messages, CollectedIds(st.conversations))
    ensures MessagesDelete !in faults && ConvDelete in faults ==>
      r.outcome == Aborted(ConvDelete) && r.store.conversations == st.conversations
    ensures MessagesDelete !in faults && ConvDelete !in faults ==>
      r.store.conversations == SweepConversations(st.conversations)
    ensures MessagesDelete !in faults && ConvDelete !in faults && ConvRecount in faults ==>
      r.outcome == Aborted(ConvRecount)
    ensures MessagesDelete !in faults && ConvDelete !in faults && ConvRecount !in faults ==>
      && r.outcome.Cleaned?
      && r.outcome.found == CountAnonymous(st.conversations)
      && r.outcome.messagesDeleted == |st.messages| - |r.store.messages|
      && r.outcome.conversationsDeleted == r.outcome.found
      && r.outcome.remaining == 0
  {
    if MessagesDelete in faults then Run(Aborted(MessagesDelete), st)
    else
      var ms := SweepMessages(st.messages, CollectedIds(st.conversations));
      if ConvDelete in faults then Run(Aborted(ConvDelete), st.(messages := ms))
      else
        var cs := SweepConversations(st.conversations);
        var st' := st.(conversations := cs, messages := ms);
        if ConvRecount in faults then Run(Aborted(ConvRecount), st')
        else
          SweepCounts(st.conversations);
          Run(Cleaned(CountAnonymous(st.conversations), |st.messages| - |ms|, |st.conversations| - |cs|, CountAnonymous(cs)), st')
  }

  /** One run of the script. A fault at one of its steps makes that call
      throw, which ends the script with the calls before it in effect. */
  function RunCleanup(st: Store, faults: Faults): (r: Run)
    ensures r.store.users == st.users
    ensures r.outcome.AlreadyClean? <==> ConvCount !in faults && CountAnonymous(st.conversations) == 0
    ensures ConvCount in faults ==> r.outcome == Aborted(ConvCount)
    ensures r.outcome.AlreadyClean? ==> r.store == st
    // With none of its calls failing, a run that finds anything completes.
    ensures && ConvCount !in faults && ConvSample !in faults && ConvCollect !in faults
            && MessagesDelete !in faults && ConvDelete !in faults && ConvRecount !in faults
            && CountAnonymous(st.conversations) > 0
            ==> r.outcome.Cleaned?
    ensures r.outcome.Cleaned? || r.outcome == Aborted(ConvDelete) || r.outcome == Aborted(ConvRecount) ==>
      && (forall i :: 0 <= i < |r.store.messages| ==> r.store.messages[i].conversationId !in CollectedIds(st.conversations))
      && multiset(r.store.messages) <= multiset(st.messages)
    ensures r.outcome == Aborted(ConvDelete) ==> r.store.conversations == st.conversations
    ensures r.outcome.Cleaned? || r.outcome == Aborted(ConvRecount) ==>
      && (forall i :: 0 <= i < |r.store.conversations| ==> !LacksUserId(r.store.conversations[i]))
      && multiset(r.store.conversations) <= multiset(st.conversations)
    ensures r.outcome.Cleaned? ==>
      && r.outcome.found == CountAnonymous(st.conversations)
      && r.outcome.messagesDeleted == |st.messages| - |r.store.messages|
      && r.outcome.conversationsDeleted == r.outcome.found
      && r.outcome.remaining == 0
  {
    if ConvCount in faults then Run(Aborted(ConvCount), st)
    else if CountAnonymous(st.conversations) == 0 then Run(AlreadyClean, st)
    else if ConvSample in faults then Run(Aborted(ConvSample), st)
    else if ConvCollect in faults then Run(Aborted(ConvCollect), st)
    else Sweep(st, faults)
  }

  /** A run ends early only at one of its own calls that was made to fail,
      and one that ends at a read or at the first delete leaves the store as
      it was. */
  lemma CleanupAbortsOnFault(st: Store, faults: Faults)
    ensures var r := RunCleanup(st, faults);
      && (r.outcome.Aborted? ==> r.outcome.at in faults && r.outcome.at in ScriptSteps)
      && (r.outcome.Aborted? && r.outcome.at in HarmlessSteps ==> r.store == st)
  {
    if ConvCount !in faults && CountAnonymous(st.conversations) > 0 && ConvSample !in faults && ConvCollect !in faults {
      var w := Sweep(st, faults);
      assert RunCleanup(st, faults) == w;
    }
  }

  /** A run stops at the first of its calls that fails: no call before the
      one it stopped at was made to fail. */
  lemma CleanupStopsAtFirstFault(st: Store, faults: Faults, s: Step)
    requires RunCleanup(st, faults).outcome.Aborted?
    requires s in faults && Order(s) > 0
    ensures Order(RunCleanup(st, faults).outcome.at) <= Order(s)
  {
  }

  /** Sweeping deletes as many conversations as were counted, and leaves none to count. */
  lemma SweepCounts(cs: seq<Conversation>)
    ensures |cs| - |SweepConversations(cs)| == CountAnonymous(cs)
    ensures CountAnonymous(SweepConversations(cs)) == 0
  {
    FilterPartitionLength(cs, LacksUserId, (c: Conversation) => !LacksUserId(c));
    FilterNone(SweepConversations(cs), LacksUserId);
  }

  /** A completed run deletes exactly the messages of the collected
      conversations and exactly the conversations without an owner: what it
      keeps and what it deletes make up the store it started from. */
  lemma CleanupDeletesExactly(st: Store, faults: Faults)
    ensures var r := RunCleanup(st, faults);
      var ids := CollectedIds(st.conversations);
      r.outcome.Cleaned? ==>
        && multiset(r.store.messages) + multiset(Filter(st.messages, (m: Message) => m.conversationId in ids))
             == multiset(st.messages)
        && multiset(r.store.conversations) + multiset(Anonymous(st.conversations)) == multiset(st.conversations)
  {
    var r := RunCleanup(st, faults);
    if r.outcome.Cleaned? {
      var ids := CollectedIds(st.conversations);
      assert r.store.messages == SweepMessages(st.messages, ids);
      assert r.store.conversations == SweepConversations(st.conversations);
      FilterPartition(st.messages, (m: Message) => m.conversationId !in ids, (m: Message) => m.conversationId in ids);
      FilterPartition(st.conversations, (c: Conversation) => !LacksUserId(c), LacksUserId);
    }
  }

  /** Conversations with an owner survive every run, however it ends. */
  lemma CleanupKeepsOwnedConversations(st: Store, faults: Faults, i: nat)
    requires i < |st.conversations| && !LacksUserId(st.conversations[i])
    ensures st.conversations[i] in multiset(RunCleanup(st, faults).store.conversations)
  {
    var r := RunCleanup(st, faults);
    if && ConvCount !in faults && CountAnonymous(st.conversations) > 0 && ConvSample !in faults
       && ConvCollect !in faults && MessagesDelete !in faults && ConvDelete !in faults
    {
      assert r == Sweep(st, faults);
      FilterKeeps(st.conversations, (c: Conversation) => !LacksUserId(c), i);
    } else {
      CleanupAbortsOnFault(st, faults);
      assert r.store.conversations == st.conversations;
    }
  }

  /** A message survives every run, however it ends, unless its conversation
      was collected. */
  lemma CleanupKeepsOtherMessages(st: Store, faults: Faults, i: nat)
    requires i < |st.messages| && st.messages[i].conversationId !in CollectedIds(st.conversations)
    ensures st.messages[i] in multiset(RunCleanup(st, faults).store.messages)
  {
    var r := RunCleanup(st, faults);
    if && ConvCount !in faults && CountAnonymous(st.conversations) > 0 && ConvSample !in faults
       && ConvCollect !in faults && MessagesDelete !in faults
    {
      assert r == Sweep(st, faults);
      var ids := CollectedIds(st.conversations);
      FilterKeeps(st.messages, (m: Message) => m.conversationId !in ids, i);
    } else {
      CleanupAbortsOnFault(st, faults);
      assert r.store.messages == st.messages;
    }
  }

  /** In a store with unique conversation ids, the messages of a conversation
      with an owner are never collected. */
  lemma OwnedNotCollected(cs: seq<Conversation>, k: nat)
    requires UniqueConversationIds(cs)
    requires k < |cs| && !LacksUserId(cs[k])
    ensures cs[k].id !in CollectedIds(cs)
  {
  }

  /** The messages go first, so whichever delete fails, no stored message is
      left pointing at a deleted conversation: a run keeps every store
      invariant. */
  lemma CleanupKeepsValid(st: Store, faults: Faults)
    requires Valid(st)
    ensures Valid(RunCleanup(st, faults).store)
  {
    var r := RunCleanup(st, faults);
    var cs, ms := st.conversations, st.messages;
    if r.store != st {
      var ids := CollectedIds(cs);
      var w := Sweep(st, faults);
      assert r == w;
      assert w.store.messages == SweepMessages(ms, ids);
      FilterKeepsUniqueMessageIds(ms, (m: Message) => m.conversationId !in ids);
      if w.outcome == Aborted(ConvDelete) {
        SubsetKeepsAttached(cs, ms, w.store.messages);
      } else {
        assert w.store.conversations == SweepConversations(cs);
        SweepKeepsUniqueConversations(cs);
        SweepKeepsAttached(cs, ms);
      }
    }
  }

  lemma SweepKeepsUniqueConversations(cs: seq<Conversation>)
    requires UniqueConversationIds(cs)
    ensures UniqueConversationIds(SweepConversations(cs))
  {
    var key := (c: Conversation) => c.id;
    var keep := (c: Conversation) => !LacksUserId(c);
    var kept := SweepConversations(cs);
    assert kept == Filter(cs, keep);
    FilterKeepsUniqueKeys(cs, keep, key);
    forall i, j | 0 <= i < j < |kept|
      ensures kept[i].id != kept[j].id
    {
      assert key(kept[i]) != key(kept[j]);
    }
  }

  /** Messages that survive the sweep still find their conversation among
      the conversations that survive it. */
  lemma SweepKeepsAttached(cs: seq<Conversation>, ms: seq<Message>)
    requires forall i :: 0 <= i < |ms| ==> HasConversation(cs, ms[i].conversationId)
    ensures var ms' := SweepMessages(ms, CollectedIds(cs));
      forall i :: 0 <= i < |ms'| ==> HasConversation(SweepConversations(cs), ms'[i].conversationId)
  {
    var ms' := SweepMessages(ms, CollectedIds(cs));
    forall i | 0 <= i < |ms'|
      ensures HasConversation(SweepConversations(cs), ms'[i].conversationId)
    {
      assert ms'[i] in multiset(ms);
      var j :| 0 <= j < |ms| && ms[j] == ms'[i];
      SweepKeepsConversationOf(cs, ms'[i].conversationId);
    }
  }

  /** The conversation a surviving message points at survives too. */
  lemma SweepKeepsConversationOf(cs: seq<Conversation>, id: ObjectId)
    requires HasConversation(cs, id) && id !in CollectedIds(cs)
    ensures HasConversation(SweepConversations(cs), id)
  {
    var keep := (c: Conversation) => !LacksUserId(c);
    var kept := SweepConversations(cs);
    assert kept == Filter(cs, keep);
    var k := ConversationIndex(cs, id).value;
    FilterKeeps(cs, keep, k);
    var l :| 0 <= l < |kept| && kept[l] == cs[k];
  }

  /** A second run after the deletes finds nothing to do, and changes
      nothing even when its count fails. */
  lemma CleanupIdempotent(st: Store, faults: Faults, faults': Faults)
    requires RunCleanup(st, faults).outcome.Cleaned? || RunCleanup(st, faults).outcome == Aborted(ConvRecount)
    ensures var st' := RunCleanup(st, faults).store;
      && RunCleanup(st', faults').store == st'
      && (ConvCount !in faults' ==> RunCleanup(st', faults').outcome.AlreadyClean?)
  {
    var cs := RunCleanup(st, faults).store.conversations;
    FilterNone(cs, LacksUserId);
  }

  /** A conversation stored without an owner is gone after a completed run,
      and so are all of its messages. */
  lemma AnonymousSwept(st: Store, faults: Faults, c: Conversation)
    requires UniqueConversationIds(st.conversations)
    requires c.userId == ""
    requires exists i :: 0 <= i < |st.conversations| && st.conversations[i] == c
    requires RunCleanup(st, faults).outcome.Cleaned?
    ensures var r := RunCleanup(st, faults);
      !HasConversation(r.store.conversations, c.id) && MessagesOf(r.store.messages, c.id) == []
  {
    var r := RunCleanup(st, faults);
    var ids := CollectedIds(st.conversations);
    var k :| 0 <= k < |st.conversations| && st.conversations[k] == c;
    assert c.id in ids;
    assert r.store.messages == SweepMessages(st.messages, ids);
    assert r.store.conversations == SweepConversations(st.conversations);
    SweepDropsConversation(st.conversations, k);
    SweepDropsMessages(st.messages, ids, c.id);
  }

  /** No conversation left by the sweep shares its id with one swept away. */
  lemma SweepDropsConversation(cs: seq<Conversation>, k: nat)
    requires UniqueConversationIds(cs)
    requires k < |cs| && LacksUserId(cs[k])
    ensures !HasConversation(SweepConversations(cs), cs[k].id)
  {
    var kept := SweepConversations(cs);
    forall i | 0 <= i < |kept|
      ensures kept[i].id != cs[k].id
    {
      assert kept[i] in multiset(cs);
      var j :| 0 <= j < |cs| && cs[j] == kept[i];
    }
  }

  /** No message left by the sweep belongs to a collected conversation. */
  lemma SweepDropsMessages(ms: seq<Message>, ids: set<ObjectId>, id: ObjectId)
    requires id in ids
    ensures MessagesOf(SweepMessages(ms, ids), id) == []
  {
    FilterNone(SweepMessages(ms, ids), (m: Message) => m.conversationId == id);
  }

  /** Every conversation a chat turn opens is anonymous (the chat handler
      creates it with an empty owner), so the next run of the script deletes
      it together with the whole exchange stored in it. */
  lemma ChatConversationsAreSwept(st: Store, req: ChatController.ChatRequest, ids: ChatController.TurnIds,
                                  clock: ChatController.TurnClock, faults: Faults,
                                  bridge: Webhook.WebhookRequest -> Webhook.HttpOutcome,
                                  readHistory: ChatController.HistoryReader)
    requires Valid(st)
    requires req.conversationId == ""
    requires ChatController.SendMessage(st, Some(req), ids, clock, faults, bridge, readHistory).response.Success?
    ensures var st' := ChatController.SendMessage(st, Some(req), ids, clock, faults, bridge, readHistory).store;
      var r := RunCleanup(st', {});
      && r.outcome.Cleaned?
      && !HasConversation(r.store.conversations, ids.conversation)
      && MessagesOf(r.store.messages, ids.conversation) == []
  {
    var st' := ChatController.SendMessage(st, Some(req), ids, clock, faults, bridge, readHistory).store;
    ChatController.SendMessageConversation(st, Some(req), ids, clock, faults, bridge, readHistory);
    ChatController.SendMessageKeepsValid(st, Some(req), ids, clock, faults, bridge, readHistory);
    var c := NewConversation("", ids.conversation, clock.created);
    var k := |st.conversations|;
    assert st'.conversations[k] == c;
    FilterKeeps(st'.conversations, LacksUserId, k);
    assert CountAnonymous(st'.conversations) > 0;
    AnonymousSwept(st', {}, c);
  }
}
