/** `getConversationHistory` (controllers/chat_controller.go): a conversation's
    messages sorted newest first, cut to `limit` when it is positive, then
    reversed in place so the window reads oldest first. */
module History {
  import opened Wrappers
  import opened Seqs
  import opened ObjectIds
  import opened Models
  import opened Store

  /** Sort key of the history query. */
  function CreatedAt(m: Message): int {
    m.createdAt
  }

  /** How many messages a query with `limit` returns out of `n`: at most
      `limit` when it is positive, all of them when it is zero or negative. */
  function WindowSize(n: nat, limit: int): (k: nat)
    ensures k <= n
    ensures limit > 0 ==> k == if limit < n then limit else n
    ensures limit <= 0 ==> k == n
  {
    if limit > 0 && limit < n then limit else n
  }

  /** The store query: messages of `cid`, `sort({createdAt: -1})`, `limit(limit)` when positive. */
  function NewestFirst(ms: seq<Message>, cid: ObjectId, limit: int): (r: seq<Message>)
    ensures |r| == WindowSize(|MessagesOf(ms, cid)|, limit)
    ensures SortedDesc(r, CreatedAt)
    ensures multiset(r) <= multiset(MessagesOf(ms, cid))
  {
    var f := MessagesOf(ms, cid);
    var k := WindowSize(|f|, limit);
    SortedTake(f, CreatedAt, k);
    SortDesc(f, CreatedAt)[..k]
  }

  /** The history window: the `min(limit, n)` most recent messages of the
      conversation (all `n` when `limit` is not positive), oldest first. */
  function Window(ms: seq<Message>, cid: ObjectId, limit: int): (w: seq<Message>)
    ensures |w| == WindowSize(|MessagesOf(ms, cid)|, limit)
    ensures multiset(w) <= multiset(MessagesOf(ms, cid))
  {
    var f := MessagesOf(ms, cid);
    NewestWindow(f, CreatedAt, WindowSize(|f|, limit))
  }

  /** The window holds only messages of the conversation asked for. */
  lemma WindowOnlyConversation(ms: seq<Message>, cid: ObjectId, limit: int)
    ensures var w := Window(ms, cid, limit);
      forall i :: 0 <= i < |w| ==> w[i].conversationId == cid
  {
    var f := MessagesOf(ms, cid);
    var w := Window(ms, cid, limit);
    forall i | 0 <= i < |w|
      ensures w[i].conversationId == cid
    {
      assert w[i] in multiset(f);
      assert w[i] in f;
    }
  }

  /** The window reads oldest first. */
  lemma WindowChronological(ms: seq<Message>, cid: ObjectId, limit: int)
    ensures SortedAsc(Window(ms, cid, limit), CreatedAt)
  {
    var f := MessagesOf(ms, cid);
    NewestWindowAscending(f, CreatedAt, WindowSize(|f|, limit));
  }

  /** Without a positive limit the window holds every message of the conversation. */
  lemma WindowUnboundedComplete(ms: seq<Message>, cid: ObjectId, limit: int)
    requires limit <= 0
    ensures multiset(Window(ms, cid, limit)) == multiset(MessagesOf(ms, cid))
  {
    var f := MessagesOf(ms, cid);
    var w := Window(ms, cid, limit);
    assert |w| == |f|;
    assert multiset(w) <= multiset(f) && |multiset(w)| == |multiset(f)|;
    MultisetSubEq(multiset(w), multiset(f));
  }

  /** No message left out of the window is newer than one kept in it. */
  lemma WindowKeepsNewest(ms: seq<Message>, cid: ObjectId, limit: int)
    ensures var w := Window(ms, cid, limit);
      Dominates(w, multiset(MessagesOf(ms, cid)) - multiset(w), CreatedAt)
  {
    var f := MessagesOf(ms, cid);
    SortedTakeReversed(f, CreatedAt, WindowSize(|f|, limit));
  }

  /** A sub-multiset as large as the whole is the whole. */
  lemma MultisetSubEq(a: multiset<Message>, b: multiset<Message>)
    requires a <= b && |a| == |b|
    ensures a == b
  {
    var d := b - a;
    assert b == a + d;
  }

  /** In-place reversal of an array, exactly as the two-index swap loop of Go's `getConversationHistory` does it. */
  method ReverseInPlace<T>(s: seq<T>) returns (r: seq<T>)
    ensures |r| == |s|
    ensures forall i :: 0 <= i < |s| ==> r[i] == s[|s| - 1 - i]
  {
    var a := new T[|s|](k requires 0 <= k < |s| => s[k]);
    var i: int, j: int := 0, a.Length - 1;
    while i < j
      invariant 0 <= i <= a.Length
      invariant j == a.Length - 1 - i
      invariant forall k :: 0 <= k < i ==> a[k] == s[|s| - 1 - k]
      invariant forall k :: j < k < a.Length ==> a[k] == s[|s| - 1 - k]
      invariant forall k :: i <= k <= j ==> a[k] == s[k]
    {
      a[i], a[j] := a[j], a[i];
      i, j := i + 1, j - 1;
    }
    r := a[..];
  }

  /** `getConversationHistory`: run the query, then reverse its result in
      place. `readFails` stands for an error from `Find` or `cursor.All`. */
  method GetConversationHistory(ms: seq<Message>, cid: ObjectId, limit: int, readFails: bool)
    returns (r: Option<seq<Message>>)
    ensures r.None? <==> readFails
    ensures r.Some? ==> r.value == Window(ms, cid, limit)
  {
    if readFails {
      return None;
    }
    var found := NewestFirst(ms, cid, limit);
    var reversed := ReverseInPlace(found);
    assert reversed == Reversed(found);
    WindowUnfolded(ms, cid, limit);
    return Some(reversed);
  }

  /** When the conversation's messages were stored in clock order (as
      `MessagesOfAscending` gives when the whole collection was), the window is
      exactly its last `k` messages in storage order. */
  lemma WindowIsLastMessages(ms: seq<Message>, cid: ObjectId, limit: int)
    requires SortedAsc(MessagesOf(ms, cid), CreatedAt)
    ensures
      var f := MessagesOf(ms, cid);
      Window(ms, cid, limit) == f[|f| - WindowSize(|f|, limit)..]
  {
    var f := MessagesOf(ms, cid);
    TakeNewestOfAscending(f, CreatedAt, WindowSize(|f|, limit));
  }

  /** The window is the store query's result reversed. */
  lemma WindowUnfolded(ms: seq<Message>, cid: ObjectId, limit: int)
    ensures Window(ms, cid, limit) == Reversed(NewestFirst(ms, cid, limit))
  {
    var f := MessagesOf(ms, cid);
    assert NewestWindow(f, CreatedAt, WindowSize(|f|, limit)) == Reversed(NewestFirst(ms, cid, limit));
  }

  /** A conversation's messages keep the clock order of the collection. */
  lemma MessagesOfAscending(ms: seq<Message>, cid: ObjectId)
    requires SortedAsc(ms, CreatedAt)
    ensures SortedAsc(MessagesOf(ms, cid), CreatedAt)
  {
    FilterAscending(ms, (m: Message) => m.conversationId == cid, CreatedAt);
  }

  /** A message stored after every other message of its conversation, and
      strictly newer than them, is the last message of the window whenever the
      window holds anything. */
  lemma NewestMessageClosesWindow(ms: seq<Message>, u: Message, limit: int)
    requires forall i :: 0 <= i < |ms| && ms[i].conversationId == u.conversationId ==> ms[i].createdAt < u.createdAt
    ensures var w := Window(ms + [u], u.conversationId, limit);
      |w| > 0 && w[|w| - 1] == u
  {
    AppendedNewest(ms, u);
    NewestWindowEndsWithNewest(MessagesOf(ms, u.conversationId), u, CreatedAt,
                               WindowSize(|MessagesOf(ms, u.conversationId)| + 1, limit));
  }

  /** Storing `u` after older messages of its conversation appends it to that
      conversation's messages, each of which is older than `u`. */
  lemma AppendedNewest(ms: seq<Message>, u: Message)
    requires forall i :: 0 <= i < |ms| && ms[i].conversationId == u.conversationId ==> ms[i].createdAt < u.createdAt
    ensures var f := MessagesOf(ms, u.conversationId);
      && MessagesOf(ms + [u], u.conversationId) == f + [u]
      && forall i :: 0 <= i < |f| ==> CreatedAt(f[i]) <= CreatedAt(u) - 1
  {
    var cid := u.conversationId;
    var p := (m: Message) => m.conversationId == cid;
    FilterAppend(ms, u, p);
    FilterBounded(ms, p, CreatedAt, u.createdAt - 1);
  }
}
