/** The document store as the handlers see it: three collections kept in natural
    (insertion) order, and the single-collection operations the handlers call.
    `_id` is unique in every collection, so an insert that would duplicate it
    fails, as the store's primary-key index makes it fail. */
module Store {
  import opened Wrappers
  import opened Seqs
  import opened ObjectIds
  import opened Models
  import opened Http

  datatype Store = Store(
    conversations: seq<Conversation>,
    messages: seq<Message>,
    users: seq<User>)

  /** A store call made by a handler. Naming a step in a handler's fault set
      makes that call fail with a driver error (timeout, lost connection, ...). */
  datatype Step =
    | ConvLookup          // FindOne on conversations by _id
    | ConvTouch           // UpdateOne setting updatedAt
    | ConvInsert          // InsertOne of a new conversation
    | UserMessageInsert   // InsertOne of the user's message
    | HistoryRead         // Find + cursor.All on messages
    | ReplyInsert         // InsertOne of the assistant's message
    | ConvScan            // Find + cursor.All listing conversations
    | ConvFindAndUpdate   // FindOneAndUpdate of a conversation's title
    | ConvDecode          // decoding the updated conversation
    | MessagesDelete      // DeleteMany on messages
    | ConvDelete          // DeleteOne on conversations (DeleteMany in the cleanup script)
    | ConvCount           // the cleanup script's first countDocuments
    | ConvSample          // the cleanup script's find listing five examples
    | ConvCollect         // the cleanup script's find collecting the ids
    | ConvRecount         // the cleanup script's countDocuments after the deletes
    | UserLookup          // FindOne on users
    | UserInsert          // InsertOne on users
    | UserFindAndUpdate   // FindOneAndUpdate on users
    | UserReload          // FindOne on users after an update

  type Faults = set<Step>

  /** A handler's reply together with the store it leaves behind. */
  datatype Handled<+T> = Handled(response: Response<T>, store: Store)

  // ---------------------------------------------------------------------------
  // Conversations

  /** Position of the conversation stored under `id`. */
  function ConversationIndex(cs: seq<Conversation>, id: ObjectId): (r: Option<nat>)
    ensures r.None? <==> forall i :: 0 <= i < |cs| ==> cs[i].id != id
    ensures r.Some? ==> r.value < |cs| && cs[r.value].id == id
    ensures r.Some? ==> forall j :: 0 <= j < r.value ==> cs[j].id != id
  {
    IndexOf(cs, (c: Conversation) => c.id == id)
  }

  predicate HasConversation(cs: seq<Conversation>, id: ObjectId) {
    ConversationIndex(cs, id).Some?
  }

  /** `FindOne({_id: id})` on conversations. */
  function FindConversation(cs: seq<Conversation>, id: ObjectId): (r: Option<Conversation>)
    ensures r.Some? <==> HasConversation(cs, id)
    ensures r.Some? ==> r.value in cs && r.value.id == id
  {
    match ConversationIndex(cs, id)
    case None => None
    case Some(i) => Some(cs[i])
  }

  /** `InsertOne` on conversations: appended, or refused on a duplicate `_id`. */
  function InsertConversation(cs: seq<Conversation>, c: Conversation): (r: Option<seq<Conversation>>)
    ensures r.Some? <==> !HasConversation(cs, c.id)
    ensures r.Some? ==> r.value == cs + [c]
  {
    if HasConversation(cs, c.id) then None else Some(cs + [c])
  }

  /** The stored conversation `id` with `f` applied to it; every other one untouched. */
  function UpdateConversation(cs: seq<Conversation>, id: ObjectId, f: Conversation -> Conversation): (r: seq<Conversation>)
    ensures |r| == |cs|
    ensures !HasConversation(cs, id) ==> r == cs
    ensures HasConversation(cs, id) ==>
      var i := ConversationIndex(cs, id).value;
      r == cs[i := f(cs[i])]
  {
    match ConversationIndex(cs, id)
    case None => cs
    case Some(i) => cs[i := f(cs[i])]
  }

  /** `DeleteOne({_id: id})` on conversations. */
  function RemoveConversation(cs: seq<Conversation>, id: ObjectId): (r: seq<Conversation>)
    ensures !HasConversation(cs, id) ==> r == cs
    ensures HasConversation(cs, id) ==>
      var i := ConversationIndex(cs, id).value;
      r == cs[..i] + cs[i + 1..]
  {
    match ConversationIndex(cs, id)
    case None => cs
    case Some(i) => cs[..i] + cs[i + 1..]
  }

  // ---------------------------------------------------------------------------
  // Messages

  predicate HasMessage(ms: seq<Message>, id: ObjectId) {
    IndexOf(ms, (m: Message) => m.id == id).Some?
  }

  /** `InsertOne` on messages: appended, or refused on a duplicate `_id`. */
  function InsertMessage(ms: seq<Message>, m: Message): (r: Option<seq<Message>>)
    ensures r.Some? <==> forall i :: 0 <= i < |ms| ==> ms[i].id != m.id
    ensures r.Some? ==> r.value == ms + [m]
  {
    if HasMessage(ms, m.id) then None else Some(ms + [m])
  }

  /** The messages of one conversation, in natural order (`Find({conversationId: cid})`). */
  function MessagesOf(ms: seq<Message>, cid: ObjectId): (r: seq<Message>)
    ensures forall i :: 0 <= i < |r| ==> r[i].conversationId == cid
    ensures multiset(r) <= multiset(ms)
  {
    Filter(ms, (m: Message) => m.conversationId == cid)
  }

  /** `DeleteMany({conversationId: cid})` on messages. */
  function DeleteMessagesOf(ms: seq<Message>, cid: ObjectId): (r: seq<Message>)
    ensures forall i :: 0 <= i < |r| ==> r[i].conversationId != cid
    ensures multiset(r) <= multiset(ms)
  {
    Filter(ms, (m: Message) => m.conversationId != cid)
  }

  /** Every message belongs to `cid` or not: the two scans split the collection. */
  lemma MessagesOfPartition(ms: seq<Message>, cid: ObjectId)
    ensures multiset(DeleteMessagesOf(ms, cid)) + multiset(MessagesOf(ms, cid)) == multiset(ms)
  {
    FilterPartition(ms, (m: Message) => m.conversationId != cid, (m: Message) => m.conversationId == cid);
  }

  // ---------------------------------------------------------------------------
  // Users

  /** Position of the first user stored with `email`. */
  function UserIndexByEmail(us: seq<User>, email: string): (r: Option<nat>)
    ensures r.None? <==> forall i :: 0 <= i < |us| ==> us[i].email != email
    ensures r.Some? ==> r.value < |us| && us[r.value].email == email
    ensures r.Some? ==> forall j :: 0 <= j < r.value ==> us[j].email != email
  {
    IndexOf(us, (u: User) => u.email == email)
  }

  /** Position of the user stored under `id`. */
  function UserIndex(us: seq<User>, id: ObjectId): (r: Option<nat>)
    ensures r.None? <==> forall i :: 0 <= i < |us| ==> us[i].id != id
    ensures r.Some? ==> r.value < |us| && us[r.value].id == id
    ensures r.Some? ==> forall j :: 0 <= j < r.value ==> us[j].id != id
  {
    IndexOf(us, (u: User) => u.id == id)
  }

  /** `InsertOne` on users: appended, or refused on a duplicate `_id`. */
  function InsertUser(us: seq<User>, u: User): (r: Option<seq<User>>)
    ensures r.Some? <==> forall i :: 0 <= i < |us| ==> us[i].id != u.id
    ensures r.Some? ==> r.value == us + [u]
  {
    if UserIndex(us, u.id).Some? then None else Some(us + [u])
  }

  // ---------------------------------------------------------------------------
  // Well-formed stores

  ghost predicate UniqueConversationIds(cs: seq<Conversation>) {
    forall i, j :: 0 <= i < j < |cs| ==> cs[i].id != cs[j].id
  }

  ghost predicate UniqueMessageIds(ms: seq<Message>) {
    forall i, j :: 0 <= i < j < |ms| ==> ms[i].id != ms[j].id
  }

  ghost predicate UniqueUserIds(us: seq<User>) {
    forall i, j :: 0 <= i < j < |us| ==> us[i].id != us[j].id
  }

  /** Every stored message points at a stored conversation. */
  ghost predicate MessagesAttached(st: Store) {
    forall i :: 0 <= i < |st.messages| ==> HasConversation(st.conversations, st.messages[i].conversationId)
  }

  /** What every store reached by the handlers, run one at a time, satisfies. */
  ghost predicate Valid(st: Store) {
    && UniqueConversationIds(st.conversations)
    && UniqueMessageIds(st.messages)
    && UniqueUserIds(st.users)
    && MessagesAttached(st)
  }

  /** No two accounts share an email. */
  ghost predicate UniqueEmails(us: seq<User>) {
    forall i, j :: 0 <= i < j < |us| ==> us[i].email != us[j].email
  }

  /** Dropping messages keeps the rest attached. */
  lemma SubsetKeepsAttached(cs: seq<Conversation>, ms: seq<Message>, ms': seq<Message>)
    requires forall i :: 0 <= i < |ms| ==> HasConversation(cs, ms[i].conversationId)
    requires multiset(ms') <= multiset(ms)
    ensures forall i :: 0 <= i < |ms'| ==> HasConversation(cs, ms'[i].conversationId)
  {
    forall i | 0 <= i < |ms'|
      ensures HasConversation(cs, ms'[i].conversationId)
    {
      assert ms'[i] in multiset(ms);
      var j :| 0 <= j < |ms| && ms[j] == ms'[i];
    }
  }

  /** The messages a `DeleteMany` keeps still have unique ids. */
  lemma FilterKeepsUniqueMessageIds(ms: seq<Message>, keep: Message -> bool)
    requires UniqueMessageIds(ms)
    ensures UniqueMessageIds(Filter(ms, keep))
  {
    var key := (m: Message) => m.id;
    var kept := Filter(ms, keep);
    FilterKeepsUniqueKeys(ms, keep, key);
    forall i, j | 0 <= i < j < |kept|
      ensures kept[i].id != kept[j].id
    {
      assert key(Filter(ms, keep)[i]) != key(Filter(ms, keep)[j]);
    }
  }

  /** Deleting one conversation leaves every other one stored. */
  lemma RemoveKeepsOthers(cs: seq<Conversation>, cid: ObjectId, id: ObjectId)
    requires HasConversation(cs, id) && id != cid
    ensures HasConversation(RemoveConversation(cs, cid), id)
  {
    var r := RemoveConversation(cs, cid);
    var k := ConversationIndex(cs, id).value;
    if HasConversation(cs, cid) {
      var i := ConversationIndex(cs, cid).value;
      if k < i {
        assert r[k] == cs[k];
      } else {
        assert r[k - 1] == cs[k];
      }
    }
  }

  /** Deleting one conversation keeps the ids of the rest unique. */
  lemma RemoveKeepsUniqueIds(cs: seq<Conversation>, cid: ObjectId)
    requires UniqueConversationIds(cs)
    ensures UniqueConversationIds(RemoveConversation(cs, cid))
  {
    var r := RemoveConversation(cs, cid);
    if HasConversation(cs, cid) {
      var i := ConversationIndex(cs, cid).value;
      forall a, b | 0 <= a < b < |r|
        ensures r[a].id != r[b].id
      {
        var a' := if a < i then a else a + 1;
        var b' := if b < i then b else b + 1;
        assert r[a] == cs[a'] && r[b] == cs[b'];
      }
    }
  }
}
