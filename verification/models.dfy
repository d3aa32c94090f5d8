/** The persisted records: conversations and messages (models/conversation.go,
    models/message.go) and users (models/user.go), with the stored-document
    form the driver writes for conversations and messages. Times are
    millisecond readings of the server clock. */
module Models {
  import opened Wrappers
  import opened ObjectIds

  /** A decoded JSON/BSON value, as carried by message metadata and stored documents. */
  datatype Value =
    | VNull
    | VBool(b: bool)
    | VInt(i: int)
    | VStr(s: string)
    | VTime(t: nat)
    | VOid(oid: ObjectId)
    | VArray(items: seq<Value>)
    | VDoc(fields: map<string, Value>)

  /** A stored document: field name to value. */
  type Document = map<string, Value>

  /** Free-form metadata attached to a message (a Go `map[string]interface{}`). */
  type Metadata = map<string, Value>

  // ---------------------------------------------------------------------------
  // Conversations

  /** Title every new conversation starts with. */
  const DefaultTitle := "Nova Conversa"

  /** `userId` empty means an anonymous conversation. */
  datatype Conversation = Conversation(
    id: ObjectId,
    userId: string,
    title: string,
    createdAt: nat,
    updatedAt: nat)

  /** `NewConversation`: a conversation under a freshly generated `id`, owned by
      `userId` (possibly empty), with the placeholder title and both
      timestamps taken from the same clock reading. */
  function NewConversation(userId: string, id: ObjectId, now: nat): (c: Conversation)
    ensures c.id == id && c.userId == userId
    ensures c.title == DefaultTitle
    ensures c.createdAt == now && c.updatedAt == c.createdAt
  {
    Conversation(id, userId, DefaultTitle, now, now)
  }

  /** A conversation created without an owner is stored without a `userId` field. */
  lemma NewConversationDocument(userId: string, id: ObjectId, now: nat)
    ensures ("userId" in ConversationDocument(NewConversation(userId, id, now))) <==> userId != ""
  {
  }

  /** The document the driver stores for a conversation: `_id`, `userId` and
      `title` are `omitempty`, so a nil id, an empty owner or an empty title
      leave no field at all. */
  function ConversationDocument(c: Conversation): (d: Document)
    ensures "createdAt" in d && "updatedAt" in d
    ensures ("_id" in d) <==> c.id != NilObjectId
    ensures ("userId" in d) <==> c.userId != ""
    ensures ("title" in d) <==> c.title != ""
    ensures DecodeConversation(d) == Some(c)
  {
    var d0 := map["createdAt" := VTime(c.createdAt), "updatedAt" := VTime(c.updatedAt)];
    var d1 := if c.id != NilObjectId then d0["_id" := VOid(c.id)] else d0;
    var d2 := if c.userId != "" then d1["userId" := VStr(c.userId)] else d1;
    if c.title != "" then d2["title" := VStr(c.title)] else d2
  }

  // Field decoders: an absent field decodes to its type's zero value, a field of
  // the wrong type is a decode error.

  function OidField(d: Document, k: string): Option<ObjectId> {
    if k !in d then Some(NilObjectId)
    else match d[k]
      case VOid(o) => Some(o)
      case _ => None
  }

  function StrField(d: Document, k: string): Option<string> {
    if k !in d then Some("")
    else match d[k]
      case VStr(s) => Some(s)
      case _ => None
  }

  function IntField(d: Document, k: string): Option<int> {
    if k !in d then Some(0)
    else match d[k]
      case VInt(i) => Some(i)
      case _ => None
  }

  function TimeField(d: Document, k: string): Option<nat> {
    if k !in d then Some(0)
    else match d[k]
      case VTime(t) => Some(t)
      case _ => None
  }

  function MetadataField(d: Document, k: string): Option<Option<Metadata>> {
    if k !in d then Some(None)
    else match d[k]
      case VNull => Some(None)
      case VDoc(m) => Some(Some(m))
      case _ => None
  }

  /** Decoding a stored conversation document into the record. */
  function DecodeConversation(d: Document): Option<Conversation> {
    var id :- OidField(d, "_id");
    var userId :- StrField(d, "userId");
    var title :- StrField(d, "title");
    var createdAt :- TimeField(d, "createdAt");
    var updatedAt :- TimeField(d, "updatedAt");
    Some(Conversation(id, userId, title, createdAt, updatedAt))
  }

  // ---------------------------------------------------------------------------
  // Messages

  /** `MessageRole`, a string type: any text is a role, three of them named. */
  datatype Role = Role(name: string)

  const RoleUser := Role("user")
  const RoleAssistant := Role("assistant")
  const RoleSystem := Role("system")

  /** The text stored for a role. */
  function RoleName(r: Role): string {
    r.name
  }

  /** Reading a stored role back: every text is a role, and the three
      constants' names read back as those constants. */
  function ParseRole(s: string): (r: Role)
    ensures RoleName(r) == s
    ensures s == "user" <==> r == RoleUser
    ensures s == "assistant" <==> r == RoleAssistant
    ensures s == "system" <==> r == RoleSystem
  {
    Role(s)
  }

  /** Distinct roles are stored under distinct names, and each name reads back as its role. */
  lemma RoleNameRoundTrip(r: Role, r': Role)
    ensures ParseRole(RoleName(r)) == r
    ensures RoleName(r) == RoleName(r') ==> r == r'
  {
  }

  /** One turn of a conversation. `tokens` and `latencyMs` are zero when unset,
      `metadata` is `None` for a nil map. */
  datatype Message = Message(
    id: ObjectId,
    conversationId: ObjectId,
    role: Role,
    content: string,
    tokens: int,
    latencyMs: int,
    metadata: Option<Metadata>,
    createdAt: nat)

  /** `NewMessage`: a message under a freshly generated `id`, created at `now`,
      with no token count, no latency and no metadata. */
  function NewMessage(id: ObjectId, conversationId: ObjectId, role: Role, content: string, now: nat): (m: Message)
    ensures m.id == id && m.conversationId == conversationId
    ensures m.role == role && m.content == content && m.createdAt == now
    ensures m.tokens == 0 && m.latencyMs == 0 && m.metadata.None?
  {
    Message(id, conversationId, role, content, 0, 0, None, now)
  }

  /** A new message is stored without `tokens`, `latencyMs` and `metadata`. */
  lemma NewMessageDocument(id: ObjectId, conversationId: ObjectId, role: Role, content: string, now: nat)
    ensures var d := MessageDocument(NewMessage(id, conversationId, role, content, now));
      "tokens" !in d && "latencyMs" !in d && "metadata" !in d
  {
  }

  /** A metadata map that is nil or empty is not worth storing. */
  predicate HasMetadata(m: Option<Metadata>) {
    m.Some? && |m.value| > 0
  }

  /** The document the driver stores for a message: `tokens`, `latencyMs` and
      `metadata` are `omitempty`, so zero counts and nil or empty metadata
      leave no field. */
  function MessageDocument(m: Message): (d: Document)
    ensures "conversationId" in d && "role" in d && "content" in d && "createdAt" in d
    ensures ("tokens" in d) <==> m.tokens != 0
    ensures ("latencyMs" in d) <==> m.latencyMs != 0
    ensures ("metadata" in d) <==> HasMetadata(m.metadata)
  {
    var d0 := map[
      "conversationId" := VOid(m.conversationId),
      "role" := VStr(RoleName(m.role)),
      "content" := VStr(m.content),
      "createdAt" := VTime(m.createdAt)];
    var d1 := if m.id != NilObjectId then d0["_id" := VOid(m.id)] else d0;
    var d2 := if m.tokens != 0 then d1["tokens" := VInt(m.tokens)] else d1;
    var d3 := if m.latencyMs != 0 then d2["latencyMs" := VInt(m.latencyMs)] else d2;
    if HasMetadata(m.metadata) then d3["metadata" := VDoc(m.metadata.value)] else d3
  }

  /** What reading a stored message back yields: the same record, except that
      empty metadata comes back as nil. */
  function StoredForm(m: Message): Message {
    m.(metadata := if HasMetadata(m.metadata) then m.metadata else None)
  }

  /** Storing a message and decoding the document gives back its stored form. */
  lemma MessageDocumentRoundTrip(m: Message)
    ensures DecodeMessage(MessageDocument(m)) == Some(StoredForm(m))
  {
    MessageIdFields(m);
    MessageBodyFields(m);
    MessageCountFields(m);
    RoleNameRoundTrip(m.role, m.role);
  }

  /** The two ids read back as written. */
  lemma MessageIdFields(m: Message)
    ensures var d := MessageDocument(m);
      && OidField(d, "_id") == Some(m.id)
      && OidField(d, "conversationId") == Some(m.conversationId)
  {
    var d := MessageDocument(m);
    assert OidField(d, "_id") == Some(m.id);
  }

  /** Role, content and time read back as written. */
  lemma MessageBodyFields(m: Message)
    ensures var d := MessageDocument(m);
      && StrField(d, "role") == Some(RoleName(m.role))
      && StrField(d, "content") == Some(m.content)
      && TimeField(d, "createdAt") == Some(m.createdAt)
  {
  }

  /** The omitted-when-empty fields read back as written, empty metadata as nil. */
  lemma MessageCountFields(m: Message)
    ensures var d := MessageDocument(m);
      && IntField(d, "tokens") == Some(m.tokens)
      && IntField(d, "latencyMs") == Some(m.latencyMs)
      && MetadataField(d, "metadata") == Some(StoredForm(m).metadata)
  {
    var d := MessageDocument(m);
    assert IntField(d, "tokens") == Some(m.tokens);
    assert IntField(d, "latencyMs") == Some(m.latencyMs);
  }

  /** Decoding a stored message document into the record. */
  function DecodeMessage(d: Document): Option<Message> {
    var id :- OidField(d, "_id");
    var conversationId :- OidField(d, "conversationId");
    var roleName :- StrField(d, "role");
    var role := ParseRole(roleName);
    var content :- StrField(d, "content");
    var tokens :- IntField(d, "tokens");
    var latencyMs :- IntField(d, "latencyMs");
    var metadata :- MetadataField(d, "metadata");
    var createdAt :- TimeField(d, "createdAt");
    Some(Message(id, conversationId, role, content, tokens, latencyMs, metadata, createdAt))
  }

  // ---------------------------------------------------------------------------
  // Users

  /** A registered account. `password` holds the password hash; `name` and
      `bio` are `*string` pointers in the Go model. */
  datatype User = User(
    id: ObjectId,
    email: string,
    password: string,
    name: Option<string>,
    bio: Option<string>,
    createdAt: nat,
    updatedAt: nat)
}
