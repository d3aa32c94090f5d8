/** The chat handlers of controllers/chat_controller.go: one chat turn
    (`SendMessage`), reading a conversation with its messages, listing,
    renaming and deleting conversations. Each handler is a function from the
    store it finds to the response it writes and the store it leaves. */
module ChatController {
  import opened Wrappers
  import opened Seqs
  import opened ObjectIds
  import opened Models
  import opened Store
  import History
  import opened Webhook
  import opened Http

  const ErrInvalidConversationId := "ID de conversa inválido"
  const ErrConversationNotFound := "Conversa não encontrada"
  const ErrCreateConversation := "Erro ao criar conversa"
  const ErrSaveUserMessage := "Erro ao salvar mensagem do usuário"
  const ErrLoadHistory := "Erro ao buscar histórico"
  const ErrSaveReply := "Erro ao salvar resposta do assistente"
  const ErrLoadMessages := "Erro ao buscar mensagens"
  const ErrListConversations := "Erro ao buscar conversas"
  const ErrTitleRequired := "Título é obrigatório"
  const ErrUpdateConversation := "Erro ao atualizar conversa"
  const ErrDecodeConversation := "Erro ao decodificar conversa"
  const ErrFindConversation := "Erro ao buscar conversa"
  const ErrDeleteMessages := "Erro ao deletar mensagens"
  const ErrDeleteConversation := "Erro ao deletar conversa"
  const ConversationDeleted := "Conversa deletada com sucesso"

  /** How many recent messages a chat turn sends along as history. */
  const HistoryLimit := 10

  /** The error text a failed bridge call is reported with. */
  function BridgeFailureText(e: BridgeError): string {
    "Erro ao chamar n8n: " + BridgeErrorText(e)
  }

  // ---------------------------------------------------------------------------
  // One chat turn

  /** The bound request body: an empty id asks for a new conversation. */
  datatype ChatRequest = ChatRequest(conversationId: string, message: string)

  datatype ChatResponse = ChatResponse(
    conversationId: string,
    message: string,
    role: Role,
    messageId: string,
    latencyMs: int)

  /** The ids the turn would generate: for a new conversation, the user's
      message and the assistant's message. */
  datatype TurnIds = TurnIds(conversation: ObjectId, userMessage: ObjectId, reply: ObjectId)

  /** Clock readings taken during a turn, in program order: when the turn
      starts, when a new conversation is built, when an existing one is
      touched, when the user's message is built, when the latency is measured,
      and when the assistant's message is built. */
  datatype TurnClock = TurnClock(start: nat, created: nat, touched: nat, userAt: nat, doneAt: nat, replyAt: nat) {

    /** The readings come from one monotonic clock. */
    predicate Monotone() {
      start <= created <= userAt && start <= touched <= userAt && userAt <= doneAt <= replyAt
    }

    /** `time.Since(startTime).Milliseconds()`. */
    function Latency(): int {
      doneAt - start
    }
  }

  /** The conversation a bound request goes to: a new one when it names none,
      otherwise the id it names if that parses. */
  function Target(req: ChatRequest, ids: TurnIds): Option<ObjectId> {
    if req.conversationId == "" then Some(ids.conversation) else FromHex(req.conversationId)
  }

  /** The user's message as the turn stores it. */
  function UserMessage(req: ChatRequest, cid: ObjectId, ids: TurnIds, clock: TurnClock): Message {
    NewMessage(ids.userMessage, cid, RoleUser, req.message, clock.userAt)
  }

  /** The assistant's message as the turn stores it. */
  function AssistantMessage(reply: WebhookReply, cid: ObjectId, ids: TurnIds, clock: TurnClock): Message {
    NewMessage(ids.reply, cid, RoleAssistant, EffectiveText(reply), clock.replyAt)
      .(latencyMs := clock.Latency(), metadata := reply.metadata)
  }

  /** Reads the history of a conversation out of a message collection, at
      most `limit` messages when `limit` is positive: `History.Window` in the
      running application (see `ChatTurn`). */
  type HistoryReader = (seq<Message>, ObjectId, int) -> seq<Message>

  /** What the turn posts to the webhook: the user's text, the conversation id
      and the history read right after the user's message was stored. */
  function SentRequest(ms: seq<Message>, req: ChatRequest, cid: ObjectId, ids: TurnIds, clock: TurnClock,
                       readHistory: HistoryReader): WebhookRequest {
    WebhookRequest(req.message, cid, readHistory(ms + [UserMessage(req, cid, ids, clock)], cid, HistoryLimit))
  }

  /** `cs'` is `cs` with at most the `updatedAt` of conversation `cid` changed, to `t`. */
  ghost predicate OnlyTouched(cs: seq<Conversation>, cs': seq<Conversation>, cid: ObjectId, t: nat) {
    && |cs'| == |cs|
    && forall i :: 0 <= i < |cs| ==> cs'[i] == cs[i] || (cs[i].id == cid && cs'[i] == cs[i].(updatedAt := t))
  }

  /** After touching conversation `cid`, looking it up finds the stored
      conversation with the new `updatedAt`. */
  lemma TouchFindsTouched(cs: seq<Conversation>, cid: ObjectId, t: nat)
    requires HasConversation(cs, cid)
    ensures FindConversation(UpdateConversation(cs, cid, (c: Conversation) => c.(updatedAt := t)), cid) ==
      Some(FindConversation(cs, cid).value.(updatedAt := t))
  {
    var cs' := UpdateConversation(cs, cid, (c: Conversation) => c.(updatedAt := t));
    var i := ConversationIndex(cs, cid).value;
    assert cs'[i].id == cid;
    assert forall j :: 0 <= j < i ==> cs'[j].id != cid;
    assert ConversationIndex(cs', cid) == Some(i);
  }

  /** Step 1 of a turn: resolve the conversation, creating it when the request
      names none. An error here is the whole turn's response. */
  function ResolveConversation(st: Store, req: ChatRequest, ids: TurnIds, clock: TurnClock, faults: Faults)
    : (r: Result<Store, Response<ChatResponse>>)
    ensures r.Err? ==> r.error.Failure?
    ensures r.Ok? ==> Target(req, ids).Some? && r.value.messages == st.messages && r.value.users == st.users
    ensures r.Ok? ==> HasConversation(r.value.conversations, Target(req, ids).value)
    ensures req.conversationId != "" && Target(req, ids).None? ==>
      r == Err(Failure(StatusBadRequest, ErrInvalidConversationId))
    ensures req.conversationId != "" && Target(req, ids).Some? ==>
      var cid := Target(req, ids).value;
      if ConvLookup in faults || !HasConversation(st.conversations, cid) then
        r == Err(Failure(StatusNotFound, ErrConversationNotFound))
      else r.Ok? && OnlyTouched(st.conversations, r.value.conversations, cid, clock.touched)
    // The touch is made unless it fails, and its failure is ignored.
    ensures && req.conversationId != "" && Target(req, ids).Some? && ConvLookup !in faults
            && HasConversation(st.conversations, Target(req, ids).value) ==>
      var cid := Target(req, ids).value;
      && (ConvTouch in faults ==> r == Ok(st))
      && (ConvTouch !in faults ==>
            && r.Ok?
            && FindConversation(r.value.conversations, cid) ==
                 Some(FindConversation(st.conversations, cid).value.(updatedAt := clock.touched)))
    ensures req.conversationId == "" ==>
      if ConvInsert in faults || HasConversation(st.conversations, ids.conversation) then
        r == Err(Failure(StatusInternalServerError, ErrCreateConversation))
      else r == Ok(st.(conversations := st.conversations + [NewConversation("", ids.conversation, clock.created)]))
  {
    if req.conversationId != "" then
      match FromHex(req.conversationId)
      case None => Err(Failure(StatusBadRequest, ErrInvalidConversationId))
      case Some(cid) =>
        if ConvLookup in faults || !HasConversation(st.conversations, cid) then
          Err(Failure(StatusNotFound, ErrConversationNotFound))
        else if ConvTouch in faults then
          // The error of the updatedAt touch is ignored: the turn goes on.
          Ok(st)
        else
          var cs := UpdateConversation(st.conversations, cid, (c: Conversation) => c.(updatedAt := clock.touched));
          assert cs[ConversationIndex(st.conversations, cid).value].id == cid;
          TouchFindsTouched(st.conversations, cid, clock.touched);
          Ok(st.(conversations := cs))
    else
      var conversation := NewConversation("", ids.conversation, clock.created);
      match (if ConvInsert in faults then None else InsertConversation(st.conversations, conversation))
      case None => Err(Failure(StatusInternalServerError, ErrCreateConversation))
      case Some(cs) =>
        assert HasConversation(cs, ids.conversation) by {
          assert cs[|cs| - 1].id == ids.conversation;
        }
        Ok(st.(conversations := cs))
  }

  /** Steps 2 to 7 of a turn, once the conversation `cid` is resolved: store the
      user's message, read the history, call the webhook, store the reply. */
  function CompleteTurn(st: Store, req: ChatRequest, cid: ObjectId, ids: TurnIds, clock: TurnClock,
                        faults: Faults, bridge: WebhookRequest -> HttpOutcome, readHistory: HistoryReader)
    : (out: Handled<ChatResponse>)
    ensures out.store.conversations == st.conversations && out.store.users == st.users
    ensures out.response.Failure? ==> out.response.status == StatusInternalServerError
    ensures
      var u := UserMessage(req, cid, ids, clock);
      var decoded := DecodeReply(bridge(SentRequest(st.messages, req, cid, ids, clock, readHistory)));
      if UserMessageInsert in faults || InsertMessage(st.messages, u).None? then
        out == Handled(Failure(StatusInternalServerError, ErrSaveUserMessage), st)
      else if HistoryRead in faults then
        out == Handled(Failure(StatusInternalServerError, ErrLoadHistory), st.(messages := st.messages + [u]))
      else if decoded.Err? then
        out == Handled(Failure(StatusInternalServerError, BridgeFailureText(decoded.error)), st.(messages := st.messages + [u]))
      else
        var a := AssistantMessage(decoded.value, cid, ids, clock);
        if ReplyInsert in faults || InsertMessage(st.messages + [u], a).None? then
          out == Handled(Failure(StatusInternalServerError, ErrSaveReply), st.(messages := st.messages + [u]))
        else
          out == Handled(
            Success(StatusOK, ChatResponse(cid, EffectiveText(decoded.value), RoleAssistant, ids.reply, clock.Latency())),
            st.(messages := st.messages + [u] + [a]))
  {
    var userMessage := UserMessage(req, cid, ids, clock);
    match (if UserMessageInsert in faults then None else InsertMessage(st.messages, userMessage))
    case None => Handled(Failure(StatusInternalServerError, ErrSaveUserMessage), st)
    case Some(ms) =>
      var st1 := st.(messages := ms);
      if HistoryRead in faults then Handled(Failure(StatusInternalServerError, ErrLoadHistory), st1)
      else
        match DecodeReply(bridge(SentRequest(st.messages, req, cid, ids, clock, readHistory)))
        case Err(e) => Handled(Failure(StatusInternalServerError, BridgeFailureText(e)), st1)
        case Ok(reply) =>
          var botResponse := EffectiveText(reply);
          var assistantMessage := AssistantMessage(reply, cid, ids, clock);
          match (if ReplyInsert in faults then None else InsertMessage(ms, assistantMessage))
          case None => Handled(Failure(StatusInternalServerError, ErrSaveReply), st1)
          case Some(ms2) =>
            Handled(
              Success(StatusOK, ChatResponse(cid, botResponse, RoleAssistant, ids.reply, clock.Latency())),
              st1.(messages := ms2))
  }

  /** Within a turn the user's message is stored first: a turn that writes
      nothing failed to store it; every later failure is a 500 that keeps it;
      success appends exactly the assistant's message after it, carrying the
      text and role the response reports. */
  lemma CompleteTurnStoresUserFirst(st: Store, req: ChatRequest, cid: ObjectId, ids: TurnIds, clock: TurnClock,
                                    faults: Faults, bridge: WebhookRequest -> HttpOutcome, readHistory: HistoryReader)
    ensures var out := CompleteTurn(st, req, cid, ids, clock, faults, bridge, readHistory);
      var u := UserMessage(req, cid, ids, clock);
      var n := |st.messages|;
      && (out.store == st ==> out.response == Failure(StatusInternalServerError, ErrSaveUserMessage))
      && (out.store != st ==> |out.store.messages| > n && out.store.messages[..n + 1] == st.messages + [u])
      && (out.store != st && out.response.Failure? ==>
            out.store.messages == st.messages + [u] && out.response.status == StatusInternalServerError)
      && (out.response.Success? ==>
            && |out.store.messages| == n + 2
            && out.store.messages[n + 1].id == ids.reply
            && out.store.messages[n + 1].role == out.response.payload.role == RoleAssistant
            && out.store.messages[n + 1].content == out.response.payload.message)
  {
    var out := CompleteTurn(st, req, cid, ids, clock, faults, bridge, readHistory);
    var u := UserMessage(req, cid, ids, clock);
    var n := |st.messages|;
    if out.store != st {
      assert out.store.messages[..n + 1] == st.messages + [u] by {
        if out.response.Success? {
          var m := out.store.messages;
          assert m[..n + 1] == (st.messages + [u] + [m[n + 1]])[..n + 1];
        }
      }
    }
  }

  /** `SendMessage`: one chat turn. A request that is not bound (no body,
      malformed JSON, missing or empty `message`), an id that does not parse,
      or an id with no stored conversation is answered without writing
      anything; past that point the conversation exists, the user's message is
      stored, and any later failure is a 500 that leaves it stored. */
  function SendMessage(st: Store, body: Option<ChatRequest>, ids: TurnIds, clock: TurnClock,
                       faults: Faults, bridge: WebhookRequest -> HttpOutcome, readHistory: HistoryReader)
    : (out: Handled<ChatResponse>)
    // Rejections write nothing.
    ensures body.None? || body.value.message == "" ==> out == Handled(Failure(StatusBadRequest, BindingError), st)
    ensures out.response.Failure? && out.response.status != StatusInternalServerError ==> out.store == st
    ensures out.response.Failure? ==> out.response.status in {StatusBadRequest, StatusNotFound, StatusInternalServerError}
    ensures out.store.users == st.users
    // A successful turn reports the stored reply.
    ensures out.response.Success? ==>
      && body.Some? && Target(body.value, ids).Some?
      && var cid := Target(body.value, ids).value;
      && var decoded := DecodeReply(bridge(SentRequest(st.messages, body.value, cid, ids, clock, readHistory)));
      && decoded.Ok?
      && var a := AssistantMessage(decoded.value, cid, ids, clock);
      && out.response.status == StatusOK
      && out.response.payload == ChatResponse(cid, a.content, RoleAssistant, a.id, a.latencyMs)
      && a.content == EffectiveText(decoded.value)
      && a.metadata == decoded.value.metadata
      && a.latencyMs == clock.doneAt - clock.start
      && |out.store.messages| == |st.messages| + 2
      && out.store.messages[|st.messages| + 1] == a
      && HasConversation(out.store.conversations, cid)
    ensures out.response.Success? && clock.Monotone() ==> out.response.payload.latencyMs >= 0
  {
    if body.None? || body.value.message == "" then
      Handled(Failure(StatusBadRequest, BindingError), st)
    else
      var req := body.value;
      match ResolveConversation(st, req, ids, clock, faults)
      case Err(response) => Handled(response, st)
      case Ok(st1) =>
        var cid := Target(req, ids).value;
        CompleteTurn(st1, req, cid, ids, clock, faults, bridge, readHistory)
  }

  /** A 400 comes from an unbound body or an id that does not parse, a 404 from
      an id with no conversation behind it (or a failed lookup). */
  lemma SendMessageRejections(st: Store, body: Option<ChatRequest>, ids: TurnIds, clock: TurnClock,
    faults: Faults, bridge: WebhookRequest -> HttpOutcome, readHistory: HistoryReader)
    ensures var out := SendMessage(st, body, ids, clock, faults, bridge, readHistory);
      out.response.Failure? && out.response.status == StatusBadRequest ==>
        body.None? || body.value.message == "" || Target(body.value, ids).None?
    ensures var out := SendMessage(st, body, ids, clock, faults, bridge, readHistory);
      out.response.Failure? && out.response.status == StatusNotFound ==>
        && body.Some? && body.value.conversationId != "" && Target(body.value, ids).Some?
        && (ConvLookup in faults || !HasConversation(st.conversations, Target(body.value, ids).value))
  {
  }

  /** A turn without an id creates exactly one conversation, with no owner; a
      turn with an id changes at most that conversation's `updatedAt`, and sets
      it to the turn's touch time unless that write fails. */
  lemma SendMessageConversation(st: Store, body: Option<ChatRequest>, ids: TurnIds, clock: TurnClock,
    faults: Faults, bridge: WebhookRequest -> HttpOutcome, readHistory: HistoryReader)
    ensures var out := SendMessage(st, body, ids, clock, faults, bridge, readHistory);
      body.Some? && body.value.message != "" && body.value.conversationId == "" ==>
        || out.store.conversations == st.conversations + [NewConversation("", ids.conversation, clock.created)]
        || (out.store == st && out.response == Failure(StatusInternalServerError, ErrCreateConversation))
    ensures var out := SendMessage(st, body, ids, clock, faults, bridge, readHistory);
      body.Some? && body.value.message != "" && body.value.conversationId != "" && Target(body.value, ids).Some? ==>
        OnlyTouched(st.conversations, out.store.conversations, Target(body.value, ids).value, clock.touched)
    ensures var out := SendMessage(st, body, ids, clock, faults, bridge, readHistory);
      && body.Some? && body.value.message != "" && body.value.conversationId != "" && Target(body.value, ids).Some?
      && ConvLookup !in faults && HasConversation(st.conversations, Target(body.value, ids).value) ==>
        var cid := Target(body.value, ids).value;
        && (ConvTouch in faults ==> out.store.conversations == st.conversations)
        && (ConvTouch !in faults ==>
              FindConversation(out.store.conversations, cid) ==
                Some(FindConversation(st.conversations, cid).value.(updatedAt := clock.touched)))
  {
  }

  /** A turn stores nothing, the user's message alone (and then answers 500), or
      the user's message followed by the assistant's. */
  lemma SendMessageMessages(st: Store, body: Option<ChatRequest>, ids: TurnIds, clock: TurnClock,
    faults: Faults, bridge: WebhookRequest -> HttpOutcome, readHistory: HistoryReader)
    ensures var out := SendMessage(st, body, ids, clock, faults, bridge, readHistory);
      out.store.messages == st.messages || (
        && body.Some? && Target(body.value, ids).Some?
        && var cid := Target(body.value, ids).value;
        && var u := UserMessage(body.value, cid, ids, clock);
        || (out.store.messages == st.messages + [u] && out.response.Failure?
            && out.response.status == StatusInternalServerError)
        || (&& out.response.Success?
            && var decoded := DecodeReply(bridge(SentRequest(st.messages, body.value, cid, ids, clock, readHistory)));
            && decoded.Ok?
            && out.store.messages == st.messages + [u] + [AssistantMessage(decoded.value, cid, ids, clock)]))
  {
  }

  /** The turn as the application runs it: the history is the window `History.Window` reads. */
  function ChatTurn(st: Store, body: Option<ChatRequest>, ids: TurnIds, clock: TurnClock,
                    faults: Faults, bridge: WebhookRequest -> HttpOutcome): Handled<ChatResponse> {
    SendMessage(st, body, ids, clock, faults, bridge, History.Window)
  }

  // ---------------------------------------------------------------------------
  // Reading, listing, renaming and deleting conversations

  const ErrDecodeConversations := "Erro ao decodificar conversas"

  /** The body of a successful `GetConversationHistory`. */
  datatype ConversationHistory = ConversationHistory(conversation: Conversation, messages: seq<Message>)

  /** The body of a successful `ListConversations`. */
  datatype ConversationList = ConversationList(conversations: seq<Conversation>, total: nat)

  /** `GetConversationHistory`: the conversation and all of its messages,
      oldest first. Nothing is written. */
  function GetConversationHistory(st: Store, idText: string, faults: Faults): (r: Response<ConversationHistory>)
    ensures FromHex(idText).None? ==> r == Failure(StatusBadRequest, ErrInvalidConversationId)
    ensures FromHex(idText).Some? && (ConvLookup in faults || !HasConversation(st.conversations, FromHex(idText).value)) ==>
      r == Failure(StatusNotFound, ErrConversationNotFound)
    ensures r.Failure? ==> r.status in {StatusBadRequest, StatusNotFound, StatusInternalServerError}
    ensures r.Failure? && r.status == StatusInternalServerError ==> HistoryRead in faults && r.error == ErrLoadMessages
    ensures (FromHex(idText).Some? && ConvLookup !in faults && HasConversation(st.conversations, FromHex(idText).value)) ==>
      if HistoryRead in faults then r == Failure(StatusInternalServerError, ErrLoadMessages) else r.Success?
    ensures r.Success? ==>
      && FromHex(idText).Some?
      && var cid := FromHex(idText).value;
      && r.status == StatusOK
      && Some(r.payload.conversation) == FindConversation(st.conversations, cid)
      && multiset(r.payload.messages) == multiset(MessagesOf(st.messages, cid))
      && SortedAsc(r.payload.messages, History.CreatedAt)
  {
    match FromHex(idText)
    case None => Failure(StatusBadRequest, ErrInvalidConversationId)
    case Some(cid) =>
      // Every lookup error, not only a missing document, is reported as 404.
      match (if ConvLookup in faults then None else FindConversation(st.conversations, cid))
      case None => Failure(StatusNotFound, ErrConversationNotFound)
      case Some(conversation) =>
        if HistoryRead in faults then Failure(StatusInternalServerError, ErrLoadMessages)
        else
          History.WindowUnboundedComplete(st.messages, cid, 0);
          History.WindowChronological(st.messages, cid, 0);
          Success(StatusOK, ConversationHistory(conversation, History.Window(st.messages, cid, 0)))
  }

  /** Sort key of the conversation list. */
  function UpdatedAt(c: Conversation): int {
    c.updatedAt
  }

  /** `ListConversations`: every stored conversation, most recently updated
      first, with their count. Nothing is written. */
  function ListConversations(st: Store, faults: Faults): (r: Response<ConversationList>)
    ensures ConvScan in faults ==> r == Failure(StatusInternalServerError, ErrListConversations)
    ensures ConvScan !in faults && ConvDecode in faults ==> r == Failure(StatusInternalServerError, ErrDecodeConversations)
    ensures r.Success? <==> ConvScan !in faults && ConvDecode !in faults
    ensures r.Success? ==>
      && r.status == StatusOK
      && SortedDesc(r.payload.conversations, UpdatedAt)
      && multiset(r.payload.conversations) == multiset(st.conversations)
      && r.payload.total == |r.payload.conversations| == |st.conversations|
  {
    if ConvScan in faults then Failure(StatusInternalServerError, ErrListConversations)
    else if ConvDecode in faults then Failure(StatusInternalServerError, ErrDecodeConversations)
    else
      var conversations := SortDesc(st.conversations, UpdatedAt);
      Success(StatusOK, ConversationList(conversations, |conversations|))
  }

  /** The `$set` of a rename: the new title and the time of the update. */
  function Renamed(c: Conversation, title: string, now: nat): Conversation {
    c.(title := title, updatedAt := now)
  }

  /** `UpdateConversationTitle`: sets the title and `updatedAt` of one
      conversation and answers with the updated document. `title` is `None`
      when the body does not bind; an empty title is refused as a missing one. */
  function UpdateConversationTitle(st: Store, idText: string, title: Option<string>, now: nat, faults: Faults)
    : (out: Handled<Conversation>)
    ensures out.store.messages == st.messages && out.store.users == st.users
    ensures FromHex(idText).None? ==> out == Handled(Failure(StatusBadRequest, ErrInvalidConversationId), st)
    ensures FromHex(idText).Some? && (title.None? || title.value == "") ==>
      out == Handled(Failure(StatusBadRequest, ErrTitleRequired), st)
    ensures FromHex(idText).Some? && title.Some? && title.value != "" ==>
      var cid := FromHex(idText).value;
      if ConvFindAndUpdate in faults then
        out == Handled(Failure(StatusInternalServerError, ErrUpdateConversation), st)
      else if !HasConversation(st.conversations, cid) then
        out == Handled(Failure(StatusNotFound, ErrConversationNotFound), st)
      else
        // The update is written even when decoding its result fails.
        && |out.store.conversations| == |st.conversations|
        && (forall i :: 0 <= i < |st.conversations| && st.conversations[i].id != cid ==>
              out.store.conversations[i] == st.conversations[i])
        && var updated := Renamed(FindConversation(st.conversations, cid).value, title.value, now);
        && FindConversation(out.store.conversations, cid) == Some(updated)
        && out.response == (if ConvDecode in faults then Failure(StatusInternalServerError, ErrDecodeConversation)
                            else Success(StatusOK, updated))
  {
    match FromHex(idText)
    case None => Handled(Failure(StatusBadRequest, ErrInvalidConversationId), st)
    case Some(cid) =>
      if title.None? || title.value == "" then Handled(Failure(StatusBadRequest, ErrTitleRequired), st)
      else if ConvFindAndUpdate in faults then Handled(Failure(StatusInternalServerError, ErrUpdateConversation), st)
      else
        match ConversationIndex(st.conversations, cid)
        case None => Handled(Failure(StatusNotFound, ErrConversationNotFound), st)
        case Some(i) =>
          var cs := UpdateConversation(st.conversations, cid, (c: Conversation) => Renamed(c, title.value, now));
          var st' := st.(conversations := cs);
          assert cs == st.conversations[i := Renamed(st.conversations[i], title.value, now)];
          assert cs[i].id == cid;
          assert ConversationIndex(cs, cid) == Some(i);
          // The document returned is the updated one, as stored.
          var document := ConversationDocument(cs[i]);
          if ConvDecode in faults then Handled(Failure(StatusInternalServerError, ErrDecodeConversation), st')
          else Handled(Success(StatusOK, DecodeConversation(document).value), st')
  }

  /** `DeleteConversation`: removes the conversation's messages, then the
      conversation. A failure to delete the conversation leaves its messages
      already gone. */
  function DeleteConversation(st: Store, idText: string, faults: Faults): (out: Handled<string>)
    ensures out.store.users == st.users
    ensures FromHex(idText).None? ==> out == Handled(Failure(StatusBadRequest, ErrInvalidConversationId), st)
    ensures FromHex(idText).Some? ==>
      var cid := FromHex(idText).value;
      var cleared := DeleteMessagesOf(st.messages, cid);
      if ConvLookup in faults then
        out == Handled(Failure(StatusInternalServerError, ErrFindConversation), st)
      else if !HasConversation(st.conversations, cid) then
        out == Handled(Failure(StatusNotFound, ErrConversationNotFound), st)
      else if MessagesDelete in faults then
        out == Handled(Failure(StatusInternalServerError, ErrDeleteMessages), st)
      else
        && out.store.messages == cleared
        && multiset(cleared) + multiset(MessagesOf(st.messages, cid)) == multiset(st.messages)
        && if ConvDelete in faults then
             out == Handled(Failure(StatusInternalServerError, ErrDeleteConversation), st.(messages := cleared))
           else
             && out.response == Success(StatusOK, ConversationDeleted)
             && |out.store.conversations| == |st.conversations| - 1
             && multiset(out.store.conversations) + multiset{FindConversation(st.conversations, cid).value}
                == multiset(st.conversations)
  {
    match FromHex(idText)
    case None => Handled(Failure(StatusBadRequest, ErrInvalidConversationId), st)
    case Some(cid) =>
      if ConvLookup in faults then Handled(Failure(StatusInternalServerError, ErrFindConversation), st)
      else if !HasConversation(st.conversations, cid) then Handled(Failure(StatusNotFound, ErrConversationNotFound), st)
      else if MessagesDelete in faults then Handled(Failure(StatusInternalServerError, ErrDeleteMessages), st)
      else
        var cleared := DeleteMessagesOf(st.messages, cid);
        MessagesOfPartition(st.messages, cid);
        var st1 := st.(messages := cleared);
        if ConvDelete in faults then Handled(Failure(StatusInternalServerError, ErrDeleteConversation), st1)
        else
          var cs := st.conversations;
          RemoveAt(cs, ConversationIndex(cs, cid).value);
          Handled(Success(StatusOK, ConversationDeleted), st1.(conversations := RemoveConversation(cs, cid)))
  }

  // ---------------------------------------------------------------------------
  // Properties across handlers

  /** Touching `updatedAt` keeps every id where it was. */
  lemma OnlyTouchedKeepsIds(cs: seq<Conversation>, cs': seq<Conversation>, cid: ObjectId, t: nat)
    requires OnlyTouched(cs, cs', cid, t)
    ensures forall i :: 0 <= i < |cs| ==> cs'[i].id == cs[i].id
  {
  }

  /** A conversation present before a touch is present after it. */
  lemma OnlyTouchedKeepsConversations(cs: seq<Conversation>, cs': seq<Conversation>, cid: ObjectId, t: nat, id: ObjectId)
    requires OnlyTouched(cs, cs', cid, t)
    requires HasConversation(cs, id)
    ensures HasConversation(cs', id)
  {
    var i := ConversationIndex(cs, id).value;
    assert cs'[i].id == id;
  }

  /** Resolving the conversation keeps the store well formed. */
  lemma ResolveKeepsValid(st: Store, req: ChatRequest, ids: TurnIds, clock: TurnClock, faults: Faults)
    requires Valid(st)
    requires ResolveConversation(st, req, ids, clock, faults).Ok?
    ensures Valid(ResolveConversation(st, req, ids, clock, faults).value)
  {
    var st1 := ResolveConversation(st, req, ids, clock, faults).value;
    if req.conversationId != "" {
      var cid := Target(req, ids).value;
      OnlyTouchedKeepsIds(st.conversations, st1.conversations, cid, clock.touched);
      forall i | 0 <= i < |st1.messages|
        ensures HasConversation(st1.conversations, st1.messages[i].conversationId)
      {
        OnlyTouchedKeepsConversations(st.conversations, st1.conversations, cid, clock.touched, st.messages[i].conversationId);
      }
    } else {
      var c := NewConversation("", ids.conversation, clock.created);
      forall i | 0 <= i < |st1.messages|
        ensures HasConversation(st1.conversations, st1.messages[i].conversationId)
      {
        var k := ConversationIndex(st.conversations, st.messages[i].conversationId).value;
        assert st1.conversations[k].id == st.messages[i].conversationId;
      }
    }
  }

  /** A rename keeps the store well formed: it changes the title and time of
      one conversation and no id. */
  lemma RenameKeepsValid(st: Store, idText: string, title: Option<string>, now: nat, faults: Faults)
    requires Valid(st)
    ensures Valid(UpdateConversationTitle(st, idText, title, now, faults).store)
  {
    var st' := UpdateConversationTitle(st, idText, title, now, faults).store;
    if st' != st {
      var cid := FromHex(idText).value;
      var i := ConversationIndex(st.conversations, cid).value;
      assert st'.conversations == st.conversations[i := Renamed(st.conversations[i], title.value, now)];
      assert forall k :: 0 <= k < |st.conversations| ==> st'.conversations[k].id == st.conversations[k].id;
      forall m | 0 <= m < |st'.messages|
        ensures HasConversation(st'.conversations, st'.messages[m].conversationId)
      {
        var k := ConversationIndex(st.conversations, st.messages[m].conversationId).value;
        assert st'.conversations[k].id == st.messages[m].conversationId;
      }
    }
  }

  /** A delete keeps the store well formed, including when the conversation
      delete fails: the messages go first, and the messages that stay belong
      to conversations that stay. */
  lemma DeleteKeepsValid(st: Store, idText: string, faults: Faults)
    requires Valid(st)
    ensures Valid(DeleteConversation(st, idText, faults).store)
  {
    var st' := DeleteConversation(st, idText, faults).store;
    if st' != st {
      var cid := FromHex(idText).value;
      var cleared := DeleteMessagesOf(st.messages, cid);
      ClearKeepsValid(st, cid);
      if ConvDelete !in faults {
        assert st' == st.(messages := cleared, conversations := RemoveConversation(st.conversations, cid));
        RemoveKeepsValid(st, cid);
      }
    }
  }

  /** Deleting a conversation's messages keeps the store well formed. */
  lemma ClearKeepsValid(st: Store, cid: ObjectId)
    requires Valid(st)
    ensures Valid(st.(messages := DeleteMessagesOf(st.messages, cid)))
  {
    FilterKeepsUniqueMessageIds(st.messages, (m: Message) => m.conversationId != cid);
    SubsetKeepsAttached(st.conversations, st.messages, DeleteMessagesOf(st.messages, cid));
  }

  /** Deleting a conversation after its messages keeps the store well formed. */
  lemma RemoveKeepsValid(st: Store, cid: ObjectId)
    requires Valid(st)
    ensures Valid(st.(messages := DeleteMessagesOf(st.messages, cid), conversations := RemoveConversation(st.conversations, cid)))
  {
    var ms := DeleteMessagesOf(st.messages, cid);
    var cs := RemoveConversation(st.conversations, cid);
    ClearKeepsValid(st, cid);
    RemoveKeepsUniqueIds(st.conversations, cid);
    forall m | 0 <= m < |ms|
      ensures HasConversation(cs, ms[m].conversationId)
    {
      assert ms[m] in multiset(st.messages);
      var j :| 0 <= j < |st.messages| && st.messages[j] == ms[m];
      RemoveKeepsOthers(st.conversations, cid, ms[m].conversationId);
    }
  }

  /** Appending a message with a fresh id to an existing conversation keeps the store well formed. */
  lemma AppendMessageKeepsValid(st: Store, m: Message)
    requires Valid(st)
    requires InsertMessage(st.messages, m).Some?
    requires HasConversation(st.conversations, m.conversationId)
    ensures Valid(st.(messages := st.messages + [m]))
  {
  }

  /** Storing a turn's messages keeps the store well formed: their ids are
      fresh and their conversation exists. */
  lemma CompleteKeepsValid(st: Store, req: ChatRequest, cid: ObjectId, ids: TurnIds, clock: TurnClock,
                           faults: Faults, bridge: WebhookRequest -> HttpOutcome, readHistory: HistoryReader)
    requires Valid(st)
    requires HasConversation(st.conversations, cid)
    ensures Valid(CompleteTurn(st, req, cid, ids, clock, faults, bridge, readHistory).store)
  {
    var u := UserMessage(req, cid, ids, clock);
    if UserMessageInsert !in faults && InsertMessage(st.messages, u).Some? {
      AppendMessageKeepsValid(st, u);
      var st1 := st.(messages := st.messages + [u]);
      var decoded := DecodeReply(bridge(SentRequest(st.messages, req, cid, ids, clock, readHistory)));
      if HistoryRead !in faults && decoded.Ok? {
        var a := AssistantMessage(decoded.value, cid, ids, clock);
        if ReplyInsert !in faults && InsertMessage(st1.messages, a).Some? {
          AppendMessageKeepsValid(st1, a);
        }
      }
    }
  }

  /** Every turn, whatever it answers, keeps the store well formed. */
  lemma SendMessageKeepsValid(st: Store, body: Option<ChatRequest>, ids: TurnIds, clock: TurnClock,
                              faults: Faults, bridge: WebhookRequest -> HttpOutcome, readHistory: HistoryReader)
    requires Valid(st)
    ensures Valid(SendMessage(st, body, ids, clock, faults, bridge, readHistory).store)
  {
    if body.Some? && body.value.message != "" {
      var req := body.value;
      var r := ResolveConversation(st, req, ids, clock, faults);
      if r.Ok? {
        ResolveKeepsValid(st, req, ids, clock, faults);
        CompleteKeepsValid(r.value, req, Target(req, ids).value, ids, clock, faults, bridge, readHistory);
      }
    }
  }

  /** Once a conversation is deleted, reading it answers 404 and none of its
      messages is left. Ids are unique in a well-formed store, so the one
      document deleted was the only one with that id. */
  lemma DeleteThenRead(st: Store, idText: string, faults: Faults, readFaults: Faults)
    requires UniqueConversationIds(st.conversations)
    requires DeleteConversation(st, idText, faults).response.Success?
    ensures var st' := DeleteConversation(st, idText, faults).store;
      && GetConversationHistory(st', idText, readFaults) == Failure(StatusNotFound, ErrConversationNotFound)
      && MessagesOf(st'.messages, FromHex(idText).value) == []
  {
    var cid := FromHex(idText).value;
    var cs := st.conversations;
    var i := ConversationIndex(cs, cid).value;
    var st' := DeleteConversation(st, idText, faults).store;
    assert st'.conversations == cs[..i] + cs[i + 1..];
    forall j | 0 <= j < |st'.conversations|
      ensures st'.conversations[j].id != cid
    {
      if j < i {
        assert st'.conversations[j] == cs[j];
      } else {
        assert st'.conversations[j] == cs[j + 1];
      }
    }
    var p := (m: Message) => m.conversationId == cid;
    FilterNone(st'.messages, p);
  }

  /** Renaming twice with the same title at the same time leaves the store as renaming once. */
  lemma RenameIdempotent(st: Store, idText: string, title: Option<string>, now: nat, faults: Faults)
    ensures var once := UpdateConversationTitle(st, idText, title, now, faults).store;
      UpdateConversationTitle(once, idText, title, now, faults).store == once
  {
    var once := UpdateConversationTitle(st, idText, title, now, faults).store;
    if FromHex(idText).Some? && title.Some? && title.value != "" && ConvFindAndUpdate !in faults {
      var cid := FromHex(idText).value;
      if HasConversation(st.conversations, cid) {
        var i := ConversationIndex(st.conversations, cid).value;
        var cs := once.conversations;
        assert ConversationIndex(cs, cid) == Some(i);
        assert cs[i] == Renamed(cs[i], title.value, now);
        assert cs[i := Renamed(cs[i], title.value, now)] == cs;
      }
    }
  }

  /** In the running application the history the webhook sees ends with the
      message the user just sent, as long as the clock has moved past every
      message already stored in the conversation. */
  lemma ChatTurnSendsUserMessageLast(st: Store, req: ChatRequest, cid: ObjectId, ids: TurnIds, clock: TurnClock)
    requires forall i :: 0 <= i < |st.messages| && st.messages[i].conversationId == cid ==>
      st.messages[i].createdAt < clock.userAt
    ensures var h := SentRequest(st.messages, req, cid, ids, clock, History.Window).history;
      |h| > 0 && h[|h| - 1] == UserMessage(req, cid, ids, clock)
  {
    History.NewestMessageClosesWindow(st.messages, UserMessage(req, cid, ids, clock), HistoryLimit);
  }
}
