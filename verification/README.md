# Chat backend with an inference bridge — a Dafny model

This project models the request handling of a small chat backend. Users send a
chat turn, the server stores it in a conversation, and it forwards the turn
with a short history window to an inference webhook. The server then stores
the assistant's reply and answers with it. Conversations can be read back,
listed, renamed and deleted. Accounts register and log in with bearer tokens,
and a guard checks those tokens in front of the protected routes. An
authenticated user can read and edit a profile. A maintenance script sweeps
away conversations that have no owner, together with their messages.

Behind the handlers is a document store: three collections (conversations,
messages, users) kept as sequences in insertion order. A lookup is the first
match. An insert is refused when its `_id` is already taken. A bulk delete
keeps the order of what remains. Each handler is a pure function from a store
and a request to a response and the store it leaves behind. The inputs the
program would get from its environment are parameters:

- clock readings, as millisecond naturals;
- generated ids;
- the set of store calls that fail (a handler's `Faults`);
- bcrypt, token signing and signature checking, as function values;
- the webhook exchange, as a function from the posted request to the HTTP outcome.

Modules follow the program's files:

- `Models`: records, stored-document form and roles (models/);
- `ObjectIds`, `Text`, `Seqs`, `Wrappers`, `Http`: shared vocabulary;
- `Store`: the collections and the single-collection operations;
- `Webhook`: normalising the webhook's answer;
- `History`: the history window, including the in-place reversal loop;
- `ChatController`, `AuthController`, `AuthMiddleware`, `ProfileController`: the handlers;
- `Cleanup`: the maintenance script.

The central result is about the history window. It is proved to hold only
messages of the conversation, in chronological order. It holds the
`min(limit, n)` newest of them (all of them when the limit is not positive),
and no message left out is newer than one kept. When the messages were stored
in clock order, the window is exactly the last `k` of them. A chat turn
therefore sends the user's own new message as the last history entry when
that message is newer than the conversation's earlier ones.

Other results:

- Every handler that writes (a chat turn, a rename, a delete, a registration,
  a profile update) and every cleanup run keeps the store well formed: ids are
  unique, and every message points at a stored conversation.
- Delete-then-read and register-then-login round trips hold.
- Renaming is idempotent.
- Decoding a stored document gives back the record it came from, up to empty
  metadata: a message stored with empty metadata decodes with none.
- A token is accepted exactly from the second of its not-before reading until
  24 hours after the second of its expiry reading. The three clock readings
  behind its claims are kept apart.
- Each conversation a chat turn opens is anonymous, so the next cleanup run
  deletes it and every message in it.

## Model

| member | source | states |
|---|---|---|
| Models.NewConversation | models/conversation.go:19-28 | A new conversation has the id and owner it was given and the title "Nova Conversa", and it was created and last updated at the same instant. |
| Models.ConversationDocument | models/conversation.go:10-16 | The stored conversation has no `_id`, `userId` or `title` field exactly when that value is nil or empty. Both timestamps are always stored. Decoding the document gives back the same conversation. |
| Models.NewConversationDocument | models/conversation.go:12-23 | A conversation created with an empty owner is stored without a `userId` field, and one with an owner is stored with it. |
| Models.ParseRole | models/message.go:10-16 | `MessageRole` is a string type, so every stored role text reads back as a role, and as the very same text. The texts "user", "assistant" and "system" read back as exactly the three named constants. |
| Models.RoleNameRoundTrip | models/message.go:10-16 | Each role, named or not, reads back from its stored text, and no two roles share a text. |
| Models.NewMessage | models/message.go:31-39 | A new message keeps its conversation, role and content unchanged and carries the given id and creation time. Its token count and latency are zero, and it has no metadata. |
| Models.MessageDocument | models/message.go:19-28 | The stored message always has its conversation, role, content and time. It has `tokens`, `latencyMs` or `metadata` exactly when that value is non-zero or non-empty. |
| Models.NewMessageDocument | models/message.go:24-38 | A freshly created message is stored without `tokens`, `latencyMs` and `metadata`. |
| Models.MessageDocumentRoundTrip | models/message.go:19-28 | Decoding a stored message gives back the message, except that empty metadata comes back as nil. |
| ObjectIds.FromHex | controllers/chat_controller.go:203-207 | An id text parses exactly when it is 24 hex digits in either case. The id is that text with its letters lower-cased. |
| ObjectIds.FromHexOfHex | controllers/chat_controller.go:179 | The hex text of an id parses back to the same id. |
| Text.Split | middleware/auth.go:25 | The pieces contain no separator, there is at least one piece, and joining them with the separator gives back the input. |
| Text.SplitJoin | middleware/auth.go:25-26 | Splitting undoes joining for pieces that contain no separator. |
| Text.Contains | middleware/auth.go:40 | True exactly when the needle occurs at some position of the text. |
| Text.NatToStringValue | controllers/chat_controller.go:425-428 | The decimal text a status code is reported with denotes that number. |
| Webhook.EffectiveText | controllers/chat_controller.go:56-61 | The reply text is `output` when non-empty, otherwise `response`. It is empty exactly when both are. |
| Webhook.DecodeReply | controllers/chat_controller.go:425-447 | A transport failure is passed on. Any status other than 200 is an error carrying that status and the raw body. Under 200, a non-empty array yields its first element, an object yields itself and `null` yields an empty reply. Anything else, `[]` included, is a decode error carrying the body. Success happens in exactly these cases. |
| Webhook.ArrayAndObjectAgree | controllers/chat_controller.go:437-446 | A reply wrapped in an array and the same reply sent bare normalise to the same result. |
| Store.FindConversation | controllers/chat_controller.go:110-115 | A lookup by id finds a stored conversation with that id exactly when one exists. |
| Store.InsertConversation | controllers/chat_controller.go:125-131 | An insert appends the conversation exactly when its id is not taken. |
| Store.RemoveConversation | controllers/chat_controller.go:374-379 | Deleting by id removes the first conversation with that id and keeps the rest in order. An unknown id changes nothing. |
| Store.MessagesOfPartition | controllers/chat_controller.go:367-372 | The messages the cascade deletes and the messages it keeps make up the whole collection. |
| History.NewestFirst | controllers/chat_controller.go:386-402 | The query result is sorted newest first, has the window's size, and holds only messages of the conversation. |
| History.ReverseInPlace | controllers/chat_controller.go:404-407 | The two-index swap loop keeps the length, and puts the input's element `n-1-i` at position `i`. |
| History.GetConversationHistory | controllers/chat_controller.go:385-410 | A read failure is an error. Otherwise the result is the history window, the query result reversed. |
| History.WindowOnlyConversation | controllers/chat_controller.go:386 | Every message of the window belongs to the conversation asked for. |
| History.WindowChronological | controllers/chat_controller.go:388-407 | The window reads oldest first by `createdAt`. |
| History.WindowUnboundedComplete | controllers/chat_controller.go:389-391 | With a limit that is not positive, the window holds every message of the conversation. |
| History.WindowKeepsNewest | controllers/chat_controller.go:388-391 | No message of the conversation left out of the window is newer than one kept in it. |
| History.WindowIsLastMessages | controllers/chat_controller.go:385-410 | When the conversation's messages were stored in clock order, the window is exactly their last `k`, in storage order. |
| History.WindowUnfolded | controllers/chat_controller.go:404-407 | The window is the newest-first query result reversed. |
| History.MessagesOfAscending | controllers/chat_controller.go:386 | Selecting one conversation's messages keeps the clock order of the collection. |
| History.NewestMessageClosesWindow | controllers/chat_controller.go:134-147 | A message stored after, and strictly newer than, the other messages of its conversation is the last entry of any non-empty window. |
| ChatController.ResolveConversation | controllers/chat_controller.go:98-132 | With no id, the turn inserts exactly one new anonymous conversation, or fails with 500 when the insert is refused. An id that does not parse gives 400. An unknown id, or a failed lookup, gives 404. A known id changes at most that conversation's `updatedAt`. The touch sets it to the turn's touch time, and when the touch fails the store is left as it was and the turn goes on. |
| ChatController.CompleteTurn | controllers/chat_controller.go:134-186 | The user's message is stored before the history is read. Every later failure is a 500 that leaves it stored. On success the assistant's message follows it, and the response names that message. |
| ChatController.CompleteTurnStoresUserFirst | controllers/chat_controller.go:134-186 | A turn that writes nothing failed to store the user's message. Any other turn starts its writes with the user's message. A later failure is a 500 that keeps exactly that message. Success appends exactly one more message: the reply, under the reply id, with the role and text the response reports. |
| ChatController.SendMessage | controllers/chat_controller.go:88-187 | An unbound body is refused and nothing is written; any 400 or 404 writes nothing. On success the stored reply carries the effective text, the bridge's metadata and the elapsed time, which is non-negative for a monotonic clock. The response carries the conversation id and the reply's id. |
| ChatController.SendMessageRejections | controllers/chat_controller.go:89-115 | A 400 comes only from an unbound body or an unparsable id. A 404 comes only from an id whose conversation is missing or could not be read. |
| ChatController.TouchFindsTouched | controllers/chat_controller.go:118-122 | After the `updatedAt` touch, a lookup of the conversation finds it with the new `updatedAt` and every other field as stored. |
| ChatController.SendMessageConversation | controllers/chat_controller.go:102-132 | A turn without an id adds exactly `NewConversation("")`, or writes nothing. A turn with an id changes only that conversation's `updatedAt`, and sets it to the touch time unless the touch fails, in which case the conversations are left as they were. |
| ChatController.SendMessageMessages | controllers/chat_controller.go:134-175 | A turn leaves the messages as they were, or adds the user's message alone and answers 500, or adds it followed by exactly one assistant message and succeeds. |
| ChatController.SendMessageKeepsValid | controllers/chat_controller.go:88-187 | A chat turn keeps ids unique and every message attached to a stored conversation. |
| ChatController.ResolveKeepsValid | controllers/chat_controller.go:102-132 | Resolving the conversation keeps the store well formed. |
| ChatController.AppendMessageKeepsValid | controllers/chat_controller.go:135-140 | Storing a message under a fresh id, in a stored conversation, keeps the store well formed. |
| ChatController.CompleteKeepsValid | controllers/chat_controller.go:134-175 | The message writes of a turn keep the store well formed. |
| ChatController.OnlyTouchedKeepsIds | controllers/chat_controller.go:118-122 | Touching `updatedAt` moves no conversation and changes no id. |
| ChatController.OnlyTouchedKeepsConversations | controllers/chat_controller.go:118-122 | A conversation stored before the touch is still stored after it. |
| ChatController.ChatTurnSendsUserMessageLast | controllers/chat_controller.go:134-154 | The history posted to the webhook ends with the message the user just sent, once the clock has passed the conversation's earlier messages. |
| ChatController.GetConversationHistory | controllers/chat_controller.go:200-230 | An unparsable id gives 400, a missing or unreadable conversation 404, and a failed message read 500. A conversation that is found gives 500 when the message read fails and succeeds otherwise. On success the response has the stored conversation and all of its messages, oldest first. |
| ChatController.ListConversations | controllers/chat_controller.go:241-264 | It succeeds exactly when neither the scan nor the decoding fails. The list is then a permutation of the stored conversations, most recently updated first, and `total` is its length. |
| ChatController.UpdateConversationTitle | controllers/chat_controller.go:279-330 | An unparsable id or a missing or empty title gives 400 and writes nothing, and so does an unknown id, with 404. Otherwise only that conversation's title and `updatedAt` change, and the response is the updated document. The write stays even when decoding the response fails. |
| ChatController.RenameIdempotent | controllers/chat_controller.go:299-312 | Renaming twice with the same title at the same time leaves the store as renaming once. |
| ChatController.DeleteConversation | controllers/chat_controller.go:344-382 | An unknown id gives 404 and removes nothing, and a failed lookup gives 500. Otherwise the messages of the conversation go first and all others stay, then the conversation goes and every other one stays. A failure of the second delete leaves the messages already deleted. |
| ChatController.RenameKeepsValid | controllers/chat_controller.go:299-312 | A rename keeps ids unique and every message attached, since it changes only a title and a time. |
| ChatController.DeleteKeepsValid | controllers/chat_controller.go:344-382 | A delete keeps the store well formed, also when the conversation delete fails after the messages are gone. |
| ChatController.ClearKeepsValid | controllers/chat_controller.go:367-372 | Deleting one conversation's messages keeps message ids unique and the rest attached. |
| ChatController.RemoveKeepsValid | controllers/chat_controller.go:367-379 | Deleting a conversation after its messages leaves every remaining message in a remaining conversation. |
| ChatController.DeleteThenRead | controllers/chat_controller.go:344-382 | After a successful delete, reading the conversation answers 404 and none of its messages is left. |
| AuthController.TokenClaims | controllers/auth.go:183-196 | The claims carry the given email and user id. `time.Now()` is read three times: expiry is the second of the first reading plus 24 hours, issued-at the second of the second reading, and not-before the second of the third. On a monotonic clock issued-at is at most not-before, and expiry is at most 24 hours after issued-at. |
| AuthController.ValidateToken | controllers/auth.go:199-213 | Claims come back exactly when the token parses and is valid. A parse error is passed on, and a parsed but invalid token gets the signature error. |
| AuthController.JwtParse | controllers/auth.go:199-206 | A token that fails splitting, decoding or the signature check is refused with the library's own error text. Otherwise its claims come back, valid, exactly when the reading lies from its not-before second up to its expiry second. An expired token, a token not yet valid and one failing both get the expired, the not-valid-yet and the joined text. |
| AuthController.IssuedTokenLifetime | controllers/auth.go:183-213 | An issued token validates exactly from the second of its not-before reading until the second of its expiry reading plus 24 hours, with the claims it was issued with. Past that it is refused as expired, before it as not valid yet, and with both errors when the readings leave no window. |
| AuthController.StraddledReadingsNotYetValid | controllers/auth.go:188-190 | When the readings straddle a second, the token is refused as not valid yet at the instant of its first reading. |
| AuthController.Account | controllers/auth.go:66-79 | The stored account holds the request email and the hash of the password, has no name or bio, and was created and updated at the same instant. |
| AuthController.Register | controllers/auth.go:42-113 | An unbound body gives 400, and an email the lookup finds gives 409; both write nothing. An account is appended exactly when the lookup did not find the email, hashing succeeded and the insert was accepted. Success is 201 with the token, the request email, the new id and the creation time. A stored account is answered with 201 exactly when its token signs, and with the token error otherwise. |
| AuthController.RegisterKeepsUniqueEmails | controllers/auth.go:56-89 | When the lookup does not fail, registration never creates a second account with an email in use. |
| AuthController.RegisterKeepsValid | controllers/auth.go:81-89 | Registration keeps account ids unique and leaves conversations and messages alone. |
| AuthController.LookupFaultAdmitsDuplicate | controllers/auth.go:56-63 | A failed lookup reads as "not registered", so a second account with a taken email gets stored. |
| AuthController.Login | controllers/auth.go:127-180 | An unbound body gives 400 and a failed lookup 500. The 401 "Invalid email or password" comes exactly from an unknown email or a wrong password. Success returns the matched account's email, id and creation time with the token signed for it. A matching password gives 200 exactly when the token signs, and the token error otherwise. |
| AuthController.LoginUniformError | controllers/auth.go:143-159 | An unknown email and a wrong password for a known email get the same answer. |
| AuthController.RegisterThenLogin | controllers/auth.go:42-180 | After a registration, logging in with the same credentials returns the account just created. |
| AuthMiddleware.BearerToken | middleware/auth.go:24-33 | A header yields a token only when it is `Bearer `, one space, and a token without spaces. |
| AuthMiddleware.BearerTokenExactly | middleware/auth.go:24-33 | The header yields token `t` if and only if it is `"Bearer " + t` and `t` holds no space. |
| AuthMiddleware.MalformedHeaders | middleware/auth.go:25-31 | "bearer x", "Bearer a b" and "Bearer  x" are malformed, while "Bearer " carries the empty token. |
| AuthMiddleware.FailureReason | middleware/auth.go:38-43 | A validation failure is counted as expired or as invalid, nothing else. |
| AuthMiddleware.Authenticate | middleware/auth.go:14-55 | Every rejection is 401. An empty header is "missing" and a header not of the form `Bearer <token>` is "malformed". A failed validation is "expired" exactly when its error mentions "expired", and "invalid" otherwise. The request proceeds exactly when the token validates, with the token's email and user id. |
| AuthMiddleware.IssuedTokenAuthenticates | middleware/auth.go:14-55 | An issued token lets its holder through, as the email and id it was issued for, from its not-before reading until 24 hours less a second after its expiry reading. It is refused as expired from 24 hours after its expiry reading on. |
| AuthMiddleware.VerifyFailureCounted | middleware/auth.go:36-46 | A token the library refuses before its time checks is counted as expired exactly when the library's error text mentions "expired", as a claim-decoding error quoting the offending value can, and as invalid otherwise. |
| AuthMiddleware.ExpiryErrorsMentionExpired | middleware/auth.go:40 | The expired text and the joined expired and not-valid-yet text both contain "expired", so both count as expired. |
| AuthMiddleware.ForgedTokenRejected | middleware/auth.go:36-46 | A token whose signature does not check is refused and counted as invalid, not expired. |
| AuthMiddleware.RejectedAsInvalid | middleware/auth.go:36-46 | A well-formed header whose token fails for a reason other than expiry is counted as invalid. |
| ProfileController.GetProfile | controllers/profile_controller.go:38-74 | No authenticated user gives 401 and an unparsable id 400. An unknown account gives 404 exactly when the lookup succeeded and found none. A failed lookup gives 500, and a stored account under a working lookup gives success. Success returns the stored email, name and bio, each absent field as null. |
| ProfileController.Applied | controllers/profile_controller.go:112-125 | The update always sets `updated_at`. It changes name and bio only when they are supplied, and never the id, email, password or creation time. |
| ProfileController.AppliedIdempotent | controllers/profile_controller.go:112-125 | Applying the same update twice is applying it once at the later time. |
| ProfileController.AppliedNothing | controllers/profile_controller.go:112-117 | An update that supplies nothing only moves `updated_at`. |
| ProfileController.UpdateProfile | controllers/profile_controller.go:90-161 | Any 401, 400 or 404 writes nothing; the 404 comes exactly from an unknown account under a working update. Otherwise the update is written to the caller's account alone. A failed update gives 500 and writes nothing. A stored account under a working update is always written, and the answer is success exactly when the reload works. The response has the stored email and the name and bio after the update. |
| ProfileController.UpdateKeepsCredentials | controllers/profile_controller.go:113-125 | An update never touches another account and never changes any account's id, email or password. |
| ProfileController.UpdateKeepsValid | controllers/profile_controller.go:131-145 | A profile update keeps the store well formed. |
| ProfileController.UpdateThenGet | controllers/profile_controller.go:147-160 | After a successful update, reading the profile returns what the update answered. |
| Cleanup.LacksUserIdDocument | models/conversation.go:12 | The script's `userId: {$exists: false}` query matches exactly the conversations stored with an empty owner. |
| Cleanup.RunCleanup | cleanup_conversations.js:9-83 | A failed first count ends the run with nothing changed. A working count that finds nothing ends it the same way. When none of its calls fails, a run that finds anything completes. It deletes the messages of the collected conversations, then the anonymous conversations. It reports the count found, the deletions and zero remaining. A failed conversation delete leaves the messages already deleted, and a failed final count leaves both deletes done. |
| Cleanup.CleanupAbortsOnFault | cleanup_conversations.js:9-68 | A run ends early only at one of the script's own calls that was made to fail. One that ends at the first count, the sample listing, the id collection or the message delete leaves the store as it was. |
| Cleanup.CleanupStopsAtFirstFault | cleanup_conversations.js:9-68 | A run that ends early ends at the first of its calls, in program order, that was made to fail. |
| Cleanup.SweepCounts | cleanup_conversations.js:60-68 | The sweep deletes as many conversations as were counted and leaves none to count. |
| Cleanup.CleanupDeletesExactly | cleanup_conversations.js:43-62 | The messages deleted are exactly those of collected conversations, and the conversations deleted are exactly the anonymous ones. |
| Cleanup.CleanupKeepsOwnedConversations | cleanup_conversations.js:9-68 | A conversation with an owner survives every run, however it ends, including one that throws at the conversation delete or the recount. |
| Cleanup.CleanupKeepsOtherMessages | cleanup_conversations.js:9-68 | A message whose conversation was not collected survives every run, however it ends. |
| Cleanup.OwnedNotCollected | cleanup_conversations.js:43-47 | With unique ids, an owned conversation's id is never collected. |
| Cleanup.CleanupKeepsValid | cleanup_conversations.js:51-63 | Because messages go first, no run leaves a message pointing at a deleted conversation, whichever delete fails. |
| Cleanup.CleanupIdempotent | cleanup_conversations.js:9-18 | After a run that got through both deletes, the next run changes nothing, and it finds nothing to do unless its count fails. |
| Cleanup.AnonymousSwept | cleanup_conversations.js:43-62 | A stored anonymous conversation is gone after a completed run, and so are all of its messages. |
| Cleanup.ChatConversationsAreSwept | controllers/chat_controller.go:123-131 | A conversation opened by a chat turn has no owner, so the next cleanup run deletes it and the whole exchange stored in it. |

## Left out

- HTTP and JSON: request binding is modelled as an optional bound body. Its error text is the stand-in `BindingError`, since the texts of the validator and JSON decoder are library output. The webhook's HTTP exchange and the JSON decoding of its body are replaced by a status, the raw body and the shape the body decoded to.
- The store driver: collections are sequences, and a failing call is a fault named in a set. In the cleanup script, a throwing call is such a fault at that call: the two counts, the sample listing, the id collection and the two deletes. The 10-second contexts, timeouts and connection handling are left out.
- bcrypt and token signing: hashing, password checking, signing and signature checking are function parameters. Only the expiry and not-before checks of parsing are modelled. Splitting the token, decoding its header and claims, and the signature check are one function parameter that yields the claims or the library's error text.
- AuthController.JwtParse: the texts of the expiry and not-before failures are those of the token library (golang-jwt v5), written out; every earlier failure's text is whatever the parameter yields. The library is not part of this model.
- Metrics, routing, CORS, the health check and process wiring are outside the model. They hold no behaviour to prove.
- Concurrency: every handler runs atomically. The windows between the two deletes of `DeleteConversation` and of the cleanup script, and overlapping turns on one conversation, are not modelled.
- Sort ties: the store's order for equal `createdAt` or `updatedAt` is unspecified. The model sorts with an insertion sort, which gives one admissible order. The lemma about the posted history assumes the user's message is strictly newer than the conversation's earlier messages.
- ChatController.SendMessage: the history reader is a parameter. `ChatTurn` fixes it to `History.Window`, and the lemmas about the posted history use that reader.
- ChatController.UpdateConversationTitle: the decode failure of the updated document is a fault. Decoding a stored conversation always succeeds in the model.
- Cleanup.CollectedIds: states only that every anonymous conversation's id is collected, not that nothing else is. Its exactness is used through `OwnedNotCollected`.
- The cleanup script's printed output and its commented-out confirmation prompt are left out. Its sample listing is modelled only as a call that may throw, since it prints what it reads.
