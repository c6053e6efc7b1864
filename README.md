# Messenger relay: a Dafny model

This project models the core of a messenger backend: the WebSocket relay in
`src/server.js` and the REST message controller in
`src/api/controllers/messageController.js`. Both work on the same `messages` table.

The relay keeps `clients`, a JavaScript `Map` from user id to connection. Its handlers are:

- `auth` verifies a token, registers the connection under the decoded user and broadcasts `online_users_list`.
- `message` stores a row and sends `new_message` to the receiver and back to the sender.
- `delete_message` writes the ownership-conditioned tombstone ("Сообщение удалено").
- `edit_message` replaces the content and sets the edited flag.
- `messages_read` marks a conversation read.
- `typing`/`stop_typing` and the four call-signalling events go only to the receiver.
- A close evicts the user and broadcasts `user_offline`.

The REST controller validates and inserts a message (400/201/500). It tombstones one of the caller's own messages (403/200/500). It answers the conversation between two users oldest first, with the reply columns of the LEFT JOINs.

Layout, following the program's structure:

- `wrappers.dfy`: `Option`.
- `ordered_map.dfy`: a JavaScript `Map` as its entries in insertion order. It provides `get`, `set`, `delete` and `keys()`, with their laws. `Array.from(clients.keys())` is the insertion-ordered key list.
- `messages.dfy`: the `messages` and `users` tables the core touches, and the conditional `INSERT`/`UPDATE` statements as functions on them.
- `protocol.dfy`: connection state (`userId`, and `readyState` reduced to open or not) and the inbound and outbound envelopes. It also defines the store-fault oracle.
- `presence.dfy`: the sends guarded by `readyState === OPEN`, and the `clients.forEach` broadcast.
- `relay.dfy`: what each event does, as a step function from state to state. The state holds the registry, the connections, the store and the sends made so far.
- `relay_properties.dfy`: the relay's properties, proved about those step functions. This includes two concrete traces of the quirks below.
- `store.dfy`: the store as a class holding the tables, with one method per SQL statement.
- `server.dfy`: the relay as a class. It holds the registry, the connections and the outbox, and has one method per event. Each method is proved to produce exactly the step function's new state. The broadcast is a loop over the registry.
- `conversation.dfy`: the `getMessages` query as a filter, an insertion sort by `created_at` and a projection.
- `message_controller.dfy`: the REST handlers, as imperative methods over the store proved equal to pure step functions, plus their properties.

Behaviour modelled as written:

- **Unguarded eviction.** Closing a connection deletes its user's entry even when a newer connection of that user has replaced it (`src/server.js:158`). `RelayProperties.StaleCloseEvictsNewer` shows this on a concrete trace. The code does not check that the entry still points at the closing connection, and the model does not either.
- **Stale key on re-auth.** Re-authenticating as another user keeps the old key pointing at the connection (`RelayProperties.ReauthLeavesStaleKey`).
- **Self-chat sends twice.** A message to oneself reaches the sender's open connection twice (`RelayProperties.SelfChatTwice`).
- **No validation on the live path.** `message` is inserted whatever `receiver_id` and `content` are. Only the REST path validates them (`RelayProperties.ChatStored` holds for every receiver and content).
- **Edit can hit a tombstone.** Editing a deleted message replaces the tombstone text but keeps the deleted flag (`Messages.EditAfterDelete`).
- **Uncaught store errors.** `delete_message`, `edit_message` and `messages_read` have no `try`. A failing query there rejects the handler's promise before anything is sent. The model's outcome for this is `Rejected`.
- **JSON `null`.** A payload of `null` parses, and then `data.type` throws. It too is `Rejected`.
- **Falsy ids.** `if (ws.userId)` and `if (w && ...)` use JavaScript truthiness, so a user id of 0 counts as unauthenticated.

External inputs become parameters:

- The token verifier is a function `Token -> TokenResult`.
- Store failures are an oracle `Fault` that names which query of a handler fails.
- The clock is a `now: Time` value.
- Parsing of the message text is reduced to a `Payload` that either did not parse, is `null`, or is a typed event.

## Model

| member | source | states |
|---|---|---|
| OrderedMap.Keys | src/server.js:34 | the online list has one entry per registry entry, namely that entry's user id, in insertion order |
| OrderedMap.KeysListKeySet | src/server.js:34 | `Array.from(clients.keys())` lists exactly the registered user ids, each once |
| OrderedMap.Get | src/server.js:82 | `clients.get(id)` is empty exactly when the id is not registered; otherwise it gives the connection of an entry for that id |
| OrderedMap.GetUnique | src/server.js:82 | with no duplicate keys, `get` finds the value of the key's one entry |
| OrderedMap.SetGet | src/server.js:32 | after `clients.set(u, ws)`, `u` maps to `ws` and every other user keeps its connection |
| OrderedMap.SetKeySet | src/server.js:32 | `set` adds the user to the key set and removes none |
| OrderedMap.SetKeyOrder | src/server.js:32 | `set` on a registered user keeps the key order; on a new user it appends the user |
| OrderedMap.SetEntries | src/server.js:32 | `set` never creates a second entry for a user; the entries after it are old ones or the new one |
| OrderedMap.DeleteGet | src/server.js:158 | after `clients.delete(u)`, `u` is absent and every other user keeps its connection |
| OrderedMap.DeleteEntries | src/server.js:158 | the entries after `delete` are exactly the old entries of the other users |
| OrderedMap.DeleteKeySet | src/server.js:158 | `delete` removes the user from the key set and no other user |
| OrderedMap.DeleteNoDup | src/server.js:158 | `delete` never creates a duplicate key |
| Messages.Insert | src/server.js:65-69 | an insert stores the row under a fresh id, adds exactly one row, changes no other row and keeps the id invariant |
| Messages.DeleteOwned | src/server.js:99 | the row count is 1 if and only if the row exists and the user sent it; only that row changes, into the tombstone: text "Сообщение удалено", deleted flag set, type "text" |
| Messages.EditOwned | src/server.js:112-115 | the row count is 1 if and only if the user sent that row; only that row changes: new content, edited flag set, deleted flag as it was; the returned row is the updated one |
| Messages.MarkRead | src/server.js:136 | a row becomes read exactly when the reader received it from the partner and it was unread; no other column or row changes |
| Messages.TouchLastSeen | src/server.js:162 | only the user's `last_seen` changes, and only when the user exists |
| Messages.EditThenDelete | src/server.js:97-123 | deleting after an owner's edit gives the same row whatever the edit wrote |
| Messages.EditAfterDelete | src/server.js:113 | editing a tombstoned message succeeds, replaces the tombstone text and keeps the deleted flag |
| Messages.DeleteIdempotent | src/server.js:99 | a second delete leaves the table unchanged and still reports one row |
| Messages.MarkReadComplete | src/server.js:136 | after `messages_read` nothing the partner sent the reader is unread, and repeating it changes nothing |
| Presence.SendToUser | src/server.js:82-85 | a targeted send delivers the event to the target user's connection exactly when that user is registered and the connection is open, and makes no other delivery |
| Presence.FanoutCount | src/server.js:38-42 | a broadcast reaches an open connection once per registry entry pointing at it, and a closed connection never |
| Presence.FanoutTargets | src/server.js:38-42 | every broadcast delivery carries the event and goes to an open, registered connection |
| Presence.FanoutExactlyOnce | src/server.js:38-42 | when no connection is registered twice, each open registered connection receives a broadcast exactly once and nothing else receives it |
| RelayProperties.AuthRegisters | src/server.js:30-32 | a verified token maps its user to this connection, replacing any earlier entry; no other user's entry changes; no key is duplicated; the store is unchanged |
| RelayProperties.AuthOnlineList | src/server.js:34-42 | after auth every send is `online_users_list` whose ids are the registry's keys, each once; an open connection receives one list per entry pointing at it, a closed one none |
| RelayProperties.AuthOnlineListOnce | src/server.js:34-42 | when no connection is registered twice, each open registered connection gets exactly one online list |
| RelayProperties.AuthFailure | src/server.js:43-50 | a rejected token sends `auth_failed` with the error message only if the connection is open, closes it, and leaves every other connection, the registry and the store unchanged |
| RelayProperties.DroppedInput | src/server.js:20-25 | unparseable input, events before auth and unknown types change nothing and send nothing; `null` also rejects |
| RelayProperties.ChatStored | src/server.js:60-90 | exactly one row is inserted, sent by the connection's user with the client's receiver and content, type "text" and reply null unless given; the id sequence advances by one and the users table is untouched; the outbox is extended by `new_message` to the receiver's open connection and back to the sender if open |
| RelayProperties.SelfChatTwice | src/server.js:82-89 | a message to oneself reaches the sender's open connection twice |
| RelayProperties.ChatStoreError | src/server.js:91-93 | a failed insert changes nothing and sends nothing; a failed reply look-up leaves the table with exactly the inserted row added and sends nothing; both are caught |
| RelayProperties.DeleteOwnOnly | src/server.js:97-108 | only a row the user sent changes, into the tombstone; with no match nothing changes or is sent; otherwise only the table changes and the outbox is extended by `message_deleted` with the given id to the receiver and back to the sender, each if open |
| RelayProperties.EditOwnOnly | src/server.js:110-123 | only a row the user sent changes: new content, edited flag, deleted flag kept; with no match nothing changes or is sent; otherwise only the table changes and the outbox is extended by `message_edited`, carrying the updated row, to the receiver and back to the sender, each if open |
| RelayProperties.UncaughtStoreError | src/server.js:99 | a store failure in delete, edit or messages_read changes nothing, sends nothing and rejects the handler |
| RelayProperties.ReadMarksConversation | src/server.js:133-142 | exactly the reader's unread messages from `chatId` become read, nothing else in the store, registry or connections changes, and the outbox is extended by one `messages_updated` naming the reader goes to `chatId`'s connection when it is registered and open, and by nothing otherwise |
| RelayProperties.EphemeralRelay | src/server.js:125-153 | typing notices and call signals never touch the store, the registry or the connections; the event goes to the receiver's connection when it is registered and open, and nowhere otherwise, appended to the outbox, with the connection's own user as sender |
| RelayProperties.CloseEvicts | src/server.js:156-172 | closing an authenticated connection marks only that connection closed, removes its user's entry unconditionally, updates `last_seen` unless that query fails (the failure is caught), and broadcasts `user_offline` to the remaining open registered connections, once per entry, never to itself |
| RelayProperties.CloseUnauthenticated | src/server.js:173-175 | closing an unauthenticated connection only marks it closed |
| RelayProperties.StaleCloseEvictsNewer | src/server.js:158 | two connections authenticate as one user; closing the first leaves the user unregistered while the second is still open |
| RelayProperties.ReauthLeavesStaleKey | src/server.js:31-32 | re-authenticating as another user leaves both users registered to the same connection, which receives the online list twice |
| RelayProperties.ConnectKeepsInv | src/server.js:15 | a new connection keeps the relay invariant |
| RelayProperties.AuthKeepsInv | src/server.js:30-32 | an auth event, verified or not, keeps the relay invariant |
| RelayProperties.HandleKeepsInv | src/server.js:18-154 | every inbound event keeps the invariant (one entry per user, registered connections known and assigned a user id, sound ids) and the set of known connections |
| RelayProperties.CloseKeepsInv | src/server.js:156-176 | a close keeps the invariant |
| Store.MessageStore.InsertRow | src/server.js:65-68 | the store's new state and the returned row are those of `Insert` |
| Store.MessageStore.UpdateTombstone | src/server.js:99 | the table and row count are those of `DeleteOwned`; the users table is untouched |
| Store.MessageStore.UpdateEdit | src/server.js:112-115 | the table, row count and returned row are those of `EditOwned`; the users table is untouched |
| Store.MessageStore.MarkReadFrom | src/server.js:136 | the table becomes `MarkRead` of the old one; the users table is untouched |
| Store.MessageStore.TouchUserLastSeen | src/server.js:162 | the store becomes `TouchLastSeen` of the old one |
| Store.MessageStore.SelectReply | src/server.js:72-76 | the reply look-up finds something exactly when the replied message exists and its author is a user, and then gives that message's content and author name |
| Server.RelayServer.constructor | src/server.js:13 | the relay starts with an empty registry, no connections and no sends |
| Server.RelayServer.Connect | src/server.js:15 | a new connection gets an id not in use and the state of `Relay.Connect` |
| Server.RelayServer.SendTo | src/server.js:88-90 | one delivery is appended exactly when the connection is open |
| Server.RelayServer.SendToUser | src/server.js:82-85 | the deliveries appended are those of `Presence.SendToUser` |
| Server.RelayServer.Broadcast | src/server.js:38-42 | the loop over the registry appends exactly the broadcast's deliveries, in registry order |
| Server.RelayServer.OnAuth | src/server.js:27-52 | the new state is `AuthStep` of the old, and the invariant holds |
| Server.RelayServer.OnChat | src/server.js:60-95 | the new state and outcome are `ChatStep` of the old state, and the invariant holds |
| Server.RelayServer.OnDelete | src/server.js:97-108 | the new state and outcome are `DeleteStep` of the old state, and the invariant holds |
| Server.RelayServer.OnEdit | src/server.js:110-123 | the new state and outcome are `EditStep` of the old state, and the invariant holds |
| Server.RelayServer.OnRead | src/server.js:133-142 | the new state and outcome are `ReadStep` of the old state, and the invariant holds |
| Server.RelayServer.OnTyping | src/server.js:125-131 | the new state is `TypingStep` of the old, and the invariant holds |
| Server.RelayServer.OnSignal | src/server.js:144-153 | the new state is `SignalStep` of the old, and the invariant holds |
| Server.RelayServer.OnMessage | src/server.js:18-154 | the new state and outcome are `Handle` of the old state, and the invariant holds |
| Server.RelayServer.OnClose | src/server.js:156-176 | the new state is `CloseStep` of the old, and the invariant holds |
| Conversation.MatchingIds | src/api/controllers/messageController.js:66 | exactly the ids of the messages between the two users, in either direction, ascending |
| Conversation.InsertByTime | src/api/controllers/messageController.js:67 | the insertion adds the id and keeps the others, as a multiset |
| Conversation.SortByTime | src/api/controllers/messageController.js:67 | sorting permutes the ids |
| Conversation.InsertKeepsSorted | src/api/controllers/messageController.js:67 | inserting into a sorted list keeps it sorted by `created_at`, then id |
| Conversation.SortSorts | src/api/controllers/messageController.js:67 | the sort orders distinct ids by `created_at`, then id |
| Conversation.HistoryIdsMatch | src/api/controllers/messageController.js:66-67 | the sorted ids are exactly the ids of the messages exchanged between the two users |
| Conversation.HistoryMembers | src/api/controllers/messageController.js:66 | the result holds exactly the messages exchanged between the two users, each row showing its message's stored columns |
| Conversation.HistoryOrder | src/api/controllers/messageController.js:67 | no message appears twice and `created_at` never decreases along the result; equal timestamps come in id order (the model's tie-break) |
| Conversation.HistoryReplies | src/api/controllers/messageController.js:61-65 | the reply columns are null when the message replies to nothing or to a missing message; otherwise they are the replied message's content and its author's name, the name null when the author is not a user |
| MessageController.SendMessage | src/api/controllers/messageController.js:33-51 | the store and response are those of the send step, and the store stays valid |
| MessageController.DeleteMessage | src/api/controllers/messageController.js:78-94 | the store and response are those of the delete step, and the store stays valid |
| MessageController.SendMessageValidates | src/api/controllers/messageController.js:37-39 | the answer is 400 if and only if the receiver or the content is missing or falsy; only a 201 changes the store |
| MessageController.SendMessageInsertsOne | src/api/controllers/messageController.js:41-46 | a valid send inserts exactly one fresh row sent by the user, with the given receiver and content, and answers 201 with that row; the id sequence advances by one and the users table is untouched |
| MessageController.DeleteMessageOwnership | src/api/controllers/messageController.js:82-89 | the answer is 403 if and only if the user does not own the message, and then the table is unchanged; 200 otherwise, tombstoning just that row, leaving the users table alone and echoing the requested id |
| MessageController.RestAndLiveDeleteAgree | src/api/controllers/messageController.js:82-85 | the REST delete writes the same table as the live `delete_message` |
| MessageController.GetMessagesConversation | src/api/controllers/messageController.js:58-74 | the answer is 500 exactly on a query failure; otherwise it is 200 with the conversation's rows, which are exactly the two users' messages, each once, oldest first |

## Left out

- Transport and bootstrap are not modelled: the HTTP server, the `ws` library, `server.listen` and the port (`src/server.js:1-10`, `179-182`). Connections appear and close as events.
- JSON parsing is reduced to three cases: not JSON, `null`, or a typed event. Other JSON values and fields of the wrong type are not modelled, nor is the distinction between a field that is absent and one that is `null`. A `messageType` or `reply_to_message_id` that is `null` rather than absent is modelled like an absent one.
- `jwt.verify` is an opaque verifier parameter. Its secret, expiry and signature checks are not modelled.
- The `pg` pool (`src/config/db.js` is not part of this model) and SQL execution are abstract. Each statement is a function on the tables. Any failure is an oracle choice. This covers connection loss, constraint violations such as a foreign key to a missing user or message, and the cast of a non-numeric REST path id.
- Asynchrony is not modelled: each handler runs to completion, `readyState` is one open flag, and `ws.close()` takes effect at once. Interleaving of `await`s across connections is not captured.
- Clock reads are not modelled. `NOW()`, `new Date()` and the `created_at` default are one opaque `now` value per event, and the two reads at close are taken as equal.
- An unhandled promise rejection is only an outcome (`Rejected`). Its effect on the process is not modelled.
- Console logging is left out.
- The column migration `addColumnIfNotExists` and its start-up call (`src/api/controllers/messageController.js:5-30`) are DDL and left out. The columns are assumed present.
- The other controllers, the middleware, `src/app.js` and the routes are not part of this model. The REST handlers take the already authenticated user id as a parameter.
- `Conversation.SortByTime`: the query's `ORDER BY created_at` leaves the order of equal timestamps to the database. The model breaks ties by id. `Conversation.HistoryOrder` proves that `created_at` never decreases, which is what the query promises. It also proves that rows with equal timestamps come in ascending id order, which holds only for the model's tie-break.
- `MessageController.SendMessageStep`: the `type` column of a REST insert is `text`, assumed to be the table's default. The row's `created_at` is the event's `now`.
- `Presence.FanoutExactlyOnce`: "exactly once" needs no connection registered under two users. A re-authenticated connection breaks this (`RelayProperties.ReauthLeavesStaleKey`), so the general statement is `Presence.FanoutCount`.
