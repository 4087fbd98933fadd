# WhatsApp-style backend: relay, history, accounts and auth gate in Dafny

This project models the decision logic of a small Node.js chat backend. The
libraries it calls are reduced to oracles: JWT verification, bcrypt, MongoDB
and socket.io. Each handler is a pure function from the current state and its
inputs to a new state and a reply or a list of emits.

- `Common` (`common.dfy`) holds the shared pieces: `Option`, user ids, and
  JavaScript truthiness of an optional string. It also holds the
  token-verification oracle `Verifier = Token -> Option<UserId>`, which
  returns `None` for every token the library would reject.
- `PathValidation` (`path_validation.dfy`) models `validatePath` from
  server.js. It includes the scan for the regular expression `:[^/]+`, and it
  proves that the missing-parameter-name error can never be raised.
- `Relay` (`relay.dfy`) models the socket.io part of server.js. Its state
  holds each admitted socket's handshake identity, the room table (room name
  to set of sockets) and the message log. It covers:
  - admission at the handshake;
  - `register` and `logout` as joining and leaving a room;
  - `sendMessage`, which saves the message and then emits it to two rooms;
  - the five call-signalling events, each sent to room `to` minus the
    emitting socket.

  `Run` folds any sequence of connections and events. The model proves that
  every state `Run` reaches is well formed, and that only chat messages are
  ever stored.
- `History` (`history.dfy`) models `getMessages` in the chat controller. It
  filters the log down to one conversation, in either direction, and sorts it
  by timestamp. It also covers the 400 and 500 replies.
- `Accounts` (`accounts.dfy`) models the register, login, add-contact and
  refresh guard chains of the auth controller. The users collection is a
  sequence of records. The table invariant `TableOk` covers unique ids, unique
  emails, sound contact lists and a symmetric contact relation. The model
  proves that register preserves it, and that add-contact preserves it when
  its two saves agree. When only the caller's save lands, add-contact breaks
  symmetry on every well-formed table.
- `Gate` (`gate.dfy`) models the `auth` middleware. The chain goes from
  cookie to token to user lookup, and it ends either in a status code or in
  `next` with the user.

Notes on what the code does:
- Sockets do not join a presence set at the handshake. They join only the
  room named in an explicit `register` event, and that name can be any string.
- Signalling goes to everyone in room `to` except the emitting socket. This
  includes the sender's other sockets if they are in that room.
- Chat content is not checked for emptiness.
- A failed save is only logged. Nothing is reported back to the sender.
- The handshake does not look the user up.
- History is sorted by timestamp alone. Ties are not broken by id.

## Model

| member | source | states |
|---|---|---|
| PathValidation.ValidatePath | server.js:20-35 | A non-string is rejected, and it is the only input rejected as not-a-string. A path starting with `http://` or `https://` is rejected as a full URL. An accepted path is returned unchanged. |
| PathValidation.ParamMatchesFrom | server.js:27-28 | Every match of the global `:[^/]+` scan starts with ':', is at least two characters long and contains no '/'. |
| PathValidation.NoNameMissing | server.js:29-33 | The loop never finds a match whose `slice(1)` is empty, so the missing-parameter-name check can never fire. |
| PathValidation.ValidatePathAcceptsExactlyNonUrls | server.js:24-34 | A string path is accepted (and returned unchanged) exactly when it is not a full URL; otherwise it is rejected as a full URL. The missing-parameter-name error never occurs. |
| Relay.Handshake | server.js:145-158 | A socket is admitted if and only if its token is present, non-empty and accepted by the verifier. A missing token is refused with NoToken and a rejected token with InvalidToken. On admission, `socket.userId` is the decoded id, other sockets keep their identities, and the rooms and log are untouched. |
| Relay.Register | server.js:163-166 | The socket joins the named room and no other room changes. Nothing compares the room name with the socket's identity. Well-formedness is kept. |
| Relay.Logout | server.js:207-210 | The socket leaves the named room, a room left empty disappears, and no other room changes. Well-formedness is kept. |
| Relay.RegisterLetsAnySocketListen | server.js:163-166 | A socket whose identity differs from user `u` can still `register(u)`. After that, every message saved for `u` reaches it. |
| Relay.LogoutOfUnjoinedRoomIsNoop | server.js:207-210 | Leaving a room the socket is not in leaves the state unchanged. |
| Relay.LogoutUndoesRegister | server.js:207-210 | `register(u)` followed by `logout({userId: u})` restores the state exactly, provided the socket was not already in room `u`. |
| Relay.SendMessage | server.js:168-183 | Something is emitted if and only if there is a payload and `save` succeeded. Otherwise the log is unchanged and nothing is emitted. On success, exactly one message is appended with a fresh id, the sender set to the socket's handshake identity, and the payload's receiver and content. Every emit carries that stored message. Rooms and identities are unchanged. |
| Relay.SendMessageReachesBothRooms | server.js:178-179 | A saved message reaches a socket if and only if it is in room `receiver` or in the sender's room. It reaches the socket twice if and only if the socket is in both rooms. |
| Relay.SenderIsHandshakeIdentity | server.js:170-176 | A `sender` field in the payload has no effect on the outcome. |
| Relay.Signalling | server.js:185-205 | Each signalling event reaches every socket in room `to` except the emitting socket, exactly once each. It forwards that event's own data, and it leaves the state (and so the log) untouched. |
| Relay.SignalToEmptyRoomReachesNobody | server.js:185-205 | A signal to a room with no members reaches no socket and changes nothing. |
| Relay.Deliveries | server.js:178-179 | The number of emits that reach a socket is zero exactly when no emit targets it. |
| Relay.Forwarded | server.js:185-205 | Each signal is re-emitted under its own event name. `offer` carries the offer and `to`, `answer` the answer, `iceCandidate` the candidate, and `incomingCall` carries `from` and `to`. |
| Relay.Handle | server.js:160-210 | A signalling or logout event without a payload throws, because the handler destructures or reads a field of `undefined`. Those are the only events that throw. Every other event keeps socket identities and well-formedness, and the log only grows. Only `sendMessage` can change the log. |
| Relay.Apply | server.js:145-210 | One connection attempt or one event keeps the state well formed and only appends to the log. Anything other than a chat message leaves the log unchanged. An admitted connection gives the handshake's state. A refused connection, a connection reusing an admitted socket id, an event on a socket that was never admitted and a handler that throws all leave the state exactly as it was. |
| Relay.RunPreservesWellFormed | server.js:145-210 | After any sequence of connections and events, rooms are non-empty and hold only admitted sockets, message ids match log positions, and the log extends the starting log. |
| Relay.ReachableStatesWellFormed | server.js:145-210 | Every state reachable from the empty server by connections and events is well formed. |
| Relay.SignallingIsNeverStored | server.js:185-205 | A run without chat messages leaves the log exactly as it was. |
| Relay.SendMessageKeepsTimeOrder | server.js:172-177 | If the clock never runs backwards, the log stays in non-decreasing timestamp order. |
| History.SendResponse | controllers/chatController.js:3-6 | The reply has the given status. The body holds `success`, `message` and every key of `data`. The `message` field is the text, or null when none is given. A `success` key in `data` overrides the flag, because the spread comes after it. Every other key of `data` is kept as is. |
| History.Conversation | controllers/chatController.js:16-20 | The result holds exactly the log's messages from me to the contact or from the contact to me, with the same multiplicities as the log. |
| History.ConversationKeepsTimeOrder | controllers/chatController.js:16-20 | Filtering a log that is in timestamp order gives a conversation in timestamp order. |
| History.SortByTimestamp | controllers/chatController.js:21 | The result is in ascending timestamp order and is a permutation of the input. |
| History.InsertKeepsTimeOrder | controllers/chatController.js:21 | Inserting into a timestamp-ordered sequence keeps it ordered. |
| History.GetMessages | controllers/chatController.js:8-29 | A missing contact id gives 400 with `success: false` and no data. A store failure gives 500 with the error message. Status is 200 exactly when the contact id is present and the query succeeds, and then the list is sorted ascending by timestamp and holds exactly the conversation's messages with their multiplicities. `success` is true exactly on 200. |
| History.MissingContactDoesNotReadLog | controllers/chatController.js:12-14 | The 400 reply for a missing contact id is the same whatever the log holds. |
| History.EmptyConversationIsOk | controllers/chatController.js:16-24 | A conversation with no messages gives 200 with an empty list. |
| History.OrderedArrangementIsUnique | controllers/chatController.js:21 | When the timestamps are all distinct, there is only one ascending arrangement of a multiset of messages. So any sort that meets the sort contract returns the same list. |
| History.ConversationKeepsStrictOrder | controllers/chatController.js:16-20 | Filtering a log with strictly increasing timestamps gives a conversation with strictly increasing timestamps. |
| History.HistoryFollowsLogOrder | controllers/chatController.js:16-24 | For a log with strictly increasing timestamps, the history returned is the conversation in log order. This follows from the sort contract alone, not from the model's handling of ties. |
| Accounts.IndexOfEmail | controllers/authController.js:12 | Returns the first user with that email, or `None` when no user has it. |
| Accounts.RegisterUser | controllers/authController.js:6-28 | An empty email or password gives 400. A taken email gives 400. Any reply other than 201 leaves the table unchanged and issues no token. 201 happens exactly when both fields are present, the store is up, the email is free and the new id is unused. In that case exactly one user with no contacts is appended and a token is issued for it. `TableOk` is preserved. |
| Accounts.RegisterKeepsTableOk | controllers/authController.js:16 | Appending a user with a fresh id, a fresh email and no contacts preserves unique ids and emails, sound contacts and symmetry. |
| Accounts.IndexOfId | middleware/auth.js:20 | Returns a position holding a user with that id, or `None` when no user has it. |
| Accounts.LoginUser | controllers/authController.js:31-48 | Status is 200 exactly when the store is up, a user has the email, a password is given and it matches. A 200 issues a token for that user and returns their id, email and contacts. The reply is the 500 server error exactly when the store is down or a known email comes without a password, which bcrypt rejects. Every other failure is the same 401 "Invalid credentials". |
| Accounts.LoginFailuresLookAlike | controllers/authController.js:36-37 | An unknown email and a known email with a wrong password produce identical 401 replies. |
| Accounts.MissingPasswordRevealsAccount | controllers/authController.js:34-46 | Without a password, a registered email gets 500 and an unknown email gets 401, so the two can be told apart. |
| Accounts.Linked | controllers/authController.js:85-86 | Only the two contact lists change. The caller's list keeps its old entries and gains the contact's id at the end, and the contact's list gains the caller's id at the end. |
| Accounts.AddContact | controllers/authController.js:70-103 | An unknown email gives 404, your own email gives 400, and a contact already in your list gives 400; each of these leaves the table unchanged. Status is 200 exactly when the store is up, these guards pass and both saves land. When the guards pass and a save fails, the reply is a 500. Each record then holds its linked version if its own save landed and its old version otherwise, and no other record changes. `TableOk` is preserved when the two saves agree. |
| Accounts.LinkKeepsContactsSound | controllers/authController.js:79-86 | After the guard, the two pushed ids exist, are not the record's own id, and were not in the list already. |
| Accounts.LinkKeepsSymmetry | controllers/authController.js:85-86 | Linking two distinct users keeps the contact relation symmetric. |
| Accounts.LinkKeepsTableOk | controllers/authController.js:85-88 | A successful add-contact preserves the whole table invariant. |
| Accounts.PartialSaveBreaksSymmetry | controllers/authController.js:85-88 | The two saves are independent. On every well-formed table where the guards pass, if the caller's save lands and the contact's fails, the reply is a 500 and the contact relation is no longer symmetric. |
| Accounts.RefreshToken | controllers/authController.js:121-135 | A missing cookie gives 401 and a rejected token gives 403. Status is 200 exactly when the token verifies, and then a new token is issued for the decoded id. |
| Gate.Auth | middleware/auth.js:4-34 | The chain ends in exactly one outcome. A missing cookie gives 401, a rejected token 401, a store failure 500 and an unknown id 404. `next` is reached if and only if every check passes, and then `req.user` is that user's record without the password. |

## Left out

- JWT signing and verification are not modelled. The verifier is an oracle, and every exception maps to `None`, as in config/jwtToken.js. Tokens issued by this code always carry an `id`, so a verified payload without one is not modelled.
- bcrypt hashing and the `pre('save')` hook are not modelled. The stored password is opaque, and login compares through the oracle `matches(plain, stored)`.
- Mongoose and MongoDB are reduced to boolean oracles (`storeUp`, `saved`, `savedMe`, `savedContact`) plus a caller-supplied new id. models/Message.js is not part of this model: the message `timestamp` is taken to be the clock reading at save time, and a message's `_id` is its log position.
- The socket.io transport, the Node event loop and concurrency are not modelled. Each handler is one atomic step.
- socket.io gives every connection a fresh socket id. A connection that reuses an admitted id cannot happen, so `Relay.Apply` drops it.
- The `disconnect` handler is not modelled because it only logs. socket.io's own room cleanup on disconnect is also left out, as is the room every socket gets under its own socket id; both happen inside socket.io.
- The handshake's `catch` branch is not modelled. The verifier never throws, so it cannot be reached.
- Express bootstrap, CORS, helmet, morgan, the rate limiter, cookie options, the `app.use`/`app.get` overrides and the route-listing loop are not modelled.
- The routes files are not modelled, nor are `getCurrentUser`, `logoutUser` and the error middleware. They are wiring or response formatting.
- Contacts are modelled as user ids, not as the `{_id, email}` objects the controller pushes.
- Request fields are modelled as strings, with an absent field standing as `""`. The exceptions are the login password, the chat and signalling payloads and the logout argument, which are optional. Numbers, objects or arrays in a JSON body, and `register`/`logout` with a non-string room, are not modelled.
- Relay.Handle: a signalling or logout event without a payload is modelled as a throw that leaves the state unchanged. What socket.io and Node do with the uncaught `TypeError` afterwards is not modelled. A payload that is present but lacks `to` is not modelled either.
- Accounts.LoginUser: an absent email is modelled as `""`. What Mongoose does with an `undefined` filter value is not modelled.
- A failed user lookup on the HTTP side is a single `storeUp` flag. It is checked before the first query.
- Logging (`console.log`/`console.error`) is not modelled.
- PathValidation.ParamMatchesFrom: its contract states the shape of every match (a leading ':', at least two characters, no '/'). It does not state that the list equals the regular expression's match list; the function body is the model of that scan.
- History.SortByTimestamp: MongoDB leaves the order of equal timestamps unspecified. The model keeps log order among ties, and its contract promises only sortedness and permutation, which hold for any tie order. No property of the returned history depends on the model's tie order: History.HistoryFollowsLogOrder assumes distinct timestamps.
