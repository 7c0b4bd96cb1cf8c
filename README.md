# realtime_chat — a Dafny model of the chat server's session engine

This project models the core of a small real-time chat system: a Node.js
server (Express routes plus a socket.io event engine over MongoDB) and the
React components of its web client that consume the server's events.

What is modelled, module by module:

- `Session` (session.dfy): the socket.io engine of `server/server.js`. It covers:
  - the handshake check;
  - the presence registry `roomUsers` (room → insertion-ordered set of usernames);
  - the per-socket fields `data.user` and `data.room`;
  - the socket.io room relation used for broadcasts;
  - the append-only message store;
  - every event the server emits, each with its recipients.

  The handlers `joinRoom`, `chatMessage`, `typing` and `disconnect` are
  state-transition functions on a `State` value. An invariant `Inv` holds:
  - no room maps to an empty set;
  - no name is listed twice;
  - every socket is in exactly the socket.io room its `data.room` names;
  - every listed name belongs to a connected socket in that room;
  - stored ids are positions (the model's stand-in for ObjectIds, see
    "## Left out").

  The class `Session.ChatServer` performs the same handlers in place, field by
  field, as the server mutates its `Map`, its `Set`s and `socket.data`. Each
  method is proved to produce exactly the state the transition function
  describes, and each event handler (and the constructor) to keep the
  invariant.
- `History` (history.dfy): the replay query `find({room}).sort({createdAt: -1}).limit(n)`
  followed by `reverse()`, used both on join (n = 50) and by the REST route
  `/rooms/:room/messages` (n = `min(parseInt(limit), 200)`, default 50).
- `Cors` (cors.dfy): parsing of the comma-separated `CLIENT_ORIGIN` setting,
  and the HTTP CORS origin callback.
- `AuthRoutes` (auth_routes.dfy): `/register` and `/login` as guard chains
  over a user table, with the username trimmed and length-checked as the
  user schema does it; `UserStore.PostRegister` performs a registration on a
  stored table.
- `RequireAuth` (require_auth.dfy): Bearer-token extraction and the
  `requireAuth` middleware. The request object is the class `Exchange`, with
  `req.user`, the response sent and the number of `next()` calls.
- `ChatRoom`, `MessageList` (chat_room.dfy, message_list.dfy): the web
  client's reducers, covering:
  - the message append and the online list;
  - the typing set and the typing indicator text;
  - the room-name guard;
  - the message filter, the React key and the CSS class.
- `Wire` (wire.dfy): the JSON form of a stored message as clients receive it.
- `Delivery` (delivery.dfy): lemmas that connect the server's events to the
  client's view of them.
- `JsString`, `OrderedSet`, `Tokens`, `Wrappers` (strings.dfy,
  ordered_set.dfy, tokens.dfy): JavaScript's `trim`, UTF-16 `length`,
  `split`/`join`, `startsWith` and number-to-text conversion; `Set` as an
  insertion-ordered sequence without duplicates; the token collaborator's
  types; `Option`.

Conventions:

- A JavaScript string field that may be absent is modelled as a `string`,
  with `""` standing for both absent and empty, since the code only tests
  truthiness.
- The bcrypt and JWT libraries are parameters: `Tokens.Verifier` and
  `AuthRoutes.Crypto`.
- The database's clock is a parameter (`now`).
- Which library or database call throws is an argument (`historyFails`,
  `storeFails`, `AuthRoutes.Fault`).
- socket.io removes a closing socket from all of its rooms *before* the
  `disconnect` handler runs. So the leaving socket does not receive its own
  disconnect snapshot.

Where the intended behaviour and the code differ, the model follows the
code:

- `joinRoom` broadcasts `onlineUsers` to the new room first and sends
  `chatHistory` to the joiner afterwards (`Session.JoinRoomEvents`).
- When the store rejects a chat message, the code reports nothing to the
  sender. The model ends the handler there, leaving the state, outbox
  included, unchanged (`Session.ChatMessageSpec`); what the unhandled
  rejection does to the process is left out (see below).
- Running the disconnect handler twice does not make it a no-op. `data.room`
  survives, so a second run sends a second snapshot
  (`Session.DisconnectTwiceSnapshotsTwice`).
- Presence is keyed by username, not by connection
  (`Session.SharedUsernameLeavesEarly`).
- Re-joining the current room is not silent. The name moves to the end of the
  list and the room receives two snapshots (`Session.RejoinSameRoom`,
  `Session.RejoinLeaveSnapshot`).

## Model

| member | source | states |
|---|---|---|
| Session.Authenticate | server/server.js:153-163 | accepted exactly when the token is present and verifies, with the decoded identity; "Missing auth token" for no token, "Invalid auth token" when verification fails |
| Session.ConnectStep | server/server.js:153-163 | the handshake transition; its effect is stated by `Session.ConnectSpec` |
| Session.ConnectSpec | server/server.js:153-163 | a refused handshake changes nothing; an accepted one binds the decoded identity to the socket with no room and changes nothing else; the invariant is kept |
| Session.ChatServer.Handshake | server/server.js:153-163 | performs the handshake in place: the result is `Authenticate`, the new state is the connect transition, and the invariant is kept |
| Session.Members | server/server.js:185 | the recipients of `io.to(room)`: exactly the sockets whose socket.io rooms include the room |
| Session.GetOnline | server/server.js:167 | `getOnline`: the room's list as an array, or empty for an unknown room; its properties are stated by `Session.RemoveUser` and `Session.AddUser` |
| Session.RemoveUser | server/server.js:180-184 | `set.delete` plus `roomUsers.delete` once empty: only that room's list changes, it loses exactly that name, and a room left in the map has a non-empty list |
| Session.AddUser | server/server.js:191-192 | the set is created when missing, and only that room's list changes, by `Set.add` of the name |
| Session.WellFormedAfterRemove | server/server.js:180-184 | removing a name keeps every room's list non-empty, duplicate-free and free of "" |
| Session.WellFormedAfterAdd | server/server.js:191-192 | adding a non-empty name keeps every room's list non-empty, duplicate-free and free of "" |
| Session.SoundAfterLeave | server/server.js:179-184 | a socket leaving a room while its name leaves that room's list keeps every listed name backed by a connected member |
| Session.SoundAfterJoin | server/server.js:190-192 | a socket joining a room while its name is added keeps every listed name backed by a connected member |
| Session.SoundAfterDrop | server/server.js:224-236 | a socket in no room can leave the adapter without breaking presence soundness |
| Session.SoundAfterDataUpdate | server/server.js:189 | assigning `socket.data.room` does not affect presence soundness |
| Session.InitialInv | server/server.js:166 | the empty registry, with no sockets and an empty store, satisfies the invariant |
| Session.JoinRoomStep | server/server.js:172-198 | the `joinRoom` transition: guard, leave, enter, then history; stated by `Session.JoinRoomSpec`, `Session.JoinRoomEvents` and `Session.JoinRoomInv` |
| Session.LeaveIfPlaced | server/server.js:177-186 | the leave part runs only when `data.room` is set; stated by `Session.LeftState` |
| Session.LeavePrevious | server/server.js:178-185 | the leave part itself; stated by `Session.LeavePreviousSpec` |
| Session.EnterRoom | server/server.js:189-193 | the enter part; stated by `Session.EnterRoomSpec` |
| Session.SendHistory | server/server.js:196-197 | the history part; stated by `Session.SendHistorySpec` |
| Session.JoinRoomIgnored | server/server.js:172-174 | `joinRoom` without a room name or without a username changes nothing |
| Session.JoinRoomInv | server/server.js:172-198 | `joinRoom` keeps the invariant |
| Session.LeavePreviousInv | server/server.js:177-186 | leaving the previous room gives a valid state once the room field is cleared |
| Session.EnterRoomInv | server/server.js:189-193 | entering a room from no room keeps the invariant |
| Session.EnterAfterClear | server/server.js:189 | entering overwrites `data.room`, so clearing it before makes no difference |
| Session.LeavePreviousSpec | server/server.js:177-186 | the socket leaves its room; the name leaves that room's list and no other list changes; the room gets one snapshot; data and store are untouched |
| Session.LeftState | server/server.js:177-186 | after the leave part the socket is in no socket.io room, the previous room no longer lists the name, and exactly the leave snapshot (if any) was sent |
| Session.EnterRoomSpec | server/server.js:189-193 | `data.room` is set, the socket joins the room, that room's list gains the name and no other list changes, and the room gets one snapshot |
| Session.SendHistorySpec | server/server.js:195-197 | the history step adds the replay for the joiner alone and changes nothing else; nothing is sent when the query fails |
| Session.JoinRoomSpec | server/server.js:172-198 | after a join `data.room` is the new room, the socket is in that socket.io room and no other, and the store is untouched |
| Session.JoinRoomPresence | server/server.js:172-193 | after a join the name is listed in the new room; coming from another room, the name and the socket are gone from it |
| Session.JoinRoomEvents | server/server.js:172-198 | the events of a join in order: leave snapshot to the old room, snapshot to the new room (joiner included), then the 50-message replay to the joiner alone unless the query fails |
| Session.JoinRoomUsers | server/server.js:177-192 | the registry after a join is the old one with the name removed from the previous room and then added to the new one |
| Session.RejoinSameRoom | server/server.js:177-193 | re-joining the current room moves the name to the end of its list and leaves the socket.io rooms as they were |
| Session.ReaddUser | server/server.js:182-192 | deleting and re-adding a name moves it to the end of the room's list |
| Session.RejoinLeaveSnapshot | server/server.js:179-185 | on a re-join the first snapshot goes to the room's other members and lacks the name |
| Session.ChatMessageStep | server/server.js:200-215 | the `chatMessage` transition; stated by `Session.ChatMessageSpec` |
| Session.AcceptedText | server/server.js:205 | the check on the trimmed text: non-empty and at most 1000 UTF-16 code units; stated by `Session.LongestTextAccepted`, `Session.OverlongTextDropped` and `Session.BlankTextDropped` |
| Session.ChatMessageSpec | server/server.js:200-214 | stored iff username, room, trimmed length 1..1000 and the store succeeds; then exactly one record (next id, room, name, trimmed text, time) and one event to every room member, sender included; otherwise nothing changes; invariant kept |
| Session.LongestTextAccepted | server/server.js:204-205 | a text of exactly 1000 UTF-16 code units without surrounding whitespace is accepted unchanged, whether or not it has surrogate pairs |
| Session.OverlongTextDropped | server/server.js:204-205 | a text of more than 1000 UTF-16 code units without surrounding whitespace is dropped, even with fewer than 1001 characters |
| Session.BlankTextDropped | server/server.js:204-205 | a text made only of whitespace, the empty text included, is dropped |
| Session.Truthy | server/server.js:221 | `!!isTyping`: false exactly for `undefined`, `null`, `false`, `0` and `""` (numbers are integers here, so `NaN` is not represented); used by `Session.TypingSpec` |
| Session.TypingStep | server/server.js:217-222 | the `typing` transition; stated by `Session.TypingSpec` |
| Session.TypingSpec | server/server.js:217-222 | no room: nothing; otherwise exactly one event with the name and `!!isTyping` to the room's sockets except the sender; nothing else changes; invariant kept |
| Session.DisconnectStep | server/server.js:224-236 | the `disconnect` transition, after socket.io has removed the socket from its rooms; stated by `Session.DisconnectSpec` |
| Session.DisconnectSpec | server/server.js:224-234 | the socket leaves the adapter; with a room, the name leaves that room's list (deleted once empty), other lists are unchanged, and the remaining members get one snapshot; without a room, no presence change and no event |
| Session.DisconnectTwiceSnapshotsTwice | server/server.js:224-234 | running the handler twice for a socket in a room sends the remaining members two identical `onlineUsers` snapshots; the second run changes the room's list no further |
| Session.SharedUsernameLeavesEarly | server/server.js:227-233 | when one of two sockets of the same user disconnects, the name leaves the list while the other socket is still in the room |
| Session.OnlineMeansConnected | server/server.js:166-167 | every listed name belongs to a connected socket that is in the room |
| Session.AtMostOneRoom | server/server.js:177-190 | a connected socket is in at most one socket.io room, the one `data.room` names |
| Session.ChatServer.constructor | server/server.js:166 | a fresh server has the initial state, which is valid |
| Session.ChatServer.Unlist | server/server.js:180-184 | the in-place `set.delete` and `roomUsers.delete` give `RemoveUser` of the old registry; no other field changes |
| Session.ChatServer.List | server/server.js:191-192 | the in-place set creation and `add` give `AddUser` of the old registry; no other field changes |
| Session.ChatServer.Leave | server/server.js:177-186 | the in-place leave gives the leave transition of the old state |
| Session.ChatServer.Enter | server/server.js:189-193 | the in-place enter gives the enter transition of the old state |
| Session.ChatServer.OnJoinRoom | server/server.js:172-198 | the handler in place gives the `joinRoom` transition of the old state and keeps the invariant |
| Session.ChatServer.OnChatMessage | server/server.js:200-215 | the handler in place gives the `chatMessage` transition of the old state and keeps the invariant |
| Session.ChatServer.OnTyping | server/server.js:217-222 | the handler in place gives the `typing` transition of the old state and keeps the invariant |
| Session.ChatServer.OnDisconnect | server/server.js:224-236 | the handler in place gives the disconnect transition of the old state and keeps the invariant |
| OrderedSet.Add | server/server.js:192 | `Set.add`: old elements keep their order, the result holds exactly the old elements and x, and stays duplicate-free |
| OrderedSet.Delete | server/server.js:182 | `Set.delete`: x is absent, every other element is kept, and it stays duplicate-free |
| OrderedSet.DeleteAbsent | server/server.js:182 | deleting an absent element changes nothing |
| OrderedSet.DeleteAt | server/server.js:182 | in a duplicate-free list, delete cuts out exactly the position holding x |
| OrderedSet.DeleteConcat | server/server.js:182 | delete keeps the relative order of what it keeps |
| OrderedSet.AddThenDelete | client/src/components/ChatRoom.js:39 | adding an absent element and then deleting it gives back the original |
| History.NotNewer | server/server.js:196 | the order `createdAt`, with ties broken by id; read by `History.SortNewestFirst` and `History.ReplayIsNewest` |
| History.InRoom | server/server.js:196 | the query `{ room }` returns only the room's messages, none added |
| History.InRoomComplete | server/server.js:196 | the query loses none of the room's messages |
| History.Insert | server/server.js:196 | one sort step keeps the order newest-first and adds exactly one element |
| History.SortNewestFirst | server/server.js:196 | `sort({createdAt: -1})` is a newest-first permutation of its input |
| History.Take | server/server.js:196 | `limit(n)` for positive n is the prefix of length min(n, size) |
| History.Reverse | server/server.js:197 | `reverse()` puts element i at position size-1-i |
| History.ReverseMultiset | server/server.js:197 | reversal is a permutation |
| History.Replay | server/server.js:196-197 | the query `find({room}).sort({createdAt: -1}).limit(n)` then `reverse()`; stated by `History.ReplayLength`, `History.ReplayFromRoom`, `History.ReplayOldestFirst` and `History.ReplayIsNewest` |
| History.ReplayLength | server/server.js:196-197 | the replay has min(limit, room size) messages |
| History.ReplayFromRoom | server/server.js:196-197 | every replayed message belongs to the room, and none is replayed more often than stored |
| History.ReplayOldestFirst | server/server.js:196-197 | the replay is delivered oldest-first |
| History.ReplayIsNewest | server/server.js:196-197 | the room's messages split into replayed and dropped, and nothing dropped is newer than anything replayed |
| History.JoinReplayIsRestDefault | server/server.js:140-142 | the join replay equals the REST history with the default limit |
| History.RestLimit | server/server.js:140 | the limit is the request when it is at most 200, exactly 200 above that, and 50 when the parameter is absent |
| History.DbLimit | server/server.js:141 | the database's `limit(k)`: 0 returns everything, and any other k the first min(abs(k), size) documents |
| History.RestHistoryAsWritten | server/server.js:140-142 | the REST route as written; stated by `History.RestCapBypassed` and `History.RestHistoryAgrees` |
| History.RestCapBypassed | server/server.js:140-142 | as written, `limit=0` returns the room's whole history and `limit=-k` up to k messages |
| History.ClampedRestLimit | server/server.js:140 | the intended limit is in 1..200; it equals the route's limit for positive requests and 50 otherwise |
| History.RestHistory | server/server.js:140-142 | the REST route with the intended limit, which is a replay; stated by `History.RestHistoryBounded` |
| History.RestHistoryBounded | server/server.js:140-142 | the intended route never returns more than 200 messages |
| History.RestHistoryAgrees | server/server.js:140-142 | for an absent or positive limit the intended route and the route as written agree |
| JsString.Trim | server/server.js:204 | `trim` never lengthens and leaves no whitespace at either end |
| JsString.TrimIsSlice | server/server.js:204 | `trim` cuts out a middle slice, and everything it cuts is whitespace |
| JsString.TrimIdempotent | server/server.js:21 | `trim` is idempotent |
| JsString.TrimEmptyIff | client/src/components/ChatRoom.js:64 | `trim` gives "" exactly for all-whitespace input |
| JsString.Utf16Length | server/server.js:205 | the JavaScript length lies between the number of characters and twice that, and equals the number of characters iff no character lies above U+FFFF |
| JsString.Utf16LengthOfBmp | server/server.js:205 | for text in the Basic Multilingual Plane the length is the number of characters |
| JsString.Utf16LengthOfChar | server/server.js:205 | one character counts one code unit, or two above U+FFFF |
| JsString.Utf16LengthConcat | server/server.js:205 | the length of a concatenation is the sum of the lengths |
| JsString.Split | server/server.js:21 | `split(c)` gives at least one part and no part holds c |
| JsString.JoinSplit | server/server.js:21 | joining the parts of a split with the separator gives back the string |
| JsString.SplitJoin | server/server.js:21 | splitting a join of separator-free parts gives back the parts |
| JsString.NatToString | client/src/components/ChatRoom.js:59 | a number renders as a non-empty string of decimal digits whose value is the number, with no leading zero except for 0 itself |
| JsString.NatToStringInjective | client/src/components/MessageList.js:21 | distinct numbers render differently |
| Cors.AllowedOrigins | server/server.js:21 | `CLIENT_ORIGIN.split(',').map(s => s.trim()).filter(Boolean)`; stated by `Cors.CleanedEntries` and `Cors.AllowedOriginsSpec` |
| Cors.TrimAll | server/server.js:21 | `.map(s => s.trim())` trims every part, one for one |
| Cors.NonEmpty | server/server.js:21 | `.filter(Boolean)` keeps exactly the non-empty parts |
| Cors.CleanedEntries | server/server.js:21 | the cleaned list holds exactly the non-empty trimmed parts, and each is trimmed and free of the separator |
| Cors.AllowedOriginsSpec | server/server.js:21 | an origin is allowed iff it is the non-empty trimmed form of an entry; every allowed origin is trimmed and comma-free |
| Cors.SplitWithoutSeparator | server/server.js:21 | a setting without a comma is a single entry |
| Cors.SingleOrigin | server/server.js:21 | a clean single-entry setting allows exactly that origin |
| Cors.DefaultAllowedOrigins | server/server.js:17-21 | with `CLIENT_ORIGIN` unset only `http://localhost:3000` is allowed |
| Cors.CheckOrigin | server/server.js:78-82 | allowed iff the Origin header is absent or listed; otherwise blocked with "CORS blocked for " + origin |
| Cors.PaddedOriginBlocked | server/server.js:78-82 | an Origin with surrounding whitespace is never admitted |
| AuthRoutes.FindUser | server/routes/auth.js:18 | `findOne({ username })` finds an account iff one has that name, and returns an account with that name from the table |
| AuthRoutes.RegisterValidation | server/routes/auth.js:14-16 | a 400 message is produced iff a field is missing, the username is under 3 code units or the password under 6 |
| AuthRoutes.Register | server/routes/auth.js:11-30 | the `/register` handler with its reply and new table; stated by `AuthRoutes.RegisterGuardOrder`, `AuthRoutes.RegisterTaken`, `AuthRoutes.RegisterStores` and `AuthRoutes.RegisterReply` |
| AuthRoutes.RegisterGuardOrder | server/routes/auth.js:14-16 | the three 400 checks run in order, each with its own message, before the table is read, and leave the table unchanged |
| AuthRoutes.RegisterTaken | server/routes/auth.js:18-19 | a username whose trimmed form is taken gives 409 "Username already taken" and the table unchanged |
| AuthRoutes.RegisterStores | server/routes/auth.js:21-22 | the table stays the same or gains exactly one account at the end: next id, trimmed name, trimmed email and `hash(password)`; it gains one exactly when the request creates it |
| AuthRoutes.RegisterReply | server/routes/auth.js:18-28 | success iff the account is created and the token signed; the token is over the new id and trimmed name; the reply shows that account; after the guards a throwing lookup, or for a free name a throwing hash, create or sign or a name the schema rejects, gives 500 "Registration failed" |
| AuthRoutes.SchemaName | server/models/User.js:5 | the schema's `minlength: 3` and `maxlength: 24`, measured in code units on the trimmed name; stated by `AuthRoutes.ShortAfterTrimRefused` and `AuthRoutes.RegisterStores` |
| AuthRoutes.ShortAfterTrimRefused | server/models/User.js:5 | a name that passes the route's length guard but is under 3 code units once trimmed gives 500 and no account |
| AuthRoutes.PaddedShortName | server/models/User.js:5 | " ab" passes the route's guards and trims to the two-character "ab" |
| AuthRoutes.RegisterKeepsTableValid | server/routes/auth.js:18-22 | registration keeps ids equal to positions and usernames unique |
| AuthRoutes.UserStore.PostRegister | server/routes/auth.js:11-30 | the stored table is updated as `Register` says, the reply is its reply, and the table stays valid |
| AuthRoutes.Login | server/routes/auth.js:32-49 | the `/login` handler; stated by `AuthRoutes.LoginMissingField`, `AuthRoutes.LoginOutcomes` and `AuthRoutes.LoginSessionIsStoredUser` |
| AuthRoutes.LoginMissingField | server/routes/auth.js:35 | a missing field gives 400 before the table is read |
| AuthRoutes.LoginOutcomes | server/routes/auth.js:37-47 | an unknown name and a wrong password both give 401 "Invalid credentials"; success iff the trimmed name is known, the password matches and no call fails; a throwing lookup, a throwing compare for a known name and a throwing sign after a match give 500 "Login failed" |
| AuthRoutes.LoginSessionIsStoredUser | server/routes/auth.js:43-44 | in a valid table a login session names the stored account with the trimmed username, by id and name |
| AuthRoutes.FindAfterAppend | server/routes/auth.js:37 | a name new to the table finds the account appended with it |
| AuthRoutes.RegisterThenLogin | server/routes/auth.js:18-44 | an account just created logs in with the same password and gets the same reply back |
| RequireAuth.BearerToken | server/auth.js:25-26 | with the exact prefix "Bearer " the header is the prefix followed by the token; otherwise the token is "" |
| RequireAuth.BearerTokenOfPrefixed | server/auth.js:26 | the token of "Bearer " + t is t |
| RequireAuth.Authorize | server/auth.js:24-35 | pass iff the token is non-empty and verifies, with the decoded claims; "Missing token" iff the token is empty; "Invalid token" iff it does not verify |
| RequireAuth.MissingTokenCases | server/auth.js:25-27 | a header without the exact prefix, an absent one, and exactly "Bearer " all give "Missing token" |
| RequireAuth.AuthorizePrefixed | server/auth.js:26-34 | a prefixed token is handed to the verifier unchanged |
| RequireAuth.Exchange.RequireAuth | server/auth.js:24-35 | on success `req.user` is the claims, `next` runs once and nothing is sent; otherwise 401 with the message, `next` not called, `req.user` untouched |
| RequireAuth.Exchange.Me | server/routes/auth.js:51-54 | `/me` answers 200 with `req.user` and changes nothing else |
| Wire.Renderable | client/src/components/MessageList.js:7-9 | the list's filter on one element: present, with non-empty text and username; stated by `MessageList.Keep` |
| Wire.ToWire | server/server.js:208-214 | the broadcast payload carries the record's room, username and text, a non-empty id and a timestamp |
| Wire.ToWireInjective | server/server.js:208-214 | distinct records are sent differently |
| MessageList.Keep | client/src/components/MessageList.js:7-9 | the filter keeps exactly the renderable elements |
| MessageList.Clean | client/src/components/MessageList.js:7-9 | a non-array gives no messages; every shown message has text and username |
| MessageList.KeepConcat | client/src/components/MessageList.js:7-9 | the filter distributes over concatenation, so it keeps order |
| MessageList.KeepAllRenderable | client/src/components/MessageList.js:7-9 | an array of renderable messages is shown whole and in order |
| MessageList.Key | client/src/components/MessageList.js:21 | the React key: the id, or the name, time and text joined by "-"; stated by `MessageList.ServerKeysDistinct` and `MessageList.FallbackKeyCollides` |
| MessageList.ServerKeysDistinct | client/src/components/MessageList.js:21 | server messages are keyed by their id, so distinct records have distinct keys |
| MessageList.FallbackKeyCollides | client/src/components/MessageList.js:21 | without ids, two messages alike in name, time and text share a key |
| MessageList.ClassName | client/src/components/MessageList.js:22 | the class is "msg me" iff the message is the viewer's, "msg " otherwise |
| ChatRoom.OnChatMessage | client/src/components/ChatRoom.js:29-32 | a renderable message is appended at the end; anything else is ignored |
| ChatRoom.ChatMessageShown | client/src/components/ChatRoom.js:29-32 | the room holds only renderable messages, and the list shows all of them in arrival order |
| ChatRoom.OnOnlineUsers | client/src/components/ChatRoom.js:33-35 | an array replaces the list; anything else empties it |
| ChatRoom.OnTyping | client/src/components/ChatRoom.js:36-41 | the name is in the new set iff `isTyping`; other names are unchanged; no duplicates appear |
| ChatRoom.TypingStartStop | client/src/components/ChatRoom.js:36-41 | starting and then stopping gives the set back |
| ChatRoom.TypingRepeat | client/src/components/ChatRoom.js:36-41 | a repeated typing event changes nothing the second time |
| ChatRoom.Others | client/src/components/ChatRoom.js:56 | `.filter(u => u !== username)`; stated by `ChatRoom.OthersMembers`, `ChatRoom.OthersConcat` and `ChatRoom.OthersAfterDelete` |
| ChatRoom.Indicator | client/src/components/ChatRoom.js:57-59 | the three forms of the text for a list of other typers; stated by `ChatRoom.IndicatorMany` and `ChatRoom.TypingTextForms` |
| ChatRoom.TypingText | client/src/components/ChatRoom.js:55-60 | `typingText`, the indicator for everyone but the viewer; stated by `ChatRoom.TypingTextEmptyIff`, `ChatRoom.TypingTextForms` and `ChatRoom.OwnTypingIgnored` |
| ChatRoom.OthersMembers | client/src/components/ChatRoom.js:56 | the filter keeps exactly the names other than the viewer's |
| ChatRoom.OthersConcat | client/src/components/ChatRoom.js:56 | the filter keeps order |
| ChatRoom.OthersAfterDelete | client/src/components/ChatRoom.js:56 | removing the viewer's name first does not change the filtered list |
| ChatRoom.TypingTextEmptyIff | client/src/components/ChatRoom.js:55-57 | the text is "" iff no one but the viewer is typing |
| ChatRoom.TypingTextForms | client/src/components/ChatRoom.js:58-59 | one other typer: "u is typing..."; two: "a, b are typing..."; more: "a, b +k are typing..." where k is decimal without a leading zero and its value is count - 2 |
| ChatRoom.IndicatorMany | client/src/components/ChatRoom.js:59 | with more than two typers the text is "a, b +k are typing..." for the decimal form of k = count - 2 |
| ChatRoom.OwnTypingIgnored | client/src/components/ChatRoom.js:56 | the viewer's own typing events never change the viewer's indicator |
| ChatRoom.CreateRoom | client/src/components/ChatRoom.js:63-71 | a name is posted iff the input is not blank, and it is the trimmed input; the field is cleared when the fetch resolves and keeps what was typed when it rejects; a blank input posts nothing and stays as it is |
| Delivery.LogNoDup | server/server.js:207 | stored records are pairwise distinct |
| Delivery.BroadcastAppended | server/server.js:207-214 | an accepted message broadcasts one event carrying the trimmed text and the sender's name, and every receiving chat room appends it |
| Delivery.OnlineSnapshotShown | client/src/components/ChatRoom.js:33-35 | a client applying the server's `onlineUsers` snapshot for a room shows exactly the registry's list for it, duplicate-free and without "", and every name shown belongs to a connected socket in the room |
| Delivery.ReplayFromLog | server/server.js:196 | a replayed message is the stored record at the position its id names |
| Delivery.ReplayIdsDistinct | server/server.js:196-197 | no record is replayed twice |
| Delivery.HistoryRendersWithDistinctKeys | client/src/components/MessageList.js:7-21 | a replayed history passes the list's filter entirely and no two messages share a React key |

## Left out

- Transport and storage plumbing is not modelled: Express, socket.io,
  mongoose, dotenv and `server.listen`. Emits are outbox entries; the
  database is a sequence; awaited calls that can throw are explicit failure
  arguments.
- bcrypt and JWT are uninterpreted function parameters. Token expiry, secrets
  and salts rounds are not modelled; the salt bcrypt draws is an argument.
- `express-rate-limit` is left out: its state is a time window kept by the
  library.
- Concurrency is left out: interleavings across `await`s and between sockets
  are not modelled. Every event runs to completion before the next one.
- History.RestLimit: the query parameter is taken as already parsed. `parseInt`
  on non-numeric text gives NaN, and the database's behaviour for it is not
  modelled.
- Date formatting is left out (`toLocaleTimeString`, the client's
  `Date.now()` fallback): locale semantics.
- Wire.ToWire: the store's `_id` is a MongoDB ObjectId, serialized as 24 hex
  digits, and `createdAt` (set by the `timestamps` option) is a Date,
  serialized as ISO-8601 text. The model represents both as natural numbers:
  an id is the record's position in the store and a timestamp is a number
  from the clock parameter. Both are rendered as decimal text
  (`JsString.NatToString`). The proofs rely only on that rendering being
  non-empty and injective (`Wire.ToWireInjective`,
  `MessageList.ServerKeysDistinct`), not on its exact form.
- Payloads that are not strings are left out. A `room`, `text` or `username`
  of another JSON type is not modelled; string fields are `""` when absent.
  The one non-string value modelled is the `isTyping` flag (`Session.JsValue`).
- Session.Truthy: a numeric `isTyping` is an integer, so `NaN` and other
  floating-point values are not represented.
- socket.io's automatic room named by the socket id is left out. The chat
  code never addresses it.
- The `/rooms` directory endpoints and the `roomsUpdated` event are left out:
  no server code for them is part of this model.
- The user schema of server/models/User.js is modelled through its effects:
  - `trim: true` on the username: the store keeps the trimmed name, and
    `findOne` filters by it (the filter is cast through the same setter). So
    " alice" is refused with 409 when "alice" exists, and it is stored, signed
    and returned as "alice" otherwise.
  - `minlength: 3` and `maxlength: 24` on the trimmed name: a violation makes
    `create` throw, so the reply is 500 (`AuthRoutes.SchemaName`). The route's
    own guard measures the untrimmed name, so " ab" passes it and fails here.
  - `trim: true` on the email: the stored and returned email is trimmed.
  - The email's unique sparse index is not modelled by value. A duplicate
    email appears only as a failing create (`AuthRoutes.CreateFails`).
  - The username's unique index is never reached: the lookup before `create`
    refuses a taken name, and concurrent registrations are not modelled.
- History.NotNewer: the database leaves the order of messages with equal
  `createdAt` unspecified. The model breaks such ties by id, so
  `History.ReplayOldestFirst` and `History.ReplayIsNewest` are proved for
  that one admissible order. Another tie order can pick a different subset
  among messages created in the same millisecond.
- The duplicate copies of the auth routes (server/server.js:93-131) and of
  `requireAuth` (server/server.js:59-69) behave like the modelled ones in
  server/routes/auth.js and server/auth.js. They are not modelled twice.
- A rejected history query inside `joinRoom` is modelled as ending the
  handler after the snapshots. The unhandled promise rejection it causes is
  not modelled.
- Session.ChatMessageStep: a rejected `Message.create` is modelled as ending
  the handler with nothing stored or sent. In the code the rejection goes
  unhandled, because socket.io ignores the promise an async listener
  returns; under Node's default handling of unhandled rejections the process
  then exits, taking every socket and the `roomUsers` map with it. Process
  termination is not modelled.
- History.RestHistoryAsWritten: the REST route's awaited `Message.find` can
  reject, and the route has no `try`. Under Express 4 no reply is sent and
  the rejection goes unhandled as above; Express 5 passes it to its default
  error handler. The model has no failure for this query and describes only
  a query that succeeds.
- React rendering, effects, scrolling and timers are left out, as are the
  other client and mobile screens: they are presentation.

## Findings

| source | as written | input that shows it | evidently intended | confidence | as-written member | corrected member |
|---|---|---|---|---|---|---|
| server/server.js:140-142 | The limit is the smaller of the parsed `limit` parameter (default 50) and 200, then passed to `.limit(limit)`. The cap holds only for positive requests, because the database treats 0 as "no limit" and -k as at most k. | `GET /rooms/r/messages?limit=0` returns the room's entire history, however long; `?limit=-5` returns 5 messages | at most 200 messages for any request, with non-positive requests falling back to the default of 50 | not executed | History.RestCapBypassed | History.RestHistoryBounded |
