# cli-chat: a Dafny model of the chat server and client core

This project models the core of cli-chat. cli-chat is a TCP chat service: clients register or log in, join rooms under an admin-approval scheme, post to their room, send private messages and pass files through a shared upload store. The model covers three parts:

- **The server's event handlers** (`server/server.js`). The module-level tables at lines 6-15 are modelled together with each connection's `currentUser`, the upload directory and the credential store. There is one model of the `data` handler (lines 25-440) and one of the `end` handler (lines 442-468).
  - `ServerSpec` (`server_spec.dfy`) states each handler branch as a pure function. Each function takes the tables and a request, and returns either the new tables with the ordered list of socket writes, or `Crashed`. `Crashed` stands for the places where the JavaScript code dereferences a room that no longer exists and throws.
  - `Server.ChatServer` (`server.dfy`) holds the same tables as fields and updates them in place, one method per branch. Every write is appended to `outbox`. Each method is proved to leave exactly the state and the writes that the `ServerSpec` function gives, and the top-level handlers keep the invariant `ServerProps.Inv`.
  - `ServerProps` (`server_props.dfy`) proves what the handlers guarantee. This includes the invariant, the effect of each room operation, who receives a broadcast, and the ten-entry history window.
- **The credential store** (`server/auth.js`, module `Auth` in `auth.dfy`). `registerUser`, `userExists` and `validateUser` work over a map from names to `{password}` records.
- **The client's protocol logic** (`client/client.js`, module `Client` in `client.dfy`). This covers:
  - the buffer loop that cuts newline-terminated responses out of the byte stream (`Client.Receiver`, a class whose `buffer` field persists between `data` events);
  - the translation of a typed line into a request;
  - the client's decision on the server's AUTH answer.

The module `Session` (`session.dfy`) connects the two sides. A new connection's login enters the chat exactly when the server accepts the credentials, a registration never enters it, and a plain typed line ends up in the room's history.

Requests and responses (`Wire`, `wire.dfy`) are datatypes rather than JSON text. A missing `room` or `args` field is "" or [], which the server treats the same way as an absent field. A null `currentUser` is "". A lookup with an `undefined` key uses the string "undefined", as a JavaScript object does. This applies to keys only: where the code compares a looked-up value, as in `roomAdmins[room] !== currentUser`, a missing record equals no name at all, not even "undefined".

The model follows the code in three places where the code does not do what the system is meant to do:

- A FILE_UPLOAD is meant to be a room-only broadcast. The code announces the upload to every other connected client, signed in or not. The uploader does not need to be in a room.
- A SEND_FILE request is meant to pass a file to another user. The code has no branch for it: such a request, like any other type, gets the greeting `Hello from server!`.
- No error is meant to be fatal to the server, but an unhandled `TypeError` ends the process. Within the modelled state space three paths throw (the inputs outside it that throw are listed under "Left out"):
  - `join` when the user's recorded room has been deleted (`ServerProps.LastMemberQueuedElsewhereCrashes` shows how this state arises);
  - `leave` in that same state;
  - `approve` when the admin's room is gone (`ServerProps.ApproveIntoDeletedRoomCrashes`).

## Model

| member | source | states |
|---|---|---|
| Auth.UserExists | server/auth.js:25-28 | a name exists exactly when some password validates for it |
| Auth.ValidateUser | server/auth.js:30-33 | a pair validates only when the name has a record holding exactly that password |
| Auth.Register | server/auth.js:15-23 | registration succeeds exactly when the name does not exist; the name is in the store afterwards either way; no existing record changes; on success the new pair validates |
| Auth.CredentialStore.RegisterUser | server/auth.js:15-23 | the store after the call is `Register` of the store before; the result is true exactly when the name was not taken; on success the new pair validates |
| Auth.RegisterTakenName | server/auth.js:17-19 | a taken name is refused and the store is unchanged |
| Auth.RegisterFreshName | server/auth.js:20-22 | a fresh name is accepted; the store gains exactly that name with `{password}` and every other record is kept |
| Auth.RegisterThenValidate | server/auth.js:15-33 | after a successful registration the name exists and the pair validates |
| Auth.RegisterKeepsCredentials | server/auth.js:15-33 | registration never changes a stored password: a pair that validated still validates |
| Auth.ValidateRejects | server/auth.js:30-33 | an unknown name, or a known name with a different password, does not validate |
| ServerProps.InitialInv | server/server.js:6-15 | the empty tables satisfy the invariant (histories within ten, pending lists and online list free of duplicates, no empty room, every room has an admin record) |
| ServerProps.StepKeepsInv | server/server.js:25-440 | every `data` event that does not throw keeps the invariant |
| ServerProps.CommandKeepsInv | server/server.js:154-343 | every COMMAND branch that does not throw keeps the invariant |
| ServerProps.ConnectKeepsInv | server/server.js:17-19 | a new connection keeps the invariant |
| ServerProps.LoginKeepsInv | server/server.js:54-87 | a login keeps the invariant (in particular no name is online twice) |
| ServerProps.LeavePreviousKeepsInv | server/server.js:163-172 | leaving the previous room on `join` keeps the invariant |
| ServerProps.EnterKeepsInv | server/server.js:173-227 | creating a room or queueing a join request keeps the invariant |
| ServerProps.JoinKeepsInv | server/server.js:154-228 | a `join` that does not throw keeps the invariant |
| ServerProps.DecideKeepsInv | server/server.js:229-306 | an `approve` or `reject` that does not throw keeps the invariant |
| ServerProps.ApproveKeepsInv | server/server.js:258-289 | admitting a pending user keeps the invariant |
| ServerProps.LeaveKeepsInv | server/server.js:307-337 | a `leave` that does not throw keeps the invariant |
| ServerProps.PostKeepsInv | server/server.js:344-391 | a MESSAGE keeps the invariant; histories stay within ten entries |
| ServerProps.DisconnectKeepsInv | server/server.js:442-468 | the `end` handler keeps the invariant |
| ServerProps.PushBoundedKeepsBound | server/server.js:362-364 | appending with the shift keeps a history within ten entries |
| ServerProps.NotifyRecipients | server/server.js:280-289 | a room notification goes exactly to the members other than the skipped one that have a socket, with the given response |
| ServerProps.OthersRecipients | server/server.js:378-388 | a broadcast to all clients goes exactly to every other connection |
| ServerProps.LoginRefusesOnlineName | server/server.js:56-65 | a login for a name already online is refused with "User already logged in" and changes nothing |
| ServerProps.LoginRefusesBadCredentials | server/server.js:77-85 | a login with invalid credentials is refused and changes nothing |
| ServerProps.LoginSucceeds | server/server.js:66-76 | a valid login for an offline name adds the name to the online list, binds its socket, maps this connection (and only it) to the name, and changes nothing else |
| ServerProps.RegisterNeverSignsIn | server/server.js:33-53 | registration changes only the credential store and answers success exactly when the name was free |
| ServerProps.SignedOutGetsGreeting | server/server.js:88-439 | on a connection without a user every request except AUTH and malformed input gets only the greeting |
| ServerProps.JoinWithoutRoom | server/server.js:155-162 | `join` without a room answers the usage line and changes nothing |
| ServerProps.LeavePreviousEffect | server/server.js:163-172 | leaving the previous room throws exactly when that room is gone; otherwise the room keeps its other members in order, and is deleted together with its admin record and pending list exactly when nobody else is left; only those three tables change |
| ServerProps.EnterFreshRoom | server/server.js:174-193 | joining a missing or empty room makes the joiner its sole member and admin, records the room, keeps the history and sends the admin notice and the history; only `rooms`, `roomAdmins`, `userRooms` and `roomHistory` change |
| ServerProps.EnterAlreadyListed | server/server.js:196-208 | a member or already-pending user gets the "Already in or requested" notice; only an empty request list may be created |
| ServerProps.EnterQueuesRequest | server/server.js:209-226 | otherwise the user is appended to the pending list (which stays free of duplicates); the admin, when online, gets the join request, and the joiner gets the waiting notice last |
| ServerProps.PendingJoinKeepsStaleRoom | server/server.js:163-227 | a join that ends pending has removed the user from the old room, while `userRooms` still names it |
| ServerProps.LastMemberQueuedElsewhereCrashes | server/server.js:163-227 | the sole member who asks to join another room deletes the old room and stays recorded in it; their next `leave` and their next `join` then throw |
| ServerProps.StaleRequestOutlivesRoom | server/server.js:174-193 | a request left over in a deleted room survives its re-creation, and the new admin is then refused MESSAGE |
| ServerProps.ApproveIntoDeletedRoomCrashes | server/server.js:258-261 | an admin approving a pending request for a room whose member list has been deleted makes the handler throw |
| ServerProps.DecideRefused | server/server.js:234-257 | without being admin of the current room, or without a pending target, approve/reject only answers a notice |
| ServerProps.DecideNeedsAdminRecord | server/server.js:232-257 | in a room with no admin record, approve and reject from anyone, including a user named "undefined", only answer that they are not the admin |
| ServerProps.ApproveAdmits | server/server.js:258-304 | approve appends the target to the room, records the room as theirs, gives the room a history and removes exactly that name from the pending list, nothing else changing; an online target is told and then sent the history; after that exactly the other members with a socket hear that the target joined |
| ServerProps.RejectRemovesRequest | server/server.js:290-304 | reject removes exactly that name from the pending list and changes nothing else; the target is told when online, and nobody is written to otherwise |
| ServerProps.ApprovedIntoTwoRooms | server/server.js:258-262 | a user pending in two rooms can be approved into both, so they end up listed in both |
| ServerProps.PendingUserCannotPost | server/server.js:345-359 | a user pending under their current room key gets the approval notice and nothing changes |
| ServerProps.PostStoresAndBroadcasts | server/server.js:360-375 | a MESSAGE is stored as the newest entry of the sender's room and no other history changes; on overflow exactly the oldest entry goes; it is sent exactly to the other members that have a socket |
| ServerProps.PostOutsideRoomBroadcasts | server/server.js:376-389 | a MESSAGE from a user with no existing room changes no table and goes exactly to every other connection |
| ServerProps.WhisperDelivers | server/server.js:392-424 | a private message to an online user reaches that user's socket and is echoed to the sender; otherwise only the sender hears that the recipient is offline; no table changes |
| ServerProps.WhoReports | server/server.js:425-437 | `who` reports the members and name of the caller's existing room, or an empty list with a null room; no table changes |
| ServerProps.ListingsReport | server/server.js:88-343 | `rooms` answers with the room names and `users` with the online names, and neither changes a table |
| ServerProps.MalformedAnswered | server/server.js:27-32 | input that does not parse gets the format error and changes nothing |
| ServerProps.LastNOfLastN | server/server.js:364 | keeping the last ten of the last ten plus more is keeping the last ten of everything |
| ServerProps.HistoryKeepsLastTen | server/server.js:362-364 | a history built by any sequence of postings is exactly the last ten entries |
| ServerProps.LeaveOutsideRoom | server/server.js:328-335 | `leave` without a current room answers "You are not in any room." and changes nothing |
| ServerProps.LeaveEffect | server/server.js:307-327 | `leave` removes the user from the room (deleting it when empty) and from `userRooms`; exactly the other members with a socket hear that the user left, and the confirmation comes last |
| ServerProps.LeaveKeepsAdminRecord | server/server.js:311 | the last member leaving deletes the room but keeps its admin and requests |
| ServerProps.SignOutEffect | server/server.js:443-464 | on disconnect the user is no longer online and has no socket or room, and exactly the room's member list changes; when the room still exists exactly its other members with a socket hear that the user left, and otherwise nothing is written |
| ServerProps.DisconnectEffect | server/server.js:442-468 | the connection is forgotten and signed out, with the signed-in user's records removed and the same writes as signing the user out |
| ServerProps.DisconnectSignedOut | server/server.js:442-468 | a connection without a user is only forgotten, with no writes |
| ServerProps.DownloadMissing | server/server.js:132-151 | a signed-in download of a name never stored answers FILE_DOWNLOAD_FAIL with "File not found" and changes nothing |
| ServerProps.UploadThenDownload | server/server.js:97-153 | an uploaded file downloads with the same data from any signed-in connection |
| ServerProps.UploadAnnounced | server/server.js:100-120 | a stored upload is recorded under its name, acknowledged to the uploader first and announced exactly to every other connection |
| ServerProps.UploadFailure | server/server.js:121-129 | a failed write answers the uploader only with the failure and changes nothing |
| Server.ChatServer.constructor | server/server.js:6-15 | a new server holds the initial tables and satisfies the invariant |
| Server.ChatServer.Connect | server/server.js:17-19 | adds the connection with no user; keeps the invariant |
| Server.ChatServer.HandleData | server/server.js:25-440 | the new state and writes are those of `Step` (or the state is untouched when it throws); keeps the invariant |
| Server.ChatServer.Disconnect | server/server.js:442-468 | the new state and writes are those of `Disconnect`; keeps the invariant |
| Server.ChatServer.Dispatch | server/server.js:26-439 | the request is routed to the branch `Step` takes |
| Server.ChatServer.HandleAuth | server/server.js:33-87 | state and writes of `AuthStep` |
| Server.ChatServer.HandleCommand | server/server.js:88-343 | state and writes of `CommandStep` |
| Server.ChatServer.HandleChat | server/server.js:97-424 | state and writes of the MESSAGE, PRIVATE_MESSAGE and file branches |
| Server.ChatServer.RegisterUser | server/server.js:33-53 | state and writes of `Register` |
| Server.ChatServer.LoginUser | server/server.js:54-87 | state and writes of `Login` |
| Server.ChatServer.StoreUpload | server/server.js:97-131 | state and writes of `Upload` |
| Server.ChatServer.ServeDownload | server/server.js:132-153 | writes of `DownloadFile`; no table changes |
| Server.ChatServer.JoinRoom | server/server.js:154-228 | state and writes of `Join` |
| Server.ChatServer.EnterRoom | server/server.js:173-227 | state and writes of `Enter` |
| Server.ChatServer.FoundRoom | server/server.js:174-193 | state and writes of `Found` |
| Server.ChatServer.QueueJoin | server/server.js:195-226 | state and writes of `Queue` |
| Server.ChatServer.DecideRequest | server/server.js:229-306 | state and writes of `Decide` |
| Server.ChatServer.ApproveJoin | server/server.js:258-289 | state and writes of `Approve` |
| Server.ChatServer.WelcomeTarget | server/server.js:264-289 | writes of `Approve` |
| Server.ChatServer.AdmitTarget | server/server.js:261-263 | state of `Approve`, with no writes |
| Server.ChatServer.RejectJoin | server/server.js:290-304 | state and writes of `Reject` |
| Server.ChatServer.LeaveRoom | server/server.js:307-337 | state and writes of `Leave` |
| Server.ChatServer.PostMessage | server/server.js:344-391 | state and writes of `Post` |
| Server.ChatServer.SendPrivate | server/server.js:392-424 | writes of `Whisper` |
| Server.ChatServer.ListMembers | server/server.js:425-437 | writes of `Who` |
| Server.ChatServer.Greet | server/server.js:438-439 | the greeting write |
| Server.ChatServer.Close | server/server.js:442-468 | state and writes of `Disconnect` |
| Server.ChatServer.SignOutUser | server/server.js:443-465 | state and writes of `SignOut` |
| Server.ChatServer.NotifyMembers | server/server.js:280-289 | appends exactly `Notify` of the members |
| Server.ChatServer.NotifyOthers | server/server.js:110-120 | appends exactly `Others` of the connections |
| Client.Receiver.Receive | client/client.js:47-53 | the kept buffer holds no newline, and neither does any segment; the segments, each followed by its newline, plus the new buffer are the old buffer plus the chunk; the parsed segments are the non-blank ones, in order |
| Client.FramingUnique | client/client.js:47-53 | the split into newline-free segments and a newline-free rest is the only one |
| Client.NonBlankExactly | client/client.js:53 | a segment is handed to the parser exactly when it does not trim to empty |
| Client.IndexOf | client/client.js:50 | `indexOf`: -1 exactly when the character is absent; otherwise its first position |
| Client.TrimEmptyIffBlank | client/client.js:53 | a text trims to empty exactly when it is all whitespace |
| Client.JoinSplit | client/client.js:196 | joining the words of `split(" ")` with spaces gives the text back |
| Client.SplitJoin | client/client.js:196 | splitting space-free words joined with spaces gives the words back |
| Client.RestOfWords | client/client.js:196 | `args.join(" ")` is the text after the first space |
| Client.ParseLine | client/client.js:195-371 | a MESSAGE is sent only for a line that is not a slash line, and it carries the line as typed |
| Client.ParseCommand | client/client.js:197-364 | a slash command never sends a MESSAGE or an AUTH request |
| Client.PlainLineSentVerbatim | client/client.js:195-371 | a line whose trimmed form does not start with "/" is sent as a MESSAGE exactly as typed; a slash line never is |
| Client.JoinLine | client/client.js:302-316 | `/join` sends the text after the first space as the room, or nothing when it is empty |
| Client.DownloadLine | client/client.js:271-284 | `/download` sends the text after the first space as the file name, or nothing |
| Client.UploadLine | client/client.js:245-251 | `/upload` reads the text after the first space as the path, or nothing when it is empty |
| Client.BareCommandLines | client/client.js:197-340 | `/exit` ends the session, `/help` sends nothing, and `/users`, `/leave`, `/rooms`, `/who` send the COMMAND of that name |
| Client.MsgLine | client/client.js:285-301 | `/msg` sends a PRIVATE_MESSAGE exactly when both recipient and text are present, with those values |
| Client.ApproveLine | client/client.js:341-355 | `/approve x` and `/reject x` send the command without its slash and `[x]`; without a target nothing is sent |
| Client.UnknownSendsNothing | client/client.js:356-364 | a slash command outside the known set sends nothing |
| Client.LineRequestsAreChat | client/client.js:195-371 | a typed line never sends an AUTH request; a COMMAND it sends is one the server has a branch for |
| Client.CommandRequests | client/client.js:197-364 | a slash command never sends a MESSAGE or an AUTH request |
| Client.StartRequest | client/client.js:19-40 | only "register" and "login" open a connection, which writes the AUTH request with the typed name and password |
| Client.React | client/client.js:56-66 | the chat loop starts exactly on a successful AUTH answer to a login; any other AUTH answer closes the connection |
| Session.AuthAnswer | client/client.js:31-40 | the server answers a new connection's AUTH request with exactly one AUTH reply to that connection |
| Session.LoginEntersChatIff | client/client.js:56-66 | a login enters the chat exactly when the name is offline and the credentials validate; the connection is then signed in, and otherwise the tables are those of the bare connection |
| Session.RegisterNeverEntersChat | client/client.js:56-66 | after a registration the client closes, and nobody is signed in |
| Session.TypedLineReachesHistory | client/client.js:366-371 | a plain line typed by a room member who is not pending becomes the newest entry of the room's history, and the history holds no more than ten entries |

## Left out

- Sockets, the TCP connection and the event loop are not modelled: a connection is a number, every write is appended to an outbox, and events are handled one at a time in the order they are given. The server treats each `data` chunk as exactly one request, as the code does. The model does not describe how TCP groups writes into chunks.
- Byte decoding is not modelled: both sides call `data.toString()` on each chunk separately (client/client.js:48, server/server.js:28), so a multi-byte UTF-8 character split across two chunks becomes U+FFFD; `Client.Receiver.Receive` works on text that is already decoded.
- JSON encoding and decoding are not modelled: requests and responses are datatypes, and text that does not parse is the single `Malformed` request.
- The file system is not modelled. It is replaced by a map from names to data. Base64 decoding and `path.join` are not modelled, and a failing write is an explicit parameter (`fault`) carrying the error message. `users.json` is kept as the credential map itself.
- The order of `Object.keys(rooms)` is not modelled: the ROOMS reply carries the set of room names.
- Keys inherited from `Object.prototype` (for example a user named "constructor") are not modelled. Lookups see only the keys the code stored.
- `trim()` strips space, tab, line feed and carriage return only. JavaScript also strips the other Unicode whitespace code points.
- Console output, colours, prompts, the help text and the display of each response type on the client are left out: they are presentation only.
- `/upload` does not model the file read or `path.basename`: the model stops at which path is to be read (`ReadAndUpload`).
- An AUTH login on a connection that is already signed in is modelled as the code does it: the old name stays online.
- `userExists` and `validateUser` are predicates over the store, since they only read it.
- Inputs outside the modelled state space that make the server throw are not modelled: a `/join` to a room named after an `Object.prototype` member such as `constructor` or `__proto__` (server/server.js:198), a FILE_DOWNLOAD of "", "." or ".." that names the upload directory itself (server/server.js:135), a request whose JSON body is `null` (server/server.js:33), a FILE_UPLOAD whose filename is not a string (server/server.js:99), a signed-in FILE_DOWNLOAD whose filename is missing or not a string (server/server.js:133), and an approve or reject whose `args` is truthy but not iterable, such as `5` or `true` (server/server.js:234).
