/** What the chat server's event handlers do, as functions from the server's
    tables before an event to the tables after it and the writes it makes.

    `Tables` holds the module-level state of server/server.js (lines 6-15),
    the per-connection `currentUser`, the upload directory and the
    credential store. Every handler is one function returning an `Outcome`:
    the new tables and the list of socket writes, in order, or `Crashed`
    where the JavaScript code dereferences a missing room and throws. */
module ServerSpec {
  import opened Wire
  import Auth

  const HistoryLimit: nat := 10

  /** The key a JavaScript object lookup uses when the key expression is `undefined`. */
  const UndefinedKey: string := "undefined"

  datatype Tables = Tables(
    connections: seq<ConnId>,             // clients, in insertion order
    sessions: map<ConnId, string>,        // currentUser of each connection (absent: null)
    loggedIn: seq<string>,                // loggedInUsers, in insertion order
    userSockets: map<string, ConnId>,
    userRooms: map<string, string>,
    rooms: map<string, seq<string>>,      // member lists
    history: map<string, seq<Entry>>,     // roomHistory
    admins: map<string, string>,          // roomAdmins
    requests: map<string, seq<string>>,   // roomJoinRequests
    uploads: map<string, string>,         // upload directory: filename -> payload
    users: Auth.Users)                    // the credential store

  datatype Outcome = Done(next: Tables, out: seq<Delivery>) | Crashed

  /** The tables when the server starts: nothing but the stored files and users. */
  function Initial(users: Auth.Users, files: map<string, string>): Tables
  {
    Tables([], map[], [], map[], map[], map[], map[], map[], map[], files, users)
  }

  // ---------------------------------------------------------------------
  // Sequence helpers

  predicate NoDup<T(==)>(s: seq<T>)
  {
    forall i, j :: 0 <= i < j < |s| ==> s[i] != s[j]
  }

  /** `s.filter((u) => u !== x)`. */
  function Without<T(==, !new)>(s: seq<T>, x: T): (r: seq<T>)
    ensures forall y :: y in r <==> y in s && y != x
    ensures |r| <= |s|
    ensures x !in s ==> r == s
  {
    if s == [] then []
    else if s[0] == x then Without(s[1..], x)
    else [s[0]] + Without(s[1..], x)
  }

  /** Filtering a list without repetitions leaves one without repetitions. */
  lemma {:induction false} WithoutKeepsNoDup<T(!new)>(s: seq<T>, x: T)
    requires NoDup(s)
    ensures NoDup(Without(s, x))
  {
    if s != [] {
      assert NoDup(s[1..]) by {
        forall i, j | 0 <= i < j < |s[1..]| ensures s[1..][i] != s[1..][j] {
          assert s[1..][i] == s[i + 1] && s[1..][j] == s[j + 1];
        }
      }
      WithoutKeepsNoDup(s[1..], x);
      if s[0] != x {
        var w := Without(s[1..], x);
        assert s[0] !in s[1..] by {
          forall k | 0 <= k < |s[1..]| ensures s[1..][k] != s[0] {
            assert s[1..][k] == s[k + 1];
          }
        }
        var r := [s[0]] + w;
        forall i, j | 0 <= i < j < |r| ensures r[i] != r[j] {
          if i == 0 {
            assert r[j] == w[j - 1] && r[j] in w;
          } else {
            assert r[i] == w[i - 1] && r[j] == w[j - 1];
          }
        }
      }
    }
  }

  lemma AppendAssoc<T>(a: seq<T>, b: seq<T>, c: seq<T>)
    ensures a + b + c == a + (b + c)
  {
  }

  /** `history.push(e); if (history.length > HISTORY_LIMIT) history.shift();` */
  function PushBounded(h: seq<Entry>, e: Entry): seq<Entry>
  {
    var grown := h + [e];
    if |grown| > HistoryLimit then grown[1..] else grown
  }

  /** The writes of a `for (const user of members)` loop that writes `r` to
      every member that has a socket, except `skip` when one is given. */
  function Notify(members: seq<string>, skip: Option<string>, sockets: map<string, ConnId>, r: Response): seq<Delivery>
    decreases |members|
  {
    if members == [] then []
    else
      var last := members[|members| - 1];
      Notify(members[..|members| - 1], skip, sockets, r)
      + (if Some(last) != skip && last in sockets then [Delivery(sockets[last], r)] else [])
  }

  /** The writes of a `for (const client of clients)` loop that writes `r`
      to every connection except `self`. */
  function Others(conns: seq<ConnId>, self: ConnId, r: Response): seq<Delivery>
    decreases |conns|
  {
    if conns == [] then []
    else
      var last := conns[|conns| - 1];
      Others(conns[..|conns| - 1], self, r) + (if last != self then [Delivery(last, r)] else [])
  }

  // ---------------------------------------------------------------------
  // Lookups with JavaScript's falsy values

  /** `currentUser` of a connection; "" stands for null (both are falsy). */
  function CurrentUser(t: Tables, c: ConnId): string
  {
    if c in t.sessions then t.sessions[c] else ""
  }

  /** `userRooms[user]`; "" stands for undefined (both are falsy). */
  function RoomOf(t: Tables, user: string): string
  {
    if user in t.userRooms then t.userRooms[user] else ""
  }

  /** `roomAdmins[room] === user`: a missing record equals no name. */
  predicate IsAdmin(t: Tables, room: string, user: string)
  {
    room in t.admins && t.admins[room] == user
  }

  /** `roomAdmins[room]` used as a key: a missing record becomes "undefined". */
  function AdminKey(t: Tables, room: string): string
  {
    if room in t.admins then t.admins[room] else UndefinedKey
  }

  /** The history a joiner is shown: the stored one, or a fresh empty one. */
  function HistoryOrEmpty(t: Tables, room: string): seq<Entry>
  {
    if room in t.history then t.history[room] else []
  }

  /** `roomJoinRequests[room]`, or the empty list the handlers create. */
  function RequestsOrEmpty(t: Tables, room: string): seq<string>
  {
    if room in t.requests then t.requests[room] else []
  }

  // ---------------------------------------------------------------------
  // The `data` handler

  /** One `data` event on connection `c` carrying `req`. `fault` is what the
      file system does with an upload: None when the write succeeds, or the
      error message it throws. */
  function Step(t: Tables, c: ConnId, req: Request, fault: Option<string>): Outcome
  {
    var user := CurrentUser(t, c);
    match req
    case Malformed => Done(t, [Delivery(c, RawText("Invalid message format\n"))])
    case Auth(action, username, password) => AuthStep(t, c, action, username, password)
    case Command(command, room, args) =>
      if user == "" then Fallback(t, c) else CommandStep(t, c, user, command, room, args)
    case Message(text) =>
      if user == "" then Fallback(t, c) else Post(t, c, user, text)
    case PrivateMessage(recipient, text) =>
      if user == "" then Fallback(t, c) else Whisper(t, c, user, recipient, text)
    case FileUpload(filename, data) =>
      if user == "" then Fallback(t, c) else Upload(t, c, user, filename, data, fault)
    case FileDownload(filename) =>
      if user == "" then Fallback(t, c) else DownloadFile(t, c, filename)
    case Other(_) => Fallback(t, c)
  }

  /** An AUTH request, answered whether or not the connection is signed in. */
  function AuthStep(t: Tables, c: ConnId, action: string, username: string, password: string): Outcome
  {
    if action == "register" then Register(t, c, username, password)
    else if action == "login" then Login(t, c, username, password)
    else Fallback(t, c)
  }

  /** A COMMAND request from the signed-in `user`. */
  function CommandStep(t: Tables, c: ConnId, user: string, command: string, room: string, args: seq<string>): Outcome
  {
    if command == "users" then ListUsers(t, c)
    else if command == "join" then Join(t, c, user, room)
    else if command == "approve" || command == "reject" then Decide(t, c, user, command == "approve", args)
    else if command == "leave" then Leave(t, c, user)
    else if command == "rooms" then ListRooms(t, c)
    else if command == "who" then Who(t, c, user)
    else Fallback(t, c)
  }

  /** No branch matched: the greeting written without a newline. */
  function Fallback(t: Tables, c: ConnId): Outcome
  {
    Done(t, [Delivery(c, RawText("Hello from server!"))])
  }

  function Register(t: Tables, c: ConnId, username: string, password: string): Outcome
  {
    var r := Auth.Register(t.users, username, password);
    Done(t.(users := r.users),
         [Delivery(c, if r.ok then AuthReply("success", "Registration successful")
                      else AuthReply("fail", "Username already exists"))])
  }

  function Login(t: Tables, c: ConnId, username: string, password: string): Outcome
  {
    if username in t.loggedIn then
      Done(t, [Delivery(c, AuthReply("fail", "User already logged in"))])
    else if Auth.ValidateUser(t.users, username, password) then
      Done(t.(loggedIn := t.loggedIn + [username],
              sessions := t.sessions[c := username],
              userSockets := t.userSockets[username := c]),
           [Delivery(c, AuthReply("success", "Login successful"))])
    else
      Done(t, [Delivery(c, AuthReply("fail", "Invalid username or password"))])
  }

  function ListUsers(t: Tables, c: ConnId): Outcome
  {
    Done(t, [Delivery(c, UserList(t.loggedIn))])
  }

  function Upload(t: Tables, c: ConnId, user: string, filename: string, data: string, fault: Option<string>): Outcome
  {
    match fault
    case None =>
      Done(t.(uploads := t.uploads[filename := data]),
           [Delivery(c, UploadAck(filename))]
           + Others(t.connections, c, Chat("Server", "File '" + filename + "' uploaded by " + user)))
    case Some(error) =>
      Done(t, [Delivery(c, UploadFail(filename, error))])
  }

  function DownloadFile(t: Tables, c: ConnId, filename: string): Outcome
  {
    if filename in t.uploads then Done(t, [Delivery(c, Download(filename, t.uploads[filename]))])
    else Done(t, [Delivery(c, DownloadFail(filename, "File not found"))])
  }

  /** "Remove from previous room": None when `rooms[prevRoom]` is missing
      and `.filter` throws. */
  function LeavePrevious(t: Tables, user: string): Option<Tables>
  {
    var prev := RoomOf(t, user);
    if prev == "" then Some(t)
    else if prev !in t.rooms then None
    else
      var members := Without(t.rooms[prev], user);
      if members == [] then
        Some(t.(rooms := t.rooms - {prev}, admins := t.admins - {prev}, requests := t.requests - {prev}))
      else
        Some(t.(rooms := t.rooms[prev := members]))
  }

  function Join(t: Tables, c: ConnId, user: string, room: string): Outcome
  {
    if room == "" then Done(t, [Delivery(c, RoomNotice("Usage: /join <room>"))])
    else
      match LeavePrevious(t, user)
      case None => Crashed
      case Some(t1) => Enter(t1, c, user, room)
  }

  /** "Room admin logic": create the room, or queue a join request. */
  function Enter(t: Tables, c: ConnId, user: string, room: string): Outcome
  {
    if room !in t.rooms || t.rooms[room] == [] then Found(t, c, user, room)
    else Queue(t, c, user, room)
  }

  /** The joiner becomes the only member and the admin of an absent or empty room. */
  function Found(t: Tables, c: ConnId, user: string, room: string): Outcome
  {
    var t2 := t.(userRooms := t.userRooms[user := room],
                 rooms := t.rooms[room := [user]],
                 admins := t.admins[room := user],
                 history := t.history[room := HistoryOrEmpty(t, room)]);
    Done(t2, [Delivery(c, RoomNotice("Joined room '" + room + "' as admin")),
              Delivery(c, History(room, HistoryOrEmpty(t, room)))])
  }

  /** A room with members: record a join request unless one is redundant. */
  function Queue(t: Tables, c: ConnId, user: string, room: string): Outcome
    requires room in t.rooms
  {
    var pending := RequestsOrEmpty(t, room);
    if user in t.rooms[room] || user in pending then
      Done(t.(requests := t.requests[room := pending]),
           [Delivery(c, RoomNotice("Already in or requested to join '" + room + "'"))])
    else
      var admin := AdminKey(t, room);
      Done(t.(requests := t.requests[room := pending + [user]]),
           (if admin in t.userSockets then [Delivery(t.userSockets[admin], JoinRequest(room, user))] else [])
           + [Delivery(c, RoomNotice("Join request sent to admin of '" + room + "'. Awaiting approval..."))])
  }

  /** `/approve` (approve == true) or `/reject`, resolved in the caller's room. */
  function Decide(t: Tables, c: ConnId, user: string, approve: bool, args: seq<string>): Outcome
  {
    var target := if |args| > 0 then args[0] else "";
    var shown := if |args| > 0 then args[0] else UndefinedKey;
    var room := RoomOf(t, user);
    if room == "" || !IsAdmin(t, room, user) then
      Done(t, [Delivery(c, RoomNotice("You are not the admin of any room."))])
    else if target == "" || room !in t.requests || target !in t.requests[room] then
      Done(t, [Delivery(c, RoomNotice("No join request from '" + shown + "' in '" + room + "'."))])
    else if approve then Approve(t, room, target)
    else Reject(t, room, target)
  }

  /** Admit `target` to `room` and tell them and the room; throws when the
      room's member list is gone. */
  function Approve(t: Tables, room: string, target: string): Outcome
    requires room in t.requests
  {
    if room !in t.rooms then Crashed
    else
      var members := t.rooms[room] + [target];
      var hist := HistoryOrEmpty(t, room);
      Done(t.(rooms := t.rooms[room := members],
              userRooms := t.userRooms[target := room],
              history := t.history[room := hist],
              requests := t.requests[room := Without(t.requests[room], target)]),
           (if target in t.userSockets then
              [Delivery(t.userSockets[target], RoomNotice("Your join request to '" + room + "' was approved!")),
               Delivery(t.userSockets[target], History(room, hist))]
            else [])
           + Notify(members, Some(target), t.userSockets, RoomNotice(target + " joined the room.")))
  }

  /** Drop `target`'s request to `room` and tell them when online. */
  function Reject(t: Tables, room: string, target: string): Outcome
    requires room in t.requests
  {
    Done(t.(requests := t.requests[room := Without(t.requests[room], target)]),
         if target in t.userSockets then
           [Delivery(t.userSockets[target], RoomNotice("Your join request to '" + room + "' was rejected by the admin."))]
         else [])
  }

  /** Take `user` out of `room`'s member list, deleting the `rooms` key (and
      only that key) once the list is empty. */
  function DropMember(rooms: map<string, seq<string>>, room: string, user: string): map<string, seq<string>>
    requires room in rooms
  {
    var members := Without(rooms[room], user);
    if members == [] then rooms - {room} else rooms[room := members]
  }

  /** The "left the room" notices to whoever remains in `room`. */
  function LeftNotices(rooms: map<string, seq<string>>, room: string, user: string, sockets: map<string, ConnId>): seq<Delivery>
  {
    Notify(if room in rooms then rooms[room] else [], None, sockets, RoomNotice(user + " left the room."))
  }

  function Leave(t: Tables, c: ConnId, user: string): Outcome
  {
    var room := RoomOf(t, user);
    if room == "" then Done(t, [Delivery(c, RoomNotice("You are not in any room."))])
    else if room !in t.rooms then Crashed
    else
      var rooms := DropMember(t.rooms, room, user);
      Done(t.(rooms := rooms, userRooms := t.userRooms - {user}),
           LeftNotices(rooms, room, user, t.userSockets) + [Delivery(c, RoomNotice("Left room '" + room + "'"))])
  }

  function ListRooms(t: Tables, c: ConnId): Outcome
  {
    Done(t, [Delivery(c, RoomList(t.rooms.Keys))])
  }

  /** The key the MESSAGE gate looks pending requests up under. */
  function GateKey(t: Tables, user: string): string
  {
    if user in t.userRooms then t.userRooms[user] else UndefinedKey
  }

  /** MESSAGE: blocked while pending, stored and sent to the room, or sent to every other client. */
  function Post(t: Tables, c: ConnId, user: string, text: string): Outcome
  {
    var key := GateKey(t, user);
    var room := RoomOf(t, user);
    if key in t.requests && user in t.requests[key] then
      Done(t, [Delivery(c, RoomNotice("You must wait for admin approval before messaging in this room."))])
    else if room != "" && room in t.rooms then
      Done(t.(history := t.history[room := PushBounded(HistoryOrEmpty(t, room), Entry(user, text))]),
           Notify(t.rooms[room], Some(user), t.userSockets, Chat(user, text)))
    else
      Done(t, Others(t.connections, c, Chat(user, text)))
  }

  function Whisper(t: Tables, c: ConnId, user: string, recipient: string, text: string): Outcome
  {
    if recipient in t.userSockets then
      Done(t, [Delivery(t.userSockets[recipient], Private(user, recipient, text)),
               Delivery(c, Private(user, recipient, text))])
    else
      Done(t, [Delivery(c, Private("Server", user, "User '" + recipient + "' is not online."))])
  }

  function Who(t: Tables, c: ConnId, user: string): Outcome
  {
    var room := RoomOf(t, user);
    if room != "" && room in t.rooms then Done(t, [Delivery(c, WhoReply(t.rooms[room], Some(room)))])
    else Done(t, [Delivery(c, WhoReply([], None))])
  }

  // ---------------------------------------------------------------------
  // Connection events

  /** A new socket: `clients.add(socket)` and `currentUser = null`. */
  function Connect(t: Tables, c: ConnId): Tables
  {
    t.(connections := if c in t.connections then t.connections else t.connections + [c],
       sessions := t.sessions - {c})
  }

  /** The `end` handler: sign the user out, then forget the connection. */
  function Disconnect(t: Tables, c: ConnId): Outcome
  {
    var user := CurrentUser(t, c);
    var o := if user == "" then Done(t, []) else SignOut(t, user);
    Done(o.next.(sessions := o.next.sessions - {c}, connections := Without(o.next.connections, c)), o.out)
  }

  /** A signed-in user's connection ends: they go offline and leave their room. */
  function SignOut(t: Tables, user: string): (r: Outcome)
    ensures r.Done?
  {
    var sockets := t.userSockets - {user};
    var room := RoomOf(t, user);
    var base := t.(loggedIn := Without(t.loggedIn, user), userSockets := sockets, userRooms := t.userRooms - {user});
    if room != "" && room in t.rooms then
      var rooms := DropMember(t.rooms, room, user);
      Done(base.(rooms := rooms), LeftNotices(rooms, room, user, sockets))
    else
      Done(base, [])
  }
}
