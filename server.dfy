/** The chat server as an object: the module-level tables of
    server/server.js become fields that the handler methods update in place,
    and every `socket.write` is appended to `outbox`.

    Each handler method is proved to do what the matching ServerSpec
    function says; `Valid()` is the invariant every handler keeps. */
module Server {
  import opened Wire
  import Auth
  import opened ServerSpec
  import ServerProps

  class ChatServer {
    var connections: seq<ConnId>
    var sessions: map<ConnId, string>
    var loggedIn: seq<string>
    var userSockets: map<string, ConnId>
    var userRooms: map<string, string>
    var rooms: map<string, seq<string>>
    var history: map<string, seq<Entry>>
    var admins: map<string, string>
    var requests: map<string, seq<string>>
    var uploads: map<string, string>
    const store: Auth.CredentialStore
    /** Every write made so far, oldest first. */
    var outbox: seq<Delivery>

    ghost function Snapshot(): Tables
      reads this`connections, this`sessions, this`loggedIn, this`userSockets, this`userRooms, this`rooms,
            this`history, this`admins, this`requests, this`uploads, store
    {
      Tables(connections, sessions, loggedIn, userSockets, userRooms, rooms, history,
             admins, requests, uploads, store.users)
    }

    ghost predicate Valid()
      reads this, store
    {
      ServerProps.Inv(Snapshot())
    }

    /** The state after an event agrees with outcome `o` of the event on `before`:
        on a crash nothing was changed or written. */
    ghost predicate Reflects(o: Outcome, before: Tables, sent: seq<Delivery>, crashed: bool)
      reads this, store
    {
      if o.Crashed? then crashed && Snapshot() == before && outbox == sent
      else !crashed && Snapshot() == o.next && outbox == sent + o.out
    }

    constructor (store: Auth.CredentialStore, files: map<string, string>)
      ensures this.store == store
      ensures Valid() && Snapshot() == Initial(store.users, files) && outbox == []
    {
      this.store := store;
      connections, sessions, loggedIn := [], map[], [];
      userSockets, userRooms, rooms, history := map[], map[], map[], map[];
      admins, requests, uploads := map[], map[], files;
      outbox := [];
    }

    // -------------------------------------------------------------------
    // Connection events

    /** A new socket. */
    method Connect(c: ConnId)
      requires Valid()
      modifies this
      ensures Snapshot() == ServerSpec.Connect(old(Snapshot()), c) && outbox == old(outbox)
      ensures Valid()
    {
      ServerProps.ConnectKeepsInv(Snapshot(), c);
      AddClient(c);
    }

    /** The `data` handler: one decoded request from connection `c`. */
    method HandleData(c: ConnId, req: Request, fault: Option<string>) returns (crashed: bool)
      requires Valid()
      modifies this, store
      ensures Reflects(Step(old(Snapshot()), c, req, fault), old(Snapshot()), old(outbox), crashed)
      ensures Valid()
    {
      ServerProps.StepKeepsInv(Snapshot(), c, req, fault);
      crashed := Dispatch(c, req, fault);
    }

    /** The `end` handler. */
    method Disconnect(c: ConnId)
      requires Valid()
      modifies this
      ensures Reflects(ServerSpec.Disconnect(old(Snapshot()), c), old(Snapshot()), old(outbox), false)
      ensures Valid()
    {
      ServerProps.DisconnectKeepsInv(Snapshot(), c);
      Close(c);
    }

    // -------------------------------------------------------------------
    // The handlers' bodies

    /** `clients.add(socket)`; the connection starts without a current user. */
    method AddClient(c: ConnId)
      modifies this
      ensures Snapshot() == ServerSpec.Connect(old(Snapshot()), c) && outbox == old(outbox)
    {
      if c !in connections {
        connections := connections + [c];
      }
      sessions := sessions - {c};
    }

    method Dispatch(c: ConnId, req: Request, fault: Option<string>) returns (crashed: bool)
      modifies this, store
      ensures Reflects(Step(old(Snapshot()), c, req, fault), old(Snapshot()), old(outbox), crashed)
    {
      crashed := false;
      var user := if c in sessions then sessions[c] else "";
      match req
      case Malformed =>
        outbox := outbox + [Delivery(c, RawText("Invalid message format\n"))];
      case Auth(action, username, password) =>
        HandleAuth(c, action, username, password);
      case Command(command, room, args) =>
        if user == "" { Greet(c); } else { crashed := HandleCommand(c, user, command, room, args); }
      case _ =>
        HandleChat(c, req, fault);
    }

    /** The MESSAGE, PRIVATE_MESSAGE, FILE_UPLOAD and FILE_DOWNLOAD branches,
        and the greeting for any other type. */
    method HandleChat(c: ConnId, req: Request, fault: Option<string>)
      requires !req.Malformed? && !req.Auth? && !req.Command?
      modifies this
      ensures Snapshot() == Step(old(Snapshot()), c, req, fault).next
      ensures outbox == old(outbox) + Step(old(Snapshot()), c, req, fault).out
    {
      var user := if c in sessions then sessions[c] else "";
      if user == "" {
        Greet(c);
        return;
      }
      match req
      case Message(text) => PostMessage(c, user, text);
      case PrivateMessage(recipient, text) => SendPrivate(c, user, recipient, text);
      case FileUpload(filename, data) => StoreUpload(c, user, filename, data, fault);
      case FileDownload(filename) => ServeDownload(c, filename);
      case Other(_) => Greet(c);
    }

    method HandleAuth(c: ConnId, action: string, username: string, password: string)
      modifies this, store
      ensures Snapshot() == AuthStep(old(Snapshot()), c, action, username, password).next
      ensures outbox == old(outbox) + AuthStep(old(Snapshot()), c, action, username, password).out
    {
      if action == "register" {
        RegisterUser(c, username, password);
      } else if action == "login" {
        LoginUser(c, username, password);
      } else {
        Greet(c);
      }
    }

    method HandleCommand(c: ConnId, user: string, command: string, room: string, args: seq<string>) returns (crashed: bool)
      modifies this
      ensures Reflects(CommandStep(old(Snapshot()), c, user, command, room, args), old(Snapshot()), old(outbox), crashed)
    {
      crashed := false;
      if command == "users" {
        outbox := outbox + [Delivery(c, UserList(loggedIn))];
      } else if command == "join" {
        crashed := JoinRoom(c, user, room);
      } else if command == "approve" || command == "reject" {
        crashed := DecideRequest(c, user, command == "approve", args);
      } else if command == "leave" {
        crashed := LeaveRoom(c, user);
      } else if command == "rooms" {
        outbox := outbox + [Delivery(c, RoomList(rooms.Keys))];
      } else if command == "who" {
        ListMembers(c, user);
      } else {
        Greet(c);
      }
    }

    /** Sign out whoever the connection belongs to, then forget the connection. */
    method Close(c: ConnId)
      modifies this
      ensures Reflects(ServerSpec.Disconnect(old(Snapshot()), c), old(Snapshot()), old(outbox), false)
    {
      var user := if c in sessions then sessions[c] else "";
      if user != "" {
        SignOutUser(user);
      }
      sessions := sessions - {c};
      connections := Without(connections, c);
    }

    method SignOutUser(user: string)
      modifies this
      ensures Snapshot() == SignOut(old(Snapshot()), user).next
      ensures outbox == old(outbox) + SignOut(old(Snapshot()), user).out
    {
      var room := if user in userRooms then userRooms[user] else "";
      var present := room != "" && room in rooms;
      ForgetUser(user);
      if present {
        NotifyMembers(if room in rooms then rooms[room] else [], None, RoomNotice(user + " left the room."));
      }
    }

    /** The table updates of the `end` handler for a signed-in user. */
    method ForgetUser(user: string)
      modifies this
      ensures Snapshot() == SignOut(old(Snapshot()), user).next && outbox == old(outbox)
    {
      var room := if user in userRooms then userRooms[user] else "";
      if room != "" && room in rooms {
        rooms := DropMember(rooms, room, user);
      }
      loggedIn, userSockets, userRooms := Without(loggedIn, user), userSockets - {user}, userRooms - {user};
    }

    // -------------------------------------------------------------------
    // Broadcast loops

    /** `for (const user of members) if (user !== skip && userSockets[user]) write(r)`. */
    method NotifyMembers(members: seq<string>, skip: Option<string>, r: Response)
      modifies this`outbox
      ensures outbox == old(outbox) + Notify(members, skip, userSockets, r)
    {
      for i := 0 to |members|
        invariant outbox == old(outbox) + Notify(members[..i], skip, userSockets, r)
      {
        assert members[..i + 1][..i] == members[..i];
        if Some(members[i]) != skip && members[i] in userSockets {
          outbox := outbox + [Delivery(userSockets[members[i]], r)];
        }
      }
      assert members[..|members|] == members;
    }

    /** `for (const client of clients) if (client !== self) client.write(r)`. */
    method NotifyOthers(self: ConnId, r: Response)
      modifies this`outbox
      ensures outbox == old(outbox) + Others(connections, self, r)
    {
      for i := 0 to |connections|
        invariant outbox == old(outbox) + Others(connections[..i], self, r)
      {
        assert connections[..i + 1][..i] == connections[..i];
        if connections[i] != self {
          outbox := outbox + [Delivery(connections[i], r)];
        }
      }
      assert connections[..|connections|] == connections;
    }

    // -------------------------------------------------------------------
    // Handler branches

    method Greet(c: ConnId)
      modifies this`outbox
      ensures outbox == old(outbox) + Fallback(old(Snapshot()), c).out
    {
      outbox := outbox + [Delivery(c, RawText("Hello from server!"))];
    }

    method RegisterUser(c: ConnId, username: string, password: string)
      modifies this`outbox, store
      ensures Snapshot() == Register(old(Snapshot()), c, username, password).next
      ensures outbox == old(outbox) + Register(old(Snapshot()), c, username, password).out
    {
      var ok := store.RegisterUser(username, password);
      if ok {
        outbox := outbox + [Delivery(c, AuthReply("success", "Registration successful"))];
      } else {
        outbox := outbox + [Delivery(c, AuthReply("fail", "Username already exists"))];
      }
    }

    method LoginUser(c: ConnId, username: string, password: string)
      modifies this
      ensures Snapshot() == Login(old(Snapshot()), c, username, password).next
      ensures outbox == old(outbox) + Login(old(Snapshot()), c, username, password).out
    {
      if username in loggedIn {
        outbox := outbox + [Delivery(c, AuthReply("fail", "User already logged in"))];
        return;
      }
      if Auth.ValidateUser(store.users, username, password) {
        loggedIn := loggedIn + [username];
        sessions := sessions[c := username];
        userSockets := userSockets[username := c];
        outbox := outbox + [Delivery(c, AuthReply("success", "Login successful"))];
      } else {
        outbox := outbox + [Delivery(c, AuthReply("fail", "Invalid username or password"))];
      }
    }

    method StoreUpload(c: ConnId, user: string, filename: string, data: string, fault: Option<string>)
      modifies this
      ensures Snapshot() == Upload(old(Snapshot()), c, user, filename, data, fault).next
      ensures outbox == old(outbox) + Upload(old(Snapshot()), c, user, filename, data, fault).out
    {
      match fault
      case Some(error) =>
        outbox := outbox + [Delivery(c, UploadFail(filename, error))];
      case None =>
        uploads := uploads[filename := data];
        outbox := outbox + [Delivery(c, UploadAck(filename))];
        NotifyOthers(c, Chat("Server", "File '" + filename + "' uploaded by " + user));
    }

    method ServeDownload(c: ConnId, filename: string)
      modifies this`outbox
      ensures outbox == old(outbox) + DownloadFile(old(Snapshot()), c, filename).out
    {
      if filename in uploads {
        outbox := outbox + [Delivery(c, Download(filename, uploads[filename]))];
      } else {
        outbox := outbox + [Delivery(c, DownloadFail(filename, "File not found"))];
      }
    }

    method JoinRoom(c: ConnId, user: string, room: string) returns (crashed: bool)
      modifies this
      ensures Reflects(Join(old(Snapshot()), c, user, room), old(Snapshot()), old(outbox), crashed)
    {
      crashed := false;
      if room == "" {
        outbox := outbox + [Delivery(c, RoomNotice("Usage: /join <room>"))];
        return;
      }
      // Remove from the previous room
      var prev := if user in userRooms then userRooms[user] else "";
      if prev != "" {
        if prev !in rooms {
          return true;
        }
        rooms := rooms[prev := Without(rooms[prev], user)];
        if rooms[prev] == [] {
          assert rooms - {prev} == old(rooms) - {prev};
          rooms := rooms - {prev};
          admins := admins - {prev};
          requests := requests - {prev};
        }
      }
      assert LeavePrevious(old(Snapshot()), user) == Some(Snapshot());
      EnterRoom(c, user, room);
    }

    method EnterRoom(c: ConnId, user: string, room: string)
      modifies this
      ensures Snapshot() == Enter(old(Snapshot()), c, user, room).next
      ensures outbox == old(outbox) + Enter(old(Snapshot()), c, user, room).out
    {
      if room !in rooms || rooms[room] == [] {
        FoundRoom(c, user, room);
      } else {
        QueueJoin(c, user, room);
      }
    }

    method FoundRoom(c: ConnId, user: string, room: string)
      modifies this
      ensures Snapshot() == Found(old(Snapshot()), c, user, room).next
      ensures outbox == old(outbox) + Found(old(Snapshot()), c, user, room).out
    {
      var hist := if room in history then history[room] else [];
      userRooms, rooms, admins, history := userRooms[user := room], rooms[room := [user]], admins[room := user], history[room := hist];
      outbox := outbox + [Delivery(c, RoomNotice("Joined room '" + room + "' as admin")),
                          Delivery(c, History(room, hist))];
    }

    method QueueJoin(c: ConnId, user: string, room: string)
      requires room in rooms
      modifies this
      ensures Snapshot() == Queue(old(Snapshot()), c, user, room).next
      ensures outbox == old(outbox) + Queue(old(Snapshot()), c, user, room).out
    {
      var pending := if room in requests then requests[room] else [];
      if user in rooms[room] || user in pending {
        requests := requests[room := pending];
        outbox := outbox + [Delivery(c, RoomNotice("Already in or requested to join '" + room + "'"))];
      } else {
        requests := requests[room := pending + [user]];
        var admin := if room in admins then admins[room] else UndefinedKey;
        var alert := if admin in userSockets then [Delivery(userSockets[admin], JoinRequest(room, user))] else [];
        outbox := outbox + (alert + [Delivery(c, RoomNotice("Join request sent to admin of '" + room + "'. Awaiting approval..."))]);
      }
    }

    method DecideRequest(c: ConnId, user: string, approve: bool, args: seq<string>) returns (crashed: bool)
      modifies this
      ensures Reflects(Decide(old(Snapshot()), c, user, approve, args), old(Snapshot()), old(outbox), crashed)
    {
      crashed := false;
      var target := if |args| > 0 then args[0] else "";
      var room := if user in userRooms then userRooms[user] else "";
      if room == "" || room !in admins || admins[room] != user {
        outbox := outbox + [Delivery(c, RoomNotice("You are not the admin of any room."))];
        return;
      }
      if target == "" || room !in requests || target !in requests[room] {
        var shown := if |args| > 0 then args[0] else UndefinedKey;
        outbox := outbox + [Delivery(c, RoomNotice("No join request from '" + shown + "' in '" + room + "'."))];
        return;
      }
      if approve {
        crashed := ApproveJoin(room, target);
      } else {
        RejectJoin(room, target);
      }
    }

    method ApproveJoin(room: string, target: string) returns (crashed: bool)
      requires room in requests
      modifies this
      ensures Reflects(Approve(old(Snapshot()), room, target), old(Snapshot()), old(outbox), crashed)
    {
      if room !in rooms {
        return true;
      }
      WelcomeTarget(room, target);
      AdmitTarget(room, target);
      crashed := false;
    }

    /** The writes of an approval: the target's welcome and history, then the room's notices. */
    method WelcomeTarget(room: string, target: string)
      requires room in requests && room in rooms
      modifies this`outbox
      ensures outbox == old(outbox) + Approve(Snapshot(), room, target).out
    {
      var members := rooms[room] + [target];
      var hist := if room in history then history[room] else [];
      var welcome := if target in userSockets then
        [Delivery(userSockets[target], RoomNotice("Your join request to '" + room + "' was approved!")),
         Delivery(userSockets[target], History(room, hist))]
      else [];
      outbox := outbox + welcome;
      NotifyMembers(members, Some(target), RoomNotice(target + " joined the room."));
      AppendAssoc(old(outbox), welcome, Notify(members, Some(target), userSockets, RoomNotice(target + " joined the room.")));
    }

    /** The table updates of an approval. */
    method AdmitTarget(room: string, target: string)
      requires room in requests && room in rooms
      modifies this
      ensures Snapshot() == Approve(old(Snapshot()), room, target).next && outbox == old(outbox)
    {
      var hist := if room in history then history[room] else [];
      rooms, userRooms, history := rooms[room := rooms[room] + [target]], userRooms[target := room], history[room := hist];
      requests := requests[room := Without(requests[room], target)];
    }

    method RejectJoin(room: string, target: string)
      requires room in requests
      modifies this
      ensures Snapshot() == Reject(old(Snapshot()), room, target).next
      ensures outbox == old(outbox) + Reject(old(Snapshot()), room, target).out
    {
      if target in userSockets {
        outbox := outbox + [Delivery(userSockets[target], RoomNotice("Your join request to '" + room + "' was rejected by the admin."))];
      }
      requests := requests[room := Without(requests[room], target)];
    }

    method LeaveRoom(c: ConnId, user: string) returns (crashed: bool)
      modifies this
      ensures Reflects(Leave(old(Snapshot()), c, user), old(Snapshot()), old(outbox), crashed)
    {
      crashed := false;
      var room := if user in userRooms then userRooms[user] else "";
      if room == "" {
        outbox := outbox + [Delivery(c, RoomNotice("You are not in any room."))];
        return;
      }
      if room !in rooms {
        return true;
      }
      rooms, userRooms := DropMember(rooms, room, user), userRooms - {user};
      NotifyMembers(if room in rooms then rooms[room] else [], None, RoomNotice(user + " left the room."));
      outbox := outbox + [Delivery(c, RoomNotice("Left room '" + room + "'"))];
    }

    method PostMessage(c: ConnId, user: string, text: string)
      modifies this
      ensures Snapshot() == Post(old(Snapshot()), c, user, text).next
      ensures outbox == old(outbox) + Post(old(Snapshot()), c, user, text).out
    {
      var key := if user in userRooms then userRooms[user] else UndefinedKey;
      if key in requests && user in requests[key] {
        outbox := outbox + [Delivery(c, RoomNotice("You must wait for admin approval before messaging in this room."))];
        return;
      }
      var room := if user in userRooms then userRooms[user] else "";
      if room != "" && room in rooms {
        var h := if room in history then history[room] else [];
        h := h + [Entry(user, text)];
        if |h| > HistoryLimit {
          h := h[1..];
        }
        history := history[room := h];
        NotifyMembers(rooms[room], Some(user), Chat(user, text));
      } else {
        NotifyOthers(c, Chat(user, text));
      }
    }

    method SendPrivate(c: ConnId, user: string, recipient: string, text: string)
      modifies this`outbox
      ensures outbox == old(outbox) + Whisper(old(Snapshot()), c, user, recipient, text).out
    {
      if recipient in userSockets {
        outbox := outbox + [Delivery(userSockets[recipient], Private(user, recipient, text)),
                            Delivery(c, Private(user, recipient, text))];
      } else {
        outbox := outbox + [Delivery(c, Private("Server", user, "User '" + recipient + "' is not online."))];
      }
    }

    method ListMembers(c: ConnId, user: string)
      modifies this`outbox
      ensures outbox == old(outbox) + Who(old(Snapshot()), c, user).out
    {
      var room := if user in userRooms then userRooms[user] else "";
      if room != "" && room in rooms {
        outbox := outbox + [Delivery(c, WhoReply(rooms[room], Some(room)))];
      } else {
        outbox := outbox + [Delivery(c, WhoReply([], None))];
      }
    }
  }
}
