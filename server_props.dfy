/** Properties of the chat server's handlers (module ServerSpec): what each
    handler changes and writes, the invariant every handler keeps, and the
    places where the code lets the tables drift from the intended design. */
module ServerProps {
  import opened Wire
  import Auth
  import opened ServerSpec

  // ---------------------------------------------------------------------
  // The state invariant

  /** What holds in every reachable state: histories are bounded, a pending
      list has no repeated name, an existing room has members and an admin
      record, and the two insertion-ordered sets hold each element once.
      Members and pending users of one room are NOT disjoint, a user may be a
      member of several rooms, and `userRooms` may point at a room that no
      longer exists: the lemmas at the end of this module show how. */
  ghost predicate Inv(t: Tables)
  {
    && HistoriesBounded(t.history)
    && PendingListsDistinct(t.requests)
    && RoomsInhabited(t.rooms)
    && t.rooms.Keys <= t.admins.Keys
    && NoDup(t.loggedIn)
    && NoDup(t.connections)
  }

  ghost predicate HistoriesBounded(history: map<string, seq<Entry>>)
  {
    forall r :: r in history ==> |history[r]| <= HistoryLimit
  }

  ghost predicate PendingListsDistinct(requests: map<string, seq<string>>)
  {
    forall r :: r in requests ==> NoDup(requests[r])
  }

  ghost predicate RoomsInhabited(rooms: map<string, seq<string>>)
  {
    forall r :: r in rooms ==> rooms[r] != []
  }

  lemma InitialInv(users: Auth.Users, files: map<string, string>)
    ensures Inv(Initial(users, files))
  {
  }

  lemma PushBoundedKeepsBound(h: seq<Entry>, e: Entry)
    requires |h| <= HistoryLimit
    ensures |PushBounded(h, e)| <= HistoryLimit
  {
  }

  lemma ConnectKeepsInv(t: Tables, c: ConnId)
    requires Inv(t)
    ensures Inv(Connect(t, c))
  {
    var s := Connect(t, c).connections;
    if c !in t.connections {
      assert forall i :: 0 <= i < |t.connections| ==> s[i] == t.connections[i];
    }
  }

  lemma LoginKeepsInv(t: Tables, c: ConnId, username: string, password: string)
    requires Inv(t)
    ensures Inv(Login(t, c, username, password).next)
  {
    var o := Login(t, c, username, password);
    if username !in t.loggedIn && Auth.ValidateUser(t.users, username, password) {
      assert forall i :: 0 <= i < |t.loggedIn| ==> o.next.loggedIn[i] == t.loggedIn[i];
    }
  }

  lemma LeavePreviousKeepsInv(t: Tables, user: string)
    requires Inv(t)
    ensures LeavePrevious(t, user).Some? ==> Inv(LeavePrevious(t, user).value)
  {
    var prev := RoomOf(t, user);
    if prev != "" && prev in t.rooms {
      var members := Without(t.rooms[prev], user);
      var t1 := LeavePrevious(t, user).value;
      if members == [] {
        assert t1 == t.(rooms := t.rooms - {prev}, admins := t.admins - {prev}, requests := t.requests - {prev});
        assert RoomsInhabited(t1.rooms);
        assert PendingListsDistinct(t1.requests);
      } else {
        assert t1 == t.(rooms := t.rooms[prev := members]);
        assert RoomsInhabited(t1.rooms);
      }
    }
  }

  lemma EnterKeepsInv(t: Tables, c: ConnId, user: string, room: string)
    requires Inv(t)
    ensures Inv(Enter(t, c, user, room).next)
  {
    if room in t.rooms && t.rooms[room] != [] {
      var pending := RequestsOrEmpty(t, room);
      if user in t.rooms[room] || user in pending {
        EnterAlreadyListed(t, c, user, room);
      } else {
        EnterQueuesRequest(t, c, user, room);
      }
      assert PendingListsDistinct(Enter(t, c, user, room).next.requests);
    } else {
      var n := Enter(t, c, user, room).next;
      assert n == Found(t, c, user, room).next;
      assert RoomsInhabited(n.rooms);
      assert HistoriesBounded(n.history);
    }
  }

  lemma JoinKeepsInv(t: Tables, c: ConnId, user: string, room: string)
    requires Inv(t)
    ensures Join(t, c, user, room).Done? ==> Inv(Join(t, c, user, room).next)
  {
    if room != "" {
      LeavePreviousKeepsInv(t, user);
      if LeavePrevious(t, user).Some? {
        EnterKeepsInv(LeavePrevious(t, user).value, c, user, room);
      }
    }
  }

  lemma DecideKeepsInv(t: Tables, c: ConnId, user: string, approve: bool, args: seq<string>)
    requires Inv(t)
    ensures Decide(t, c, user, approve, args).Done? ==> Inv(Decide(t, c, user, approve, args).next)
  {
    var room := RoomOf(t, user);
    var target := if |args| > 0 then args[0] else "";
    if room != "" && IsAdmin(t, room, user) && target != "" && room in t.requests && target in t.requests[room] {
      WithoutKeepsNoDup(t.requests[room], target);
      if approve {
        ApproveKeepsInv(t, room, target);
      } else {
        assert Decide(t, c, user, approve, args) == Reject(t, room, target);
        assert PendingListsDistinct(Reject(t, room, target).next.requests);
      }
    }
  }

  lemma ApproveKeepsInv(t: Tables, room: string, target: string)
    requires Inv(t) && room in t.requests
    ensures Approve(t, room, target).Done? ==> Inv(Approve(t, room, target).next)
  {
    if room in t.rooms {
      WithoutKeepsNoDup(t.requests[room], target);
      var n := Approve(t, room, target).next;
      assert PendingListsDistinct(n.requests);
      assert RoomsInhabited(n.rooms);
      assert HistoriesBounded(n.history);
    }
  }

  lemma LeaveKeepsInv(t: Tables, c: ConnId, user: string)
    requires Inv(t)
    ensures Leave(t, c, user).Done? ==> Inv(Leave(t, c, user).next)
  {
  }

  lemma PostKeepsInv(t: Tables, c: ConnId, user: string, text: string)
    requires Inv(t)
    ensures Inv(Post(t, c, user, text).next)
  {
    var room := RoomOf(t, user);
    if room != "" && room in t.rooms {
      PushBoundedKeepsBound(HistoryOrEmpty(t, room), Entry(user, text));
    }
  }

  lemma DisconnectKeepsInv(t: Tables, c: ConnId)
    requires Inv(t)
    ensures Inv(Disconnect(t, c).next)
  {
    var user := CurrentUser(t, c);
    WithoutKeepsNoDup(t.connections, c);
    WithoutKeepsNoDup(t.loggedIn, user);
  }

  /** Every `data` event that does not crash the server keeps the invariant. */
  lemma StepKeepsInv(t: Tables, c: ConnId, req: Request, fault: Option<string>)
    requires Inv(t)
    ensures Step(t, c, req, fault).Done? ==> Inv(Step(t, c, req, fault).next)
  {
    var user := CurrentUser(t, c);
    match req
    case Auth(action, username, password) =>
      if action == "login" { LoginKeepsInv(t, c, username, password); }
    case Command(command, room, args) =>
      if user != "" { CommandKeepsInv(t, c, user, command, room, args); }
    case Message(text) =>
      if user != "" { PostKeepsInv(t, c, user, text); }
    case _ =>
  }

  lemma CommandKeepsInv(t: Tables, c: ConnId, user: string, command: string, room: string, args: seq<string>)
    requires Inv(t)
    ensures CommandStep(t, c, user, command, room, args).Done? ==> Inv(CommandStep(t, c, user, command, room, args).next)
  {
    if command == "join" { JoinKeepsInv(t, c, user, room); }
    else if command == "approve" || command == "reject" { DecideKeepsInv(t, c, user, command == "approve", args); }
    else if command == "leave" { LeaveKeepsInv(t, c, user); }
  }

  // ---------------------------------------------------------------------
  // Who receives a broadcast

  /** The loop over a member list writes `r` exactly to the sockets of the
      members other than `skip` that have one. */
  lemma {:induction false} NotifyRecipients(members: seq<string>, skip: Option<string>, sockets: map<string, ConnId>, r: Response, d: Delivery)
    ensures d in Notify(members, skip, sockets, r) <==>
      d.response == r && exists u :: u in members && Some(u) != skip && u in sockets && d.to == sockets[u]
    decreases |members|
  {
    if members != [] {
      var n := |members| - 1;
      NotifyRecipients(members[..n], skip, sockets, r, d);
      assert members == members[..n] + [members[n]];
    }
  }

  /** The loop over all clients writes `r` exactly to every connection but `self`. */
  lemma {:induction false} OthersRecipients(conns: seq<ConnId>, self: ConnId, r: Response, d: Delivery)
    ensures d in Others(conns, self, r) <==> d.response == r && d.to in conns && d.to != self
    decreases |conns|
  {
    if conns != [] {
      var n := |conns| - 1;
      OthersRecipients(conns[..n], self, r, d);
      assert conns == conns[..n] + [conns[n]];
    }
  }

  // ---------------------------------------------------------------------
  // AUTH

  /** Logging in under a name that is already online fails and changes nothing. */
  lemma LoginRefusesOnlineName(t: Tables, c: ConnId, username: string, password: string, fault: Option<string>)
    requires username in t.loggedIn
    ensures Step(t, c, Auth("login", username, password), fault)
         == Done(t, [Delivery(c, AuthReply("fail", "User already logged in"))])
  {
  }

  /** Wrong or unknown credentials fail and change nothing. */
  lemma LoginRefusesBadCredentials(t: Tables, c: ConnId, username: string, password: string, fault: Option<string>)
    requires username !in t.loggedIn && !Auth.ValidateUser(t.users, username, password)
    ensures Step(t, c, Auth("login", username, password), fault)
         == Done(t, [Delivery(c, AuthReply("fail", "Invalid username or password"))])
  {
  }

  /** A successful login records the name as online, binds it to this
      connection and makes it the connection's current user; nothing else changes. */
  lemma LoginSucceeds(t: Tables, c: ConnId, username: string, password: string, fault: Option<string>)
    requires username !in t.loggedIn && Auth.ValidateUser(t.users, username, password)
    ensures var o := Step(t, c, Auth("login", username, password), fault);
      && o.Done?
      && o.next.loggedIn == t.loggedIn + [username]
      && o.next.userSockets == t.userSockets[username := c]
      && CurrentUser(o.next, c) == username
      && o.next.sessions == t.sessions[c := username]
      && o.next == t.(loggedIn := o.next.loggedIn, userSockets := o.next.userSockets, sessions := o.next.sessions)
      && o.out == [Delivery(c, AuthReply("success", "Login successful"))]
  {
  }

  /** Registering never signs anyone in: only the credential store may change. */
  lemma RegisterNeverSignsIn(t: Tables, c: ConnId, username: string, password: string, fault: Option<string>)
    ensures var o := Step(t, c, Auth("register", username, password), fault);
      && o.Done?
      && o.next == t.(users := Auth.Register(t.users, username, password).users)
      && o.out == [Delivery(c, AuthReply(if Auth.UserExists(t.users, username) then "fail" else "success",
                                         if Auth.UserExists(t.users, username) then "Username already exists"
                                         else "Registration successful"))]
  {
  }

  /** A connection without a current user gets only the greeting for anything but AUTH. */
  lemma SignedOutGetsGreeting(t: Tables, c: ConnId, req: Request, fault: Option<string>)
    requires CurrentUser(t, c) == "" && !req.Auth? && !req.Malformed?
    ensures Step(t, c, req, fault) == Done(t, [Delivery(c, RawText("Hello from server!"))])
  {
  }

  // ---------------------------------------------------------------------
  // join

  /** A join without a room name only answers with the usage notice. */
  lemma JoinWithoutRoom(t: Tables, c: ConnId, args: seq<string>, fault: Option<string>)
    requires CurrentUser(t, c) != ""
    ensures Step(t, c, Command("join", "", args), fault)
         == Done(t, [Delivery(c, RoomNotice("Usage: /join <room>"))])
  {
  }

  /** Before placing the joiner, their previous room loses them; an emptied
      room loses its `rooms`, `roomAdmins` and `roomJoinRequests` entries.
      `userRooms` is not touched here. A previous room whose member list is
      gone makes the handler throw. */
  lemma LeavePreviousEffect(t: Tables, user: string)
    requires RoomOf(t, user) != ""
    ensures var prev := RoomOf(t, user);
      && (prev !in t.rooms <==> LeavePrevious(t, user).None?)
      && (prev in t.rooms ==>
            var t1 := LeavePrevious(t, user).value;
            var members := Without(t.rooms[prev], user);
            && t1 == t.(rooms := t1.rooms, admins := t1.admins, requests := t1.requests)
            && (forall v :: v in members <==> v in t.rooms[prev] && v != user)
            && (prev !in t1.rooms <==> (forall v :: v in t.rooms[prev] ==> v == user))
            && (prev in t1.rooms ==>
                  && t1.rooms == t.rooms[prev := members] && user !in t1.rooms[prev]
                  && t1.admins == t.admins && t1.requests == t.requests)
            && (prev !in t1.rooms ==>
                  && t1.rooms == t.rooms - {prev} && t1.admins == t.admins - {prev}
                  && t1.requests == t.requests - {prev}))
  {
    var prev := RoomOf(t, user);
    if prev in t.rooms {
      var members := Without(t.rooms[prev], user);
      if members == [] {
        assert forall v :: v in t.rooms[prev] ==> v == user;
      } else {
        var v := members[0];
        assert v in members && v in t.rooms[prev] && v != user;
      }
    }
  }

  /** Joining a room that is absent or empty makes the joiner its only
      member and its admin, points `userRooms` at it, and keeps any history
      already stored under the name (creating an empty one otherwise). */
  lemma EnterFreshRoom(t: Tables, c: ConnId, user: string, room: string)
    requires room !in t.rooms || t.rooms[room] == []
    ensures var o := Enter(t, c, user, room);
      && o.next == t.(rooms := o.next.rooms, admins := o.next.admins, userRooms := o.next.userRooms, history := o.next.history)
      && o.next.rooms == t.rooms[room := [user]]
      && o.next.admins == t.admins[room := user]
      && o.next.userRooms == t.userRooms[user := room]
      && o.next.history[room] == (if room in t.history then t.history[room] else [])
      && (forall r :: r != room ==> (r in o.next.history <==> r in t.history) && (r in t.history ==> o.next.history[r] == t.history[r]))
      && o.next.requests == t.requests
      && o.out == [Delivery(c, RoomNotice("Joined room '" + room + "' as admin")),
                   Delivery(c, History(room, o.next.history[room]))]
  {
  }

  /** Joining a room that has members, as a member or an already pending
      user, changes nothing but materialising the room's (possibly empty)
      pending list, and only answers the joiner. */
  lemma EnterAlreadyListed(t: Tables, c: ConnId, user: string, room: string)
    requires room in t.rooms && t.rooms[room] != []
    requires user in t.rooms[room] || user in RequestsOrEmpty(t, room)
    ensures var o := Enter(t, c, user, room);
      && o.next == t.(requests := t.requests[room := RequestsOrEmpty(t, room)])
      && o.out == [Delivery(c, RoomNotice("Already in or requested to join '" + room + "'"))]
  {
    assert Enter(t, c, user, room) == Queue(t, c, user, room);
  }

  /** Otherwise joining a room that has members only queues a request: the
      member lists, admins, history and `userRooms` stay as they are, the
      joiner is appended to the pending list (which so never gains a
      duplicate), the admin hears of it when online, and the joiner is
      told to wait. */
  lemma EnterQueuesRequest(t: Tables, c: ConnId, user: string, room: string)
    requires room in t.rooms && t.rooms[room] != []
    requires user !in t.rooms[room] && user !in RequestsOrEmpty(t, room)
    ensures var o := Enter(t, c, user, room);
      var pending := RequestsOrEmpty(t, room);
      && o.next == t.(requests := t.requests[room := pending + [user]])
      && (NoDup(pending) ==> NoDup(o.next.requests[room]))
      && o.out[|o.out| - 1] == Delivery(c, RoomNotice("Join request sent to admin of '" + room + "'. Awaiting approval..."))
      && (AdminKey(t, room) in t.userSockets ==>
            o.out[0] == Delivery(t.userSockets[AdminKey(t, room)], JoinRequest(room, user)) && |o.out| == 2)
      && (AdminKey(t, room) !in t.userSockets ==> |o.out| == 1)
  {
    var pending := RequestsOrEmpty(t, room);
    assert Enter(t, c, user, room) == Queue(t, c, user, room);
    if NoDup(pending) {
      var grown := pending + [user];
      forall i, j | 0 <= i < j < |grown| ensures grown[i] != grown[j] {
        if j == |pending| {
          assert grown[i] == pending[i];
        }
      }
    }
  }

  /** As written, a join that ends in the pending list has already taken the
      joiner out of their old room but leaves `userRooms` pointing at it. */
  lemma PendingJoinKeepsStaleRoom(t: Tables, c: ConnId, user: string, room: string)
    requires Inv(t)
    requires RoomOf(t, user) != "" && RoomOf(t, user) != room && RoomOf(t, user) in t.rooms
    requires room != "" && room in t.rooms && user !in t.rooms[room] && user !in RequestsOrEmpty(t, room)
    ensures var o := Join(t, c, user, room);
      var prev := RoomOf(t, user);
      && o.Done?
      && RoomOf(o.next, user) == prev
      && (prev in o.next.rooms ==> user !in o.next.rooms[prev])
      && room in o.next.requests && user in o.next.requests[room]
      && room in o.next.rooms && user !in o.next.rooms[room]
  {
    var prev := RoomOf(t, user);
    LeavePreviousEffect(t, user);
    var t1 := LeavePrevious(t, user).value;
    assert t1.rooms[room] == t.rooms[room];
    if Without(t.rooms[prev], user) == [] {
      assert t1.requests == t.requests - {prev};
    } else {
      assert t1.requests == t.requests;
    }
    assert RequestsOrEmpty(t1, room) == RequestsOrEmpty(t, room);
    assert Join(t, c, user, room) == Enter(t1, c, user, room);
    EnterQueuesRequest(t1, c, user, room);
  }

  /** As written, the sole member of a room who asks to join another room
      deletes their old room but stays recorded in it; their next `leave`,
      and their next `join` of any room, then call `.filter` on the missing
      member list and throw. */
  lemma LastMemberQueuedElsewhereCrashes(t: Tables, c: ConnId, user: string, room: string, other: string)
    requires Inv(t)
    requires RoomOf(t, user) != "" && RoomOf(t, user) != room
    requires RoomOf(t, user) in t.rooms && t.rooms[RoomOf(t, user)] == [user]
    requires room != "" && room in t.rooms && user !in t.rooms[room] && user !in RequestsOrEmpty(t, room)
    requires other != ""
    ensures var o := Join(t, c, user, room);
      var prev := RoomOf(t, user);
      && o.Done?
      && RoomOf(o.next, user) == prev && prev !in o.next.rooms
      && Leave(o.next, c, user) == Crashed
      && Join(o.next, c, user, other) == Crashed
  {
    var prev := RoomOf(t, user);
    LeavePreviousEffect(t, user);
    var t1 := LeavePrevious(t, user).value;
    assert Without(t.rooms[prev], user) == [];
    assert t1 == t.(rooms := t.rooms - {prev}, admins := t.admins - {prev}, requests := t.requests - {prev});
    assert RequestsOrEmpty(t1, room) == RequestsOrEmpty(t, room);
    assert Join(t, c, user, room) == Enter(t1, c, user, room);
    EnterQueuesRequest(t1, c, user, room);
  }

  /** As written, a request left behind in a room that was deleted by
      `leave` survives the room's re-creation: the new sole member (and
      admin) is then also listed as pending, and cannot post a MESSAGE. */
  lemma StaleRequestOutlivesRoom(t: Tables, c: ConnId, user: string, room: string, text: string)
    requires RoomOf(t, user) == "" && room != "" && room !in t.rooms
    requires room in t.requests && user in t.requests[room]
    ensures var o := Join(t, c, user, room);
      && o.Done?
      && o.next.rooms[room] == [user] && o.next.admins[room] == user
      && user in o.next.requests[room]
      && Post(o.next, c, user, text)
         == Done(o.next, [Delivery(c, RoomNotice("You must wait for admin approval before messaging in this room."))])
  {
  }

  // ---------------------------------------------------------------------
  // approve / reject

  /** An admin whose room has been deleted (while a request for it
      is still pending) makes `approve` throw on `rooms[room].push`. */
  lemma ApproveIntoDeletedRoomCrashes(t: Tables, c: ConnId, user: string, target: string)
    requires var room := RoomOf(t, user);
      && room != "" && IsAdmin(t, room, user) && room !in t.rooms
      && target != "" && room in t.requests && target in t.requests[room]
    ensures Decide(t, c, user, true, [target]) == Crashed
  {
  }

  /** The caller must be the recorded admin of their current room and the
      target must be pending there; otherwise no table changes. */
  lemma DecideRefused(t: Tables, c: ConnId, user: string, approve: bool, args: seq<string>)
    requires var room := RoomOf(t, user);
      || room == ""
      || !IsAdmin(t, room, user)
      || |args| == 0 || args[0] == ""
      || room !in t.requests || args[0] !in t.requests[room]
    ensures var o := Decide(t, c, user, approve, args);
      o.Done? && o.next == t && |o.out| == 1 && o.out[0].to == c
  {
  }

  /** A room without an admin record has no admin: whoever asks, even a
      user named "undefined", is told they are not the admin. */
  lemma DecideNeedsAdminRecord(t: Tables, c: ConnId, user: string, approve: bool, args: seq<string>)
    requires RoomOf(t, user) != "" && RoomOf(t, user) !in t.admins
    ensures Decide(t, c, user, approve, args) == Done(t, [Delivery(c, RoomNotice("You are not the admin of any room."))])
  {
  }

  /** Approval appends the target to the members, points their `userRooms`
      at the room, makes sure the room has a history and removes the target
      (only them) from its pending list. An online target first hears of
      the approval and then receives the room's whole current history;
      after that every other member with a socket hears that they joined. */
  lemma ApproveAdmits(t: Tables, c: ConnId, user: string, target: string, d: Delivery)
    requires var room := RoomOf(t, user);
      && room != "" && IsAdmin(t, room, user) && room in t.rooms
      && target != "" && room in t.requests && target in t.requests[room]
    ensures var room := RoomOf(t, user);
      var o := Decide(t, c, user, true, [target]);
      var welcome := if target in t.userSockets then 2 else 0;
      && o.Done?
      && o.next == t.(rooms := o.next.rooms, userRooms := o.next.userRooms,
                      history := o.next.history, requests := o.next.requests)
      && o.next.rooms == t.rooms[room := t.rooms[room] + [target]]
      && o.next.userRooms == t.userRooms[target := room]
      && o.next.history == t.history[room := HistoryOrEmpty(t, room)]
      && o.next.requests.Keys == t.requests.Keys
      && (forall v :: v in o.next.requests[room] <==> v in t.requests[room] && v != target)
      && (forall r :: r in t.requests && r != room ==> o.next.requests[r] == t.requests[r])
      && welcome <= |o.out|
      && (target in t.userSockets ==>
            o.out[..2] == [Delivery(t.userSockets[target], RoomNotice("Your join request to '" + room + "' was approved!")),
                           Delivery(t.userSockets[target], History(room, HistoryOrEmpty(t, room)))])
      && (d in o.out[welcome..] <==>
            d.response == RoomNotice(target + " joined the room.")
            && exists u :: u in t.rooms[room] && u != target && u in t.userSockets && d.to == t.userSockets[u])
  {
    var room := RoomOf(t, user);
    var members := t.rooms[room] + [target];
    var r := RoomNotice(target + " joined the room.");
    var o := Decide(t, c, user, true, [target]);
    var welcome := if target in t.userSockets then 2 else 0;
    assert o == Approve(t, room, target);
    assert o.out[welcome..] == Notify(members, Some(target), t.userSockets, r);
    NotifyRecipients(members, Some(target), t.userSockets, r, d);
    assert forall u :: u in members && Some(u) != Some(target) <==> u in t.rooms[room] && u != target;
  }

  /** Rejection leaves the member lists and `userRooms` alone and removes
      the target (only them) from the pending list; only an online target
      is told. */
  lemma RejectRemovesRequest(t: Tables, c: ConnId, user: string, target: string)
    requires var room := RoomOf(t, user);
      && room != "" && IsAdmin(t, room, user)
      && target != "" && room in t.requests && target in t.requests[room]
    ensures var room := RoomOf(t, user);
      var o := Decide(t, c, user, false, [target]);
      && o.Done?
      && o.next == t.(requests := o.next.requests)
      && o.next.requests.Keys == t.requests.Keys
      && (forall v :: v in o.next.requests[room] <==> v in t.requests[room] && v != target)
      && (forall r :: r in t.requests && r != room ==> o.next.requests[r] == t.requests[r])
      && (target in t.userSockets ==>
            o.out == [Delivery(t.userSockets[target],
                               RoomNotice("Your join request to '" + room + "' was rejected by the admin."))])
      && (target !in t.userSockets ==> o.out == [])
  {
  }

  /** As written, a user pending in two rooms can be approved into both:
      the first approval leaves the other request and the other admin's
      standing untouched. */
  lemma ApprovedIntoTwoRooms(t: Tables, a: ConnId, b: ConnId, adminA: string, adminB: string, target: string)
    requires var r1 := RoomOf(t, adminA); var r2 := RoomOf(t, adminB);
      && r1 != "" && r2 != "" && r1 != r2
      && adminB != target
      && IsAdmin(t, r1, adminA) && IsAdmin(t, r2, adminB)
      && r1 in t.rooms && r2 in t.rooms
      && target != "" && r1 in t.requests && target in t.requests[r1]
      && r2 in t.requests && target in t.requests[r2]
    ensures var r1 := RoomOf(t, adminA); var r2 := RoomOf(t, adminB);
      var o1 := Decide(t, a, adminA, true, [target]);
      && o1.Done?
      && var o2 := Decide(o1.next, b, adminB, true, [target]);
      && o2.Done?
      && target in o2.next.rooms[r1] && target in o2.next.rooms[r2]
  {
    var r1 := RoomOf(t, adminA);
    var r2 := RoomOf(t, adminB);
    var d := Delivery(a, RawText(""));
    ApproveAdmits(t, a, adminA, target, d);
    var t1 := Decide(t, a, adminA, true, [target]).next;
    assert RoomOf(t1, adminB) == r2;
    ApproveAdmits(t1, b, adminB, target, d);
  }

  // ---------------------------------------------------------------------
  // MESSAGE

  /** A user listed as pending under their `userRooms` entry (or under
      "undefined" when they have none) is told to wait; nothing is stored or
      broadcast. */
  lemma PendingUserCannotPost(t: Tables, c: ConnId, text: string, fault: Option<string>)
    requires var user := CurrentUser(t, c);
      user != "" && GateKey(t, user) in t.requests && user in t.requests[GateKey(t, user)]
    ensures Step(t, c, Message(text), fault)
         == Done(t, [Delivery(c, RoomNotice("You must wait for admin approval before messaging in this room."))])
  {
  }

  /** A MESSAGE from a user whose room exists (and who is not held back) is
      stored as the newest history entry, the history stays within the
      limit (on overflow exactly the oldest entry goes), and the recipients
      are exactly the other members that have a socket. */
  lemma PostStoresAndBroadcasts(t: Tables, c: ConnId, user: string, text: string, d: Delivery)
    requires Inv(t)
    requires RoomOf(t, user) != "" && RoomOf(t, user) in t.rooms
    requires !(GateKey(t, user) in t.requests && user in t.requests[GateKey(t, user)])
    ensures var room := RoomOf(t, user);
      var before := HistoryOrEmpty(t, room);
      var o := Post(t, c, user, text);
      var h := o.next.history[room];
      && o.next == t.(history := o.next.history)
      && room in o.next.history
      && (forall r :: r != room ==> (r in o.next.history <==> r in t.history)
                                     && (r in t.history ==> o.next.history[r] == t.history[r]))
      && |h| <= HistoryLimit
      && h[|h| - 1] == Entry(user, text)
      && (|before| < HistoryLimit ==> h == before + [Entry(user, text)])
      && (|before| == HistoryLimit ==> h == before[1..] + [Entry(user, text)])
      && (d in o.out <==>
            d.response == Chat(user, text)
            && exists u :: u in t.rooms[room] && u != user && u in t.userSockets && d.to == t.userSockets[u])
  {
    var room := RoomOf(t, user);
    NotifyRecipients(t.rooms[room], Some(user), t.userSockets, Chat(user, text), d);
  }

  /** The history after a run of messages into one room is the last ten of
      them (or all, when fewer), oldest first. */
  function PushAll(h: seq<Entry>, es: seq<Entry>): seq<Entry>
    decreases |es|
  {
    if es == [] then h else PushAll(PushBounded(h, es[0]), es[1..])
  }

  function LastN(s: seq<Entry>, n: nat): (r: seq<Entry>)
    ensures |r| <= n && |r| <= |s|
  {
    if |s| <= n then s else s[|s| - n..]
  }

  lemma LastNOfLastN(x: seq<Entry>, y: seq<Entry>, n: nat)
    ensures LastN(LastN(x, n) + y, n) == LastN(x + y, n)
  {
    if |x| > n {
      assert x[|x| - n..] + y == (x + y)[|x| - n..];
    }
  }

  lemma {:induction false} HistoryKeepsLastTen(h: seq<Entry>, es: seq<Entry>)
    requires |h| <= HistoryLimit
    ensures PushAll(h, es) == LastN(h + es, HistoryLimit)
    decreases |es|
  {
    if es == [] {
      assert h + es == h;
    } else {
      var h1 := PushBounded(h, es[0]);
      assert h1 == LastN(h + [es[0]], HistoryLimit);
      HistoryKeepsLastTen(h1, es[1..]);
      LastNOfLastN(h + [es[0]], es[1..], HistoryLimit);
      assert h + [es[0]] + es[1..] == h + es;
    }
  }

  // ---------------------------------------------------------------------
  // leave and disconnect

  /** `leave` without a current room only answers that, and nothing changes. */
  lemma LeaveOutsideRoom(t: Tables, c: ConnId, user: string)
    requires RoomOf(t, user) == ""
    ensures Leave(t, c, user) == Done(t, [Delivery(c, RoomNotice("You are not in any room."))])
  {
  }

  /** `leave` takes the user out of their room's member list and out of
      `userRooms`, deleting the `rooms` key when the list empties; admins,
      pending requests and history are not touched. */
  lemma LeaveEffect(t: Tables, c: ConnId, user: string, d: Delivery)
    requires RoomOf(t, user) != "" && RoomOf(t, user) in t.rooms
    ensures var room := RoomOf(t, user);
      var o := Leave(t, c, user);
      && o.Done?
      && o.next.rooms == DropMember(t.rooms, room, user)
      && (room in o.next.rooms ==> user !in o.next.rooms[room])
      && user !in o.next.userRooms
      && o.next == t.(rooms := o.next.rooms, userRooms := t.userRooms - {user})
      && |o.out| >= 1
      && o.out[|o.out| - 1] == Delivery(c, RoomNotice("Left room '" + room + "'"))
      && (d in o.out[..|o.out| - 1] <==>
            d.response == RoomNotice(user + " left the room.")
            && exists u :: u in t.rooms[room] && u != user && u in t.userSockets && d.to == t.userSockets[u])
  {
    var room := RoomOf(t, user);
    var o := Leave(t, c, user);
    var notices := LeftNotices(DropMember(t.rooms, room, user), room, user, t.userSockets);
    assert o.out[..|o.out| - 1] == notices;
    LeftRecipients(t.rooms, room, user, t.userSockets, d);
  }

  /** Who hears that `user` left `room`: every other member with a socket. */
  lemma LeftRecipients(rooms: map<string, seq<string>>, room: string, user: string, sockets: map<string, ConnId>, d: Delivery)
    requires room in rooms
    ensures d in LeftNotices(DropMember(rooms, room, user), room, user, sockets) <==>
      d.response == RoomNotice(user + " left the room.")
      && exists u :: u in rooms[room] && u != user && u in sockets && d.to == sockets[u]
  {
    var after := DropMember(rooms, room, user);
    var rest := if room in after then after[room] else [];
    assert forall u :: u in rest <==> u in rooms[room] && u != user;
    NotifyRecipients(rest, None, sockets, RoomNotice(user + " left the room."), d);
  }

  /** Signing a user out takes them off the online list, drops their
      socket binding and their `userRooms` entry, and takes them out of
      their room as `leave` does; admins, requests, history, uploads and
      the credential store are untouched. */
  lemma SignOutEffect(t: Tables, user: string, d: Delivery)
    ensures var room := RoomOf(t, user);
      var n := SignOut(t, user).next;
      && (d in SignOut(t, user).out <==>
            room != "" && room in t.rooms
            && d.response == RoomNotice(user + " left the room.")
            && exists u :: u in t.rooms[room] && u != user && u in t.userSockets && d.to == t.userSockets[u])
      && user !in n.loggedIn && (forall v :: v in n.loggedIn <==> v in t.loggedIn && v != user)
      && n.userSockets == t.userSockets - {user} && n.userRooms == t.userRooms - {user}
      && n.rooms == (if room != "" && room in t.rooms then DropMember(t.rooms, room, user) else t.rooms)
      && n == t.(loggedIn := n.loggedIn, userSockets := n.userSockets, userRooms := n.userRooms, rooms := n.rooms)
  {
    var room := RoomOf(t, user);
    if room != "" && room in t.rooms {
      assert SignOut(t, user).next.rooms == DropMember(t.rooms, room, user);
      var sockets := t.userSockets - {user};
      LeftRecipients(t.rooms, room, user, sockets, d);
      assert forall u :: u != user ==> (u in sockets <==> u in t.userSockets) && (u in sockets ==> sockets[u] == t.userSockets[u]);
    } else {
      assert SignOut(t, user).next.rooms == t.rooms;
    }
  }

  /** Disconnecting a signed-in connection signs its user out, with the
      writes `SignOutEffect` describes, and forgets the connection. */
  lemma DisconnectEffect(t: Tables, c: ConnId)
    requires CurrentUser(t, c) != ""
    ensures var user := CurrentUser(t, c);
      var n := Disconnect(t, c).next;
      && Disconnect(t, c).out == SignOut(t, user).out
      && n == SignOut(t, user).next.(sessions := t.sessions - {c}, connections := Without(t.connections, c))
      && c !in n.connections && CurrentUser(n, c) == ""
      && user !in n.loggedIn && user !in n.userSockets && user !in n.userRooms
  {
    SignOutEffect(t, CurrentUser(t, c), Delivery(c, RawText("")));
  }

  /** Disconnecting a connection nobody signed in on writes nothing and only
      forgets the connection. */
  lemma DisconnectSignedOut(t: Tables, c: ConnId)
    requires CurrentUser(t, c) == ""
    ensures Disconnect(t, c) == Done(t.(sessions := t.sessions - {c}, connections := Without(t.connections, c)), [])
  {
  }

  /** `leave` keeps the admin record and the pending list of a room it
      deletes, unlike the join path. */
  lemma LeaveKeepsAdminRecord(t: Tables, c: ConnId, user: string)
    requires RoomOf(t, user) != "" && RoomOf(t, user) in t.rooms && t.rooms[RoomOf(t, user)] == [user]
    requires RoomOf(t, user) in t.admins
    ensures var room := RoomOf(t, user);
      var o := Leave(t, c, user);
      && o.Done? && room !in o.next.rooms && room in o.next.admins
      && o.next.requests == t.requests
  {
  }

  /** A MESSAGE from a user with no existing room changes no table and goes
      to every other connection, signed in or not. */
  lemma PostOutsideRoomBroadcasts(t: Tables, c: ConnId, user: string, text: string, d: Delivery)
    requires RoomOf(t, user) == "" || RoomOf(t, user) !in t.rooms
    requires !(GateKey(t, user) in t.requests && user in t.requests[GateKey(t, user)])
    ensures var o := Post(t, c, user, text);
      && o.Done? && o.next == t
      && (d in o.out <==> d.response == Chat(user, text) && d.to in t.connections && d.to != c)
  {
    OthersRecipients(t.connections, c, Chat(user, text), d);
  }

  // ---------------------------------------------------------------------
  // PRIVATE_MESSAGE, who, rooms, users, malformed input

  /** A private message to an online user goes to that user's socket and is
      echoed to the sender; to anyone else only the sender hears that the
      recipient is offline. No table changes. */
  lemma WhisperDelivers(t: Tables, c: ConnId, user: string, recipient: string, text: string)
    ensures var o := Whisper(t, c, user, recipient, text);
      && o.Done? && o.next == t
      && (recipient in t.userSockets ==>
            o.out == [Delivery(t.userSockets[recipient], Private(user, recipient, text)),
                      Delivery(c, Private(user, recipient, text))])
      && (recipient !in t.userSockets ==>
            o.out == [Delivery(c, Private("Server", user, "User '" + recipient + "' is not online."))])
  {
  }

  /** `who` reports the member list and name of the caller's room when it
      exists, and an empty list with a null room otherwise. */
  lemma WhoReports(t: Tables, c: ConnId, user: string)
    ensures var o := Who(t, c, user);
      var room := RoomOf(t, user);
      && o.Done? && o.next == t && |o.out| == 1 && o.out[0].to == c
      && (room != "" && room in t.rooms <==> o.out[0].response.current.Some?)
      && (room != "" && room in t.rooms ==> o.out[0].response == WhoReply(t.rooms[room], Some(room)))
      && (o.out[0].response.current.None? ==> o.out[0].response.members == [])
  {
  }

  /** `rooms` and `users` answer the caller with the room names and the
      online names, and change nothing. */
  lemma ListingsReport(t: Tables, c: ConnId, user: string, args: seq<string>)
    requires user != ""
    ensures CommandStep(t, c, user, "rooms", "", args) == Done(t, [Delivery(c, RoomList(t.rooms.Keys))])
    ensures CommandStep(t, c, user, "users", "", args) == Done(t, [Delivery(c, UserList(t.loggedIn))])
  {
  }

  /** Text that is not a request gets the format error and changes nothing. */
  lemma MalformedAnswered(t: Tables, c: ConnId, fault: Option<string>)
    ensures Step(t, c, Malformed, fault) == Done(t, [Delivery(c, RawText("Invalid message format\n"))])
  {
  }

  // ---------------------------------------------------------------------
  // Uploads and downloads

  /** A signed-in download of a name that was never stored fails with
      "File not found", and nothing changes. */
  lemma DownloadMissing(t: Tables, c: ConnId, filename: string)
    requires CurrentUser(t, c) != "" && filename !in t.uploads
    ensures Step(t, c, FileDownload(filename), None) == Done(t, [Delivery(c, DownloadFail(filename, "File not found"))])
  {
  }

  /** A file uploaded without a write error is served back byte for byte to
      any signed-in connection. */
  lemma UploadThenDownload(t: Tables, c: ConnId, d: ConnId, filename: string, data: string)
    requires CurrentUser(t, c) != "" && CurrentUser(t, d) != ""
    ensures var o := Step(t, c, FileUpload(filename, data), None);
      && o.Done?
      && Step(o.next, d, FileDownload(filename), None) == Done(o.next, [Delivery(d, Download(filename, data))])
  {
  }

  /** A stored upload is acknowledged to the uploader first, and announced
      to every other connection, in or out of a room. */
  lemma UploadAnnounced(t: Tables, c: ConnId, user: string, filename: string, data: string, d: Delivery)
    ensures var o := Upload(t, c, user, filename, data, None);
      && o.Done? && o.next == t.(uploads := t.uploads[filename := data])
      && o.out[0] == Delivery(c, UploadAck(filename))
      && (d in o.out[1..] <==>
            d.response == Chat("Server", "File '" + filename + "' uploaded by " + user)
            && d.to in t.connections && d.to != c)
  {
    var o := Upload(t, c, user, filename, data, None);
    assert o.out[1..] == Others(t.connections, c, Chat("Server", "File '" + filename + "' uploaded by " + user));
    OthersRecipients(t.connections, c, Chat("Server", "File '" + filename + "' uploaded by " + user), d);
  }

  /** A failed write changes nothing and only the uploader hears of it. */
  lemma UploadFailure(t: Tables, c: ConnId, filename: string, data: string, error: string)
    requires CurrentUser(t, c) != ""
    ensures Step(t, c, FileUpload(filename, data), Some(error)) == Done(t, [Delivery(c, UploadFail(filename, error))])
  {
  }
}
