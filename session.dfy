/** The client and the server together: what a client that has just
    connected ends up doing with the server's answer to its AUTH request,
    and what a typed line does once the user is in a room. */
module Session {
  import opened Wire
  import Auth
  import opened ServerSpec
  import ServerProps
  import Client

  /** The server's answer to the AUTH request a fresh connection writes. */
  function AuthAnswer(t: Tables, c: ConnId, action: string, username: string, password: string): (o: Outcome)
    requires action == "register" || action == "login"
    ensures o.Done? && |o.out| == 1 && o.out[0].to == c && o.out[0].response.AuthReply?
  {
    Step(Connect(t, c), c, Client.StartRequest(action, username, password).value, None)
  }

  /** A login enters the chat loop exactly when the name is not online and
      the credentials are valid; the connection is then signed in under that
      name. Otherwise the client closes and the server's tables are those of
      the bare connection. */
  lemma LoginEntersChatIff(t: Tables, c: ConnId, username: string, password: string)
    ensures var o := AuthAnswer(t, c, "login", username, password);
      var k := Client.React("login", o.out[0].response);
      && (k == Client.EnterChat <==> username !in t.loggedIn && Auth.ValidateUser(t.users, username, password))
      && (k == Client.EnterChat ==> CurrentUser(o.next, c) == username && username in o.next.loggedIn)
      && (k != Client.EnterChat ==> k == Client.Close && o.next == Connect(t, c))
  {
    var t0 := Connect(t, c);
    if username !in t.loggedIn && Auth.ValidateUser(t.users, username, password) {
      ServerProps.LoginSucceeds(t0, c, username, password, None);
    }
  }

  /** A registration, whatever its outcome, ends with the client closing
      the connection, and nobody is signed in by it. */
  lemma RegisterNeverEntersChat(t: Tables, c: ConnId, username: string, password: string)
    ensures var o := AuthAnswer(t, c, "register", username, password);
      && Client.React("register", o.out[0].response) == Client.Close
      && CurrentUser(o.next, c) == ""
      && o.next.loggedIn == t.loggedIn
      && o.next.userSockets == t.userSockets
  {
    ServerProps.RegisterNeverSignsIn(Connect(t, c), c, username, password, None);
  }

  /** A plain line typed by a signed-in member of a room who is not waiting
      for approval becomes the newest entry of that room's history, as typed. */
  lemma TypedLineReachesHistory(t: Tables, c: ConnId, line: string)
    requires ServerProps.Inv(t)
    requires !Client.IsSlashLine(line)
    requires var user := CurrentUser(t, c);
      && user != ""
      && RoomOf(t, user) != "" && RoomOf(t, user) in t.rooms
      && !(GateKey(t, user) in t.requests && user in t.requests[GateKey(t, user)])
    ensures var user := CurrentUser(t, c);
      var o := Step(t, c, Client.ParseLine(line).request, None);
      var h := o.next.history[RoomOf(t, user)];
      && o.Done?
      && |h| <= HistoryLimit
      && h[|h| - 1] == Entry(user, line)
  {
    var user := CurrentUser(t, c);
    Client.PlainLineSentVerbatim(line);
    ServerProps.PostStoresAndBroadcasts(t, c, user, line, Delivery(c, Chat(user, line)));
  }
}
