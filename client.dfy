/** The chat client's own logic (client/client.js): how it picks newline-
    terminated responses out of the byte stream, how it turns a typed line
    into a request, and what it does with the server's AUTH answer.

    Strings are sequences of characters; `trim()` strips the four
    characters of `IsSpace` (JavaScript's full whitespace set is larger). */
module Client {
  import opened Wire

  // ---------------------------------------------------------------------
  // String primitives with JavaScript's meaning

  predicate IsSpace(ch: char)
  {
    ch == ' ' || ch == '\t' || ch == '\n' || ch == '\r'
  }

  predicate AllSpace(s: string)
  {
    forall i :: 0 <= i < |s| ==> IsSpace(s[i])
  }

  /** `s.indexOf(ch)`: the first position of `ch`, or -1 when it does not occur. */
  function IndexOf(s: string, ch: char): (k: int)
    ensures k == -1 <==> ch !in s
    ensures k != -1 ==> 0 <= k < |s| && s[k] == ch && ch !in s[..k]
  {
    if s == [] then -1
    else if s[0] == ch then 0
    else
      var k := IndexOf(s[1..], ch);
      assert s[1..][..k + 1] == s[1..k + 2] || k == -1;
      if k == -1 then -1 else k + 1
  }

  /** A position holding `ch` with no `ch` before it is the one `IndexOf` finds. */
  lemma IndexOfFirst(s: string, ch: char, k: nat)
    requires k < |s| && s[k] == ch && ch !in s[..k]
    ensures IndexOf(s, ch) == k
  {
  }

  /** Leading whitespace removed. */
  function TrimStart(s: string): (r: string)
    ensures |r| <= |s| && r == s[|s| - |r|..]
    ensures r == [] || !IsSpace(r[0])
    ensures AllSpace(s[..|s| - |r|])
  {
    if s != [] && IsSpace(s[0]) then
      var r := TrimStart(s[1..]);
      assert s[..|s| - |r|] == [s[0]] + s[1..][..|s[1..]| - |r|];
      r
    else s
  }

  /** Trailing whitespace removed. */
  function TrimEnd(s: string): (r: string)
    ensures |r| <= |s| && r == s[..|r|]
    ensures r == [] || !IsSpace(r[|r| - 1])
    ensures AllSpace(s[|r|..])
  {
    if s != [] && IsSpace(s[|s| - 1]) then
      var r := TrimEnd(s[..|s| - 1]);
      assert s[|r|..] == s[..|s| - 1][|r|..] + [s[|s| - 1]];
      r
    else s
  }

  /** `s.trim()`. */
  function Trim(s: string): string
  {
    TrimEnd(TrimStart(s))
  }

  /** Trimming leaves nothing exactly when the text is all whitespace. */
  lemma TrimEmptyIffBlank(s: string)
    ensures Trim(s) == "" <==> AllSpace(s)
  {
    var a := TrimStart(s);
    if Trim(s) == "" {
      assert AllSpace(a[0..]);
      assert s == s[..|s| - |a|] + a;
    }
  }

  /** `s.split(" ")`: the pieces between single spaces, empty pieces kept. */
  function Split(s: string): (parts: seq<string>)
    ensures |parts| >= 1
    ensures forall i :: 0 <= i < |parts| ==> ' ' !in parts[i]
    decreases |s|
  {
    var k := IndexOf(s, ' ');
    if k == -1 then [s] else [s[..k]] + Split(s[k + 1..])
  }

  /** `parts.join(" ")`. */
  function JoinWords(parts: seq<string>): string
  {
    if parts == [] then ""
    else if |parts| == 1 then parts[0]
    else parts[0] + " " + JoinWords(parts[1..])
  }

  /** Splitting on spaces and joining with single spaces gives the text back. */
  lemma {:induction false} JoinSplit(s: string)
    ensures JoinWords(Split(s)) == s
    decreases |s|
  {
    var k := IndexOf(s, ' ');
    if k != -1 {
      var tail := s[k + 1..];
      var rest := Split(tail);
      JoinSplit(tail);
      assert Split(s) == [s[..k]] + rest;
      JoinCons(s[..k], rest);
      assert s == s[..k] + " " + tail;
    }
  }

  lemma JoinCons(w: string, rest: seq<string>)
    requires |rest| >= 1
    ensures JoinWords([w] + rest) == w + " " + JoinWords(rest)
  {
    assert ([w] + rest)[1..] == rest;
  }

  /** Joining space-free words and splitting again gives the words back. */
  lemma {:induction false} SplitJoin(parts: seq<string>)
    requires |parts| >= 1
    requires forall i :: 0 <= i < |parts| ==> ' ' !in parts[i]
    ensures Split(JoinWords(parts)) == parts
  {
    if |parts| > 1 {
      var s := JoinWords(parts);
      var rest := JoinWords(parts[1..]);
      assert s == parts[0] + " " + rest;
      assert s[..|parts[0]|] == parts[0];
      assert IndexOf(s, ' ') == |parts[0]| by {
        assert s[|parts[0]|] == ' ';
        assert ' ' !in s[..|parts[0]|];
      }
      assert s[|parts[0]| + 1..] == rest;
      SplitJoin(parts[1..]);
    } else {
      assert JoinWords(parts) == parts[0];
    }
  }

  /** The text after the first space, or "" when there is none. */
  function AfterFirstSpace(s: string): (r: string)
    ensures |r| < |s| || r == ""
  {
    var k := IndexOf(s, ' ');
    if k == -1 then "" else s[k + 1..]
  }

  /** `args.join(" ")`, with `args` the words after the first, is the text
      after the first space. */
  lemma RestOfWords(s: string)
    ensures JoinWords(Split(s)[1..]) == AfterFirstSpace(s)
  {
    var k := IndexOf(s, ' ');
    if k != -1 {
      assert Split(s)[1..] == Split(s[k + 1..]);
      JoinSplit(s[k + 1..]);
    }
  }

  // ---------------------------------------------------------------------
  // Framing: the `data` handler's buffer loop

  /** Each segment followed by the newline that ended it. */
  function Framed(segments: seq<string>): string
  {
    if segments == [] then ""
    else Framed(segments[..|segments| - 1]) + segments[|segments| - 1] + "\n"
  }

  /** The segments the loop hands to `JSON.parse`: the ones that are not blank. */
  function NonBlank(segments: seq<string>): seq<string>
  {
    if segments == [] then []
    else
      var last := segments[|segments| - 1];
      NonBlank(segments[..|segments| - 1]) + (if Trim(last) != "" then [last] else [])
  }

  /** The segments handed on are exactly the non-blank ones: none of them is
      blank, every non-blank segment is among them, and nothing else is. */
  lemma {:induction false} NonBlankExactly(segments: seq<string>)
    ensures forall x :: x in NonBlank(segments) <==> x in segments && Trim(x) != ""
    decreases |segments|
  {
    if segments != [] {
      var front := segments[..|segments| - 1];
      NonBlankExactly(front);
      assert segments == front + [segments[|segments| - 1]];
    }
  }

  lemma FramedSnoc(segments: seq<string>, line: string)
    ensures Framed(segments + [line]) == Framed(segments) + line + "\n"
  {
    assert (segments + [line])[..|segments|] == segments;
  }

  lemma NonBlankSnoc(segments: seq<string>, line: string)
    ensures NonBlank(segments + [line]) == NonBlank(segments) + (if Trim(line) != "" then [line] else [])
  {
    assert (segments + [line])[..|segments|] == segments;
  }

  predicate NoNewline(s: string)
  {
    '\n' !in s
  }

  lemma FramedCons(x: string, xs: seq<string>)
    ensures Framed([x] + xs) == x + "\n" + Framed(xs)
    decreases |xs|
  {
    if xs != [] {
      var n := |xs| - 1;
      assert ([x] + xs)[..|xs|] == [x] + xs[..n];
      FramedCons(x, xs[..n]);
    }
  }

  lemma FramedHasNewline(segments: seq<string>)
    requires segments != []
    ensures '\n' in Framed(segments)
  {
    var f := Framed(segments);
    assert f[|f| - 1] == '\n';
  }

  /** Text that holds at least one framed segment holds a newline. */
  lemma NewlineBeforeRest(segments: seq<string>, rest: string, other: string)
    requires segments != [] && Framed([]) + other == Framed(segments) + rest
    ensures '\n' in other
  {
    FramedHasNewline(segments);
    assert Framed([]) + other == other;
    assert '\n' in Framed(segments) + rest;
  }

  /** Two lines ended by their first newline are equal, and so are the rests. */
  lemma FirstLineUnique(x: string, t: string, y: string, u: string)
    requires NoNewline(x) && NoNewline(y)
    requires x + "\n" + t == y + "\n" + u
    ensures x == y && t == u
  {
    var s := x + "\n" + t;
    assert s[..|x|] == x && s[..|y|] == y;
    IndexOfFirst(s, '\n', |x|);
    IndexOfFirst(s, '\n', |y|);
    assert x == s[..|x|] && y == s[..|y|];
    assert t == s[|x| + 1..] && u == s[|y| + 1..];
  }

  /** The split the loop makes is the only one: newline-free segments, each
      followed by a newline, and a newline-free rest determine each other. */
  lemma {:induction false} FramingUnique(a: seq<string>, r1: string, b: seq<string>, r2: string)
    requires forall i :: 0 <= i < |a| ==> NoNewline(a[i])
    requires forall i :: 0 <= i < |b| ==> NoNewline(b[i])
    requires NoNewline(r1) && NoNewline(r2)
    requires Framed(a) + r1 == Framed(b) + r2
    ensures a == b && r1 == r2
    decreases |a|
  {
    if a == [] && b == [] {
      assert Framed(a) == "" && Framed(b) == "";
      assert Framed(a) + r1 == r1 && Framed(b) + r2 == r2;
    } else if a == [] {
      NewlineBeforeRest(b, r2, r1);
      assert false;
    } else if b == [] {
      NewlineBeforeRest(a, r1, r2);
      assert false;
    } else {
      FramedCons(a[0], a[1..]);
      FramedCons(b[0], b[1..]);
      assert [a[0]] + a[1..] == a && [b[0]] + b[1..] == b;
      calc {
        a[0] + "\n" + (Framed(a[1..]) + r1);
        a[0] + "\n" + Framed(a[1..]) + r1;
        Framed(a) + r1;
        Framed(b) + r2;
        b[0] + "\n" + Framed(b[1..]) + r2;
        b[0] + "\n" + (Framed(b[1..]) + r2);
      }
      FirstLineUnique(a[0], Framed(a[1..]) + r1, b[0], Framed(b[1..]) + r2);
      FramingUnique(a[1..], r1, b[1..], r2);
    }
  }

  /** The receiving side of the client's connection. */
  class Receiver {
    /** Text received but not yet ended by a newline. */
    var buffer: string

    constructor ()
      ensures buffer == ""
    {
      buffer := "";
    }

    /** One `data` event: append the chunk, then cut off every complete line.
        `segments` are all the lines cut off, in order; `parsed` are the ones
        handed on to `JSON.parse`. */
    method Receive(data: string) returns (segments: seq<string>, parsed: seq<string>)
      modifies this
      ensures NoNewline(buffer)
      ensures forall i :: 0 <= i < |segments| ==> NoNewline(segments[i])
      ensures Framed(segments) + buffer == old(buffer) + data
      ensures parsed == NonBlank(segments)
    {
      var rest := buffer + data;
      segments, parsed := [], [];
      var idx := IndexOf(rest, '\n');
      while idx != -1
        invariant idx == IndexOf(rest, '\n')
        invariant Framed(segments) + rest == old(buffer) + data
        invariant forall i :: 0 <= i < |segments| ==> NoNewline(segments[i])
        invariant parsed == NonBlank(segments)
        decreases |rest|
      {
        var line := rest[..idx];
        CutLine(Framed(segments), rest, idx);
        FramedSnoc(segments, line);
        NonBlankSnoc(segments, line);
        rest := rest[idx + 1..];
        segments := segments + [line];
        if Trim(line) != "" {
          parsed := parsed + [line];
        }
        idx := IndexOf(rest, '\n');
      }
      buffer := rest;
    }
  }

  /** Cutting the first line off the pending text keeps the whole stream. */
  lemma CutLine(done: string, rest: string, idx: int)
    requires 0 <= idx < |rest| && rest[idx] == '\n'
    ensures done + rest == done + rest[..idx] + "\n" + rest[idx + 1..]
  {
    assert rest == rest[..idx] + "\n" + rest[idx + 1..];
  }

  // ---------------------------------------------------------------------
  // Typed lines

  /** What `chatLoop` does with one typed line. */
  datatype LineAction =
    | Send(request: Request)        // one `client.write`
    | Exit                          // `client.end()` and `rl.close()`
    | ShowHelp                      // the command list, nothing sent
    | ReadAndUpload(path: string)   // read the file, then send FILE_UPLOAD
    | Usage(message: string)        // a usage line, nothing sent
    | UnknownCommand                // the unknown-command line, nothing sent

  predicate IsSlashLine(line: string)
  {
    var t := Trim(line);
    |t| > 0 && t[0] == '/'
  }

  /** The words of the trimmed line; the first one is the command. */
  function Words(line: string): (w: seq<string>)
    ensures |w| >= 1
  {
    Split(Trim(line))
  }

  function ArgAt(args: seq<string>, i: nat): string
  {
    if i < |args| then args[i] else ""
  }

  /** The request translation of `chatLoop`. */
  function ParseLine(line: string): (r: LineAction)
    ensures r.Send? && r.request.Message? ==> r == Send(Message(line)) && !IsSlashLine(line)
  {
    if IsSlashLine(line) then ParseCommand(Words(line)[0], Words(line)[1..])
    else Send(Message(line))
  }

  /** A slash line, as its first word and the words after it. */
  function ParseCommand(command: string, args: seq<string>): (r: LineAction)
    ensures r.Send? ==> !r.request.Message? && !r.request.Auth?
  {
    if command == "/exit" then Exit
    else if command == "/help" then ShowHelp
    else if command == "/users" then Send(Command("users", "", []))
    else if command == "/upload" then
      if JoinWords(args) == "" then Usage("Usage: /upload <filepath>") else ReadAndUpload(JoinWords(args))
    else if command == "/download" then
      if JoinWords(args) == "" then Usage("Usage: /download <filename>") else Send(FileDownload(JoinWords(args)))
    else if command == "/msg" then
      var recipient := ArgAt(args, 0);
      var text := if args == [] then "" else JoinWords(args[1..]);
      if recipient == "" || text == "" then Usage("Usage: /msg <username> <message>")
      else Send(PrivateMessage(recipient, text))
    else if command == "/join" then
      if JoinWords(args) == "" then Usage("Usage: /join <room>") else Send(Command("join", JoinWords(args), []))
    else if command == "/leave" then Send(Command("leave", "", []))
    else if command == "/rooms" then Send(Command("rooms", "", []))
    else if command == "/who" then Send(Command("who", "", []))
    else if command == "/approve" || command == "/reject" then
      var target := ArgAt(args, 0);
      if target == "" then Usage("Usage: " + command + " <username>")
      else Send(Command(command[1..], "", [target]))
    else UnknownCommand
  }

  /** A line whose trimmed form does not start with "/" is sent as a MESSAGE
      carrying the line exactly as typed; a slash line never becomes a MESSAGE. */
  lemma PlainLineSentVerbatim(line: string)
    ensures !IsSlashLine(line) <==> ParseLine(line) == Send(Message(line))
    ensures IsSlashLine(line) ==> !(ParseLine(line).Send? && ParseLine(line).request.Message?)
  {
    if IsSlashLine(line) {
      CommandRequests(Words(line)[0], Words(line)[1..]);
    }
  }

  /** `/join` sends the text after the first space of the trimmed line as
      the room, and nothing when that text is empty. */
  lemma JoinLine(line: string)
    requires IsSlashLine(line) && Words(line)[0] == "/join"
    ensures var room := AfterFirstSpace(Trim(line));
      && (room == "" ==> ParseLine(line) == Usage("Usage: /join <room>"))
      && (room != "" ==> ParseLine(line) == Send(Command("join", room, [])))
  {
    RestOfWords(Trim(line));
  }

  /** `/download` sends the text after the first space as the file name,
      and nothing when that text is empty. */
  lemma DownloadLine(line: string)
    requires IsSlashLine(line) && Words(line)[0] == "/download"
    ensures var name := AfterFirstSpace(Trim(line));
      && (name == "" ==> ParseLine(line) == Usage("Usage: /download <filename>"))
      && (name != "" ==> ParseLine(line) == Send(FileDownload(name)))
  {
    RestOfWords(Trim(line));
  }

  /** `/upload` names the file to read as the text after the first space,
      and reads nothing when that text is empty. */
  lemma UploadLine(line: string)
    requires IsSlashLine(line) && Words(line)[0] == "/upload"
    ensures var path := AfterFirstSpace(Trim(line));
      && (path == "" ==> ParseLine(line) == Usage("Usage: /upload <filepath>"))
      && (path != "" ==> ParseLine(line) == ReadAndUpload(path))
  {
    RestOfWords(Trim(line));
  }

  /** The commands without arguments: `/exit` ends the session, `/help`
      only shows the list, and `/users`, `/leave`, `/rooms`, `/who` send the
      COMMAND of that name, whatever follows them on the line. */
  lemma BareCommandLines(line: string)
    requires IsSlashLine(line)
    ensures var w := Words(line)[0];
      && (w == "/exit" ==> ParseLine(line) == Exit)
      && (w == "/help" ==> ParseLine(line) == ShowHelp)
      && (w == "/users" ==> ParseLine(line) == Send(Command("users", "", [])))
      && (w == "/leave" ==> ParseLine(line) == Send(Command("leave", "", [])))
      && (w == "/rooms" ==> ParseLine(line) == Send(Command("rooms", "", [])))
      && (w == "/who" ==> ParseLine(line) == Send(Command("who", "", [])))
  {
  }

  /** `/msg` sends a PRIVATE_MESSAGE exactly when both a recipient (the
      second word) and a text (everything after the second space) are
      present, and then with those. */
  lemma MsgLine(line: string)
    requires IsSlashLine(line) && Words(line)[0] == "/msg"
    ensures var t := Trim(line);
      var recipient := ArgAt(Words(line), 1);
      var text := AfterFirstSpace(AfterFirstSpace(t));
      && (ParseLine(line).Send? <==> recipient != "" && text != "")
      && (ParseLine(line).Send? ==> ParseLine(line).request == PrivateMessage(recipient, text))
      && (!ParseLine(line).Send? ==> ParseLine(line) == Usage("Usage: /msg <username> <message>"))
  {
    var t := Trim(line);
    var k := IndexOf(t, ' ');
    if k != -1 {
      var after := t[k + 1..];
      assert Words(line)[1..] == Split(after);
      assert AfterFirstSpace(t) == after;
      RestOfWords(after);
    }
  }

  /** `/approve x` and `/reject x` send the command without its slash and
      the single argument `x`; without a target nothing is sent. */
  lemma ApproveLine(line: string)
    requires IsSlashLine(line) && (Words(line)[0] == "/approve" || Words(line)[0] == "/reject")
    ensures var target := ArgAt(Words(line), 1);
      var name := if Words(line)[0] == "/approve" then "approve" else "reject";
      && (target == "" ==> ParseLine(line).Usage?)
      && (target != "" ==> ParseLine(line) == Send(Command(name, "", [target])))
  {
  }

  /** A slash command outside the known set sends nothing. */
  lemma UnknownSendsNothing(line: string)
    requires IsSlashLine(line)
    requires Words(line)[0] !in {"/exit", "/help", "/users", "/upload", "/download", "/msg",
                                 "/join", "/leave", "/rooms", "/who", "/approve", "/reject"}
    ensures ParseLine(line) == UnknownCommand
  {
  }

  /** Every request a typed line sends is one the server has a branch for,
      and none of them is an AUTH request. */
  lemma LineRequestsAreChat(line: string)
    ensures ParseLine(line).Send? ==>
      var r := ParseLine(line).request;
      || r.Message? || r.PrivateMessage? || r.FileDownload?
      || (r.Command? && r.command in {"users", "join", "leave", "rooms", "who", "approve", "reject"})
  {
    if IsSlashLine(line) {
      CommandRequests(Words(line)[0], Words(line)[1..]);
    }
  }

  /** The requests a slash command can send: never a MESSAGE or an AUTH. */
  lemma CommandRequests(command: string, args: seq<string>)
    ensures var a := ParseCommand(command, args);
      a.Send? ==>
        || a.request.PrivateMessage? || a.request.FileDownload?
        || (a.request.Command? && a.request.command in {"users", "join", "leave", "rooms", "who", "approve", "reject"})
  {
    if command == "/approve" {
      assert command[1..] == "approve";
    } else if command == "/reject" {
      assert command[1..] == "reject";
    }
  }

  // ---------------------------------------------------------------------
  // Start-up and the AUTH answer

  /** The action prompt: only "register" and "login" open a connection,
      which then writes the AUTH request. */
  function StartRequest(action: string, username: string, password: string): (r: Option<Request>)
    ensures r.Some? <==> action == "register" || action == "login"
    ensures r.Some? ==> r.value == Auth(action, username, password)
  {
    if action == "register" || action == "login" then Some(Auth(action, username, password)) else None
  }

  /** What the client does with one parsed response. */
  datatype Reaction =
    | EnterChat   // `loggedIn = true; chatLoop()`
    | Close       // `client.end(); rl.close()`
    | Display     // any other response is shown and the prompt restored

  function React(action: string, reply: Response): (k: Reaction)
    ensures k == EnterChat <==> reply.AuthReply? && reply.status == "success" && action == "login"
    ensures k == Close <==> reply.AuthReply? && !(reply.status == "success" && action == "login")
  {
    match reply
    case AuthReply(status, _) => if status == "success" && action == "login" then EnterChat else Close
    case _ => Display
  }
}
