// Administration datagrams: recognising one, copying its fields with a second
// scan of its own, checking version and key, and running the user commands.

module Mp3p {
  import opened Standards
  import opened Mp3pAutomaton
  import opened Mp3pGrammar
  import opened Users

  const VERSIONSIZE: nat := 128
  const AUTHORIZATION: nat := 512
  const UIDSIZE: nat := 256
  const USERNAMESIZE: nat := 256
  const PASSWORDSIZE: nat := 256
  const MAXDATAGRAMLENGTH: nat := 8096
  const MAX_UDP_REQUEST_SIZE: nat := 2048

  const VERSION := "V1.0"
  const AUTHKEY := "C9h2iUZ4sWJY16fDl7Vg5RnH0vN8aQpX"

  /** What handleUdpRequest hands over: at least one byte and a NUL. */
  predicate Received(t: string) { 2 <= |t| <= MAX_UDP_REQUEST_SIZE + 1 && t[|t| - 1] == NUL }

  // ------------------------------------------------------- the second scan

  /** How far `t` is free of `a` and `b`. */
  function Span(t: string, a: char, b: char): (k: nat)
    ensures k <= |t|
    ensures k < |t| ==> t[k] == a || t[k] == b
    ensures forall i :: 0 <= i < k ==> t[i] != a && t[i] != b
  {
    if t == "" || t[0] == a || t[0] == b then 0 else 1 + Span(t[1..], a, b)
  }

  /** A field up to `a` or `b`, and what follows from there on.  Nothing when
      the copy would leave the datagram or the `size` bytes of the field. */
  function Field(t: string, a: char, b: char, size: nat): Option<(string, string)> {
    var k := Span(t, a, b);
    if k < |t| && k < size then Some((t[..k], t[k..])) else None
  }

  /** `strchr`: what starts at the first `c`. */
  function Strchr(t: string, c: char): Option<string> {
    var k := Span(t, c, NUL);
    if k < |t| && t[k] == c then Some(t[k..]) else None
  }

  /** `strrchr`: what starts at the last `c` of the text before a NUL. */
  function Strrchr(t: string, c: char): Option<string> {
    LastIn(t, Span(t, NUL, NUL), c)
  }

  function LastIn(t: string, n: nat, c: char): (r: Option<string>)
    requires n <= |t|
    ensures r.Some? ==> r.value != "" && r.value[0] == c
  {
    if n == 0 then None else if t[n - 1] == c then Some(t[n - 1..]) else LastIn(t, n - 1, c)
  }

  datatype Headers = Headers(version: string, uniqueID: string, authorization: string,
                             username: Option<string>, password: Option<string>)

  function UsernameIn(line: string): Option<string> {
    match Strchr(line, ' ')
    case None => None
    case Some(p) => match Field(p[1..], ' ', NUL, USERNAMESIZE) case None => None case Some(f) => Some(f.0)
  }

  function PasswordIn(line: string): Option<string> {
    match Strrchr(line, ' ')
    case None => None
    case Some(p) => match Field(p[1..], NUL, ' ', PASSWORDSIZE) case None => None case Some(f) => Some(f.0)
  }

  /** A line and what is behind its newline. */
  function LineOf(t: string, size: nat): Option<(string, string)> {
    match Field(t, '\n', '\n', size) case None => None case Some(f) => Some((f.0, f.1[1..]))
  }

  /** The arguments that a command in this state has. */
  function ArgumentsIn(line: string, st: State): Option<(Option<string>, Option<string>)> {
    if st == DGRAM_MP_COMMAND || st == DGRAM_AU_COMMAND then
      if UsernameIn(line).Some? && PasswordIn(line).Some? then Some((UsernameIn(line), PasswordIn(line))) else None
    else if st == DGRAM_DU_COMMAND then
      if UsernameIn(line).Some? then Some((UsernameIn(line), None)) else None
    else Some((None, None))
  }

  /** copyDgramData.  Nothing when it would go outside its buffers. */
  function CopyDgramData(t: string, st: State): Option<Headers> {
    match Strchr(t, 'V')
    case None => None
    case Some(p) =>
      match LineOf(p, VERSIONSIZE)
      case None => None
      case Some(v) =>
        match LineOf(v.1, UIDSIZE)
        case None => None
        case Some(id) =>
          match LineOf(id.1, AUTHORIZATION)
          case None => None
          case Some(key) =>
            match ArgumentsIn(key.1, st)
            case None => None
            case Some(args) => Some(Headers(v.0, id.0, key.0, args.0, args.1))
  }

  // ------------------------------- what it copies from the grammar's datagrams

  predicate Free(w: string, a: char, b: char) { forall i :: 0 <= i < |w| ==> w[i] != a && w[i] != b }

  lemma {:induction false} SpanIs(w: string, a: char, b: char, tail: string)
    requires Free(w, a, b) && (tail != "" ==> tail[0] == a || tail[0] == b)
    ensures Span(w + tail, a, b) == |w|
  {
    if w == "" {
      assert w + tail == tail;
    } else {
      assert (w + tail)[1..] == w[1..] + tail;
      SpanIs(w[1..], a, b, tail);
    }
  }

  lemma {:induction false} FieldIs(w: string, a: char, b: char, tail: string, size: nat)
    requires Free(w, a, b) && tail != "" && (tail[0] == a || tail[0] == b)
    ensures Field(w + tail, a, b, size) == if |w| < size then Some((w, tail)) else None
  {
    SpanIs(w, a, b, tail);
    assert (w + tail)[..|w|] == w && (w + tail)[|w|..] == tail;
  }

  lemma {:induction false} LineIs(w: string, tail: string, size: nat)
    requires Free(w, '\n', '\n')
    ensures LineOf(w + (['\n'] + tail), size) == if |w| < size then Some((w, tail)) else None
  {
    FieldIs(w, '\n', '\n', ['\n'] + tail, size);
    assert (['\n'] + tail)[1..] == tail;
  }

  lemma {:induction false} StrchrIs(w: string, c: char, tail: string)
    requires Free(w, c, NUL)
    ensures Strchr(w + ([c] + tail), c) == Some([c] + tail)
  {
    SpanIs(w, c, NUL, [c] + tail);
    assert (w + ([c] + tail))[|w|..] == [c] + tail;
  }

  /** The last blank is the one that has no blank behind it. */
  lemma {:induction false} StrrchrIs(w: string, last: string, tail: string)
    requires Free(w, NUL, NUL) && Free(last, ' ', NUL)
    ensures Strrchr(w + ([' '] + (last + ([NUL] + tail))), ' ') == Some([' '] + (last + ([NUL] + tail)))
  {
    var t := w + ([' '] + (last + ([NUL] + tail)));
    var text := w + ([' '] + last);
    assert t == text + ([NUL] + tail);
    assert Free(text, NUL, NUL);
    SpanIs(text, NUL, NUL, [NUL] + tail);
    LastInIs(t, |w| + 1 + |last|, |w|);
    assert t[|w|..] == [' '] + (last + ([NUL] + tail));
  }

  lemma {:induction false} LastInIs(t: string, n: nat, k: nat)
    requires k < n <= |t| && t[k] == ' ' && forall i :: k < i < n ==> t[i] != ' '
    ensures LastIn(t, n, ' ') == Some(t[k..])
  {
    if k < n - 1 { LastInIs(t, n - 1, k); }
  }

  // ------------------------------------------------ the two scans agree

  predicate FitsHeader(h: Header) { |Version(h)| < VERSIONSIZE }

  predicate FitsCommand(c: Command) {
    match c
    case DU(user) => |user| < USERNAMESIZE
    case MP(user, password) => |user| < USERNAMESIZE && |password| < PASSWORDSIZE
    case AU(user, password) => |user| < USERNAMESIZE && |password| < PASSWORDSIZE
    case _ => true
  }

  lemma {:induction false} OnlyArgument(name: string, user: string, stop: char, tail: string)
    requires Free(name, ' ', NUL) && Word(user) && (stop == ' ' || stop == NUL)
    ensures UsernameIn(name + ([' '] + (user + ([stop] + tail)))) == if |user| < USERNAMESIZE then Some(user) else None
  {
    var rest := user + ([stop] + tail);
    StrchrIs(name, ' ', rest);
    assert ([' '] + rest)[1..] == rest;
    FieldIs(user, ' ', NUL, [stop] + tail, USERNAMESIZE);
  }

  lemma {:induction false} LastArgument(front: string, password: string)
    requires Free(front, NUL, NUL) && Word(password)
    ensures PasswordIn(front + ([' '] + (password + ([NUL] + "")))) ==
              if |password| < PASSWORDSIZE then Some(password) else None
  {
    var rest := password + ([NUL] + "");
    var line := front + ([' '] + rest);
    StrrchrIs(front, password, "");
    assert Strrchr(line, ' ') == Some([' '] + rest);
    CutBlank(rest);
    PasswordField(password);
  }

  lemma {:induction false} CutBlank(rest: string)
    ensures ([' '] + rest)[1..] == rest
  {}

  lemma {:induction false} PasswordField(password: string)
    requires Word(password)
    ensures Field(password + ([NUL] + ""), NUL, ' ', PASSWORDSIZE) ==
      if |password| < PASSWORDSIZE then Some((password, [NUL] + "")) else None
  {
    FieldIs(password, NUL, ' ', [NUL] + "", PASSWORDSIZE);
  }

  lemma {:induction false} TwoLast(name: string, user: string, password: string)
    requires Free(name, ' ', NUL) && Word(user) && Word(password)
    ensures var line := name + (" " + (user + (" " + password))) + [NUL];
            UsernameIn(line) == (if |user| < USERNAMESIZE then Some(user) else None) &&
            PasswordIn(line) == (if |password| < PASSWORDSIZE then Some(password) else None)
  {
    var line := name + (" " + (user + (" " + password))) + [NUL];
    var front := name + ([' '] + user);
    assert line == name + ([' '] + (user + ([' '] + (password + [NUL]))));
    assert line == front + ([' '] + (password + ([NUL] + "")));
    OnlyArgument(name, user, ' ', password + [NUL]);
    LastArgument(front, password);
  }

  /** The arguments copied are those of the command, and nothing is copied for
      a command that has none. */
  lemma {:induction false} ArgumentsAgree(c: Command)
    requires CommandOk(c)
    ensures ArgumentsIn(RenderCommand(c) + [NUL], StateOf(c)) ==
              if FitsCommand(c) then Some((UserOf(c), PasswordOf(c))) else None
  {
    match c
    case DU(user) =>
      assert RenderCommand(c) + [NUL] == "DU" + ([' '] + (user + ([NUL] + "")));
      OnlyArgument("DU", user, NUL, "");
    case MP(user, password) => TwoLast("MP", user, password);
    case AU(user, password) => TwoLast("AU", user, password);
    case _ =>
  }

  lemma {:induction false} VersionSpelled(h: Header, tail: string)
    requires HeaderOk(h)
    ensures RenderHeader(h) + tail ==
              "MP3P " + (['V'] + (h.major + "." + [h.minor] + (['\n'] + (h.id + (['\n'] + tail)))))
    ensures ['V'] + (h.major + "." + [h.minor] + (['\n'] + (h.id + (['\n'] + tail)))) ==
              Version(h) + (['\n'] + (h.id + (['\n'] + tail)))
    ensures Free(Version(h), '\n', '\n') && Free(h.id, '\n', '\n') && Free("MP3P ", 'V', NUL)
  {}

  /** The identifier and the key are always copied whole. */
  lemma {:induction false} HeaderLines(h: Header, tail: string)
    requires HeaderOk(h)
    ensures var t := RenderHeader(h) + tail;
            var p := Version(h) + (['\n'] + (h.id + (['\n'] + tail)));
            Strchr(t, 'V') == Some(p) &&
            LineOf(p, VERSIONSIZE) == (if FitsHeader(h) then Some((Version(h), h.id + (['\n'] + tail))) else None) &&
            LineOf(h.id + (['\n'] + tail), UIDSIZE) == Some((h.id, tail))
  {
    VersionSpelled(h, tail);
    StrchrIs("MP3P ", 'V', h.major + "." + [h.minor] + (['\n'] + (h.id + (['\n'] + tail))));
    LineIs(Version(h), h.id + (['\n'] + tail), VERSIONSIZE);
    LineIs(h.id, tail, UIDSIZE);
  }

  /** What copyDgramData copies once the three header lines are known. */
  lemma {:induction false} CopyAfterKey(h: Header, key: string, line: string, st: State)
    requires HeaderOk(h) && Identifier(key)
    ensures CopyDgramData(RenderHeader(h) + (key + (['\n'] + line)), st) ==
      if !FitsHeader(h) then None
      else match ArgumentsIn(line, st)
           case None => None
           case Some(args) => Some(Headers(Version(h), h.id, key, args.0, args.1))
  {
    HeaderLines(h, key + (['\n'] + line));
    LineIs(key, line, AUTHORIZATION);
  }

  function HeadersOf(d: Datagram): Headers {
    Headers(Version(d.header), d.header.id, d.key, UserOf(d.command), PasswordOf(d.command))
  }

  predicate Fits(d: Datagram) { FitsHeader(d.header) && FitsCommand(d.command) }

  /** The second scan finds the fields that the grammar put there; it leaves its
      buffers exactly when the version or an argument is too long for its field. */
  lemma {:induction false} ScansAgree(d: Datagram)
    requires WellFormed(d)
    ensures CopyDgramData(Render(d), StateOf(d.command)) == if Fits(d) then Some(HeadersOf(d)) else None
  {
    var line := RenderCommand(d.command) + [NUL];
    CopyAfterKey(d.header, d.key, line, StateOf(d.command));
    BodySpelled(d);
    ArgumentsAgree(d.command);
  }

  lemma {:induction false} BodySpelled(d: Datagram)
    ensures Render(d) == RenderHeader(d.header) + (d.key + (['\n'] + (RenderCommand(d.command) + [NUL])))
  {}

  /** A datagram whose command is refused still yields version, identifier and key. */
  lemma {:induction false} CopyRefused(h: Header, key: string, tail: string)
    requires HeaderOk(h) && Identifier(key)
    ensures CopyDgramData(RenderKey(h, key) + tail, DGRAM_INVALID_COMMAND) ==
      if FitsHeader(h) then Some(Headers(Version(h), h.id, key, None, None)) else None
  {
    KeySpelled(h, key, tail);
    CopyAfterKey(h, key, tail, DGRAM_INVALID_COMMAND);
  }

  lemma {:induction false} Cancel(w: string, x: string, v: string, y: string, c: char)
    requires Free(w, c, c) && Free(v, c, c) && w + ([c] + x) == v + ([c] + y)
    ensures w == v && x == y
  {
    SpanIs(w, c, c, [c] + x);
    SpanIs(v, c, c, [c] + y);
    assert w == (w + ([c] + x))[..|w|] && v == (v + ([c] + y))[..|v|];
    assert x == (w + ([c] + x))[|w| + 1..] && y == (v + ([c] + y))[|v| + 1..];
  }

  lemma {:induction false} LinesSpelled(d: Datagram)
    requires WellFormed(d)
    ensures Render(d)[5..] ==
              Version(d.header) + (['\n'] +
                (d.header.id + (['\n'] + (d.key + (['\n'] + (RenderCommand(d.command) + [NUL]))))))
    ensures Free(Version(d.header), '\n', '\n') && Free(d.header.id, '\n', '\n') && Free(d.key, '\n', '\n')
  {}

  /** No text is the rendering of two datagrams. */
  lemma {:induction false} RenderUnique(a: Datagram, b: Datagram)
    requires WellFormed(a) && WellFormed(b) && Render(a) == Render(b)
    ensures a == b
  {
    DatagramRead(START, a, "");
    DatagramRead(START, b, "");
    assert Render(a) + "" == Render(a) && Render(b) + "" == Render(b);
    LinesSpelled(a);
    LinesSpelled(b);
    var la, lb := RenderCommand(a.command) + [NUL], RenderCommand(b.command) + [NUL];
    Cancel(Version(a.header), a.header.id + (['\n'] + (a.key + (['\n'] + la))),
           Version(b.header), b.header.id + (['\n'] + (b.key + (['\n'] + lb))), '\n');
    Cancel(a.header.id, a.key + (['\n'] + la), b.header.id, b.key + (['\n'] + lb), '\n');
    Cancel(a.key, la, b.key, lb, '\n');
    VersionUnique(a.header, b.header);
    CommandUnique(a.command, b.command);
  }

  lemma {:induction false} VersionUnique(a: Header, b: Header)
    requires Version(a) == Version(b)
    ensures a.major == b.major && a.minor == b.minor
  {
    var v, w := Version(a), Version(b);
    assert v[1..|v| - 2] == a.major && w[1..|w| - 2] == b.major;
    assert v[|v| - 1] == a.minor && w[|w| - 1] == b.minor;
  }

  lemma {:induction false} CommandUnique(a: Command, b: Command)
    requires CommandOk(a) && CommandOk(b) && StateOf(a) == StateOf(b) &&
             RenderCommand(a) + [NUL] == RenderCommand(b) + [NUL]
    ensures a == b
  {
    assert RenderCommand(a) == (RenderCommand(a) + [NUL])[..|RenderCommand(a)|];
    assert RenderCommand(b) == (RenderCommand(b) + [NUL])[..|RenderCommand(b)|];
    ArgumentsUnique(a, b);
  }

  lemma {:induction false} ArgumentsUnique(a: Command, b: Command)
    requires CommandOk(a) && CommandOk(b) && StateOf(a) == StateOf(b) && RenderCommand(a) == RenderCommand(b)
    ensures a == b
  {
    var x, y := RenderCommand(a), RenderCommand(b);
    RestSpelled(a);
    RestSpelled(b);
    if PasswordOf(a).Some? {
      Cancel(UserOf(a).value, PasswordOf(a).value, UserOf(b).value, PasswordOf(b).value, ' ');
    }
  }

  lemma {:induction false} RestSpelled(c: Command)
    requires CommandOk(c)
    ensures PasswordOf(c).Some? ==>
              UserOf(c).Some? && Rest(RenderCommand(c)) == UserOf(c).value + ([' '] + PasswordOf(c).value)
    ensures UserOf(c).Some? && PasswordOf(c).None? ==> Rest(RenderCommand(c)) == UserOf(c).value
  {}

  /** Behind the name and one blank. */
  function Rest(line: string): string { if |line| < 3 then "" else line[3..] }

  // ------------------------------------------------------------ the answer

  datatype Strategy =
    | BytesTransfered | BytesRecieved | HistoricConnections | ConcurrentConnections | ListUsers | ListCapabilities
    | ModifyUserPassword | DeleteUser | AddUser
    | BadAuthorization | InvalidCommand | Unauthorized | VersionMismatch

  /** `Overrun` is a copy that would leave the datagram or a field. */
  datatype Outcome = Dropped | Overrun | Parsed(headers: Headers, strategy: Strategy)

  /** The function that carries out a command. */
  function StrategyFor(st: State): Strategy
    requires IsCommand(st)
  {
    match st
    case DGRAM_BT_COMMAND => BytesTransfered
    case DGRAM_BR_COMMAND => BytesRecieved
    case DGRAM_HC_COMMAND => HistoricConnections
    case DGRAM_CC_COMMAND => ConcurrentConnections
    case DGRAM_LU_COMMAND => ListUsers
    case DGRAM_LC_COMMAND => ListCapabilities
    case DGRAM_MP_COMMAND => ModifyUserPassword
    case DGRAM_DU_COMMAND => DeleteUser
    case DGRAM_AU_COMMAND => AddUser
  }

  /** Version before key; neither is looked at after a refusal. */
  function Judge(st: State, h: Headers): Strategy
    requires Over(st) && st != DGRAMDISCARD
  {
    if st == DGRAMBADAUTH then BadAuthorization
    else if st == DGRAM_INVALID_COMMAND then InvalidCommand
    else if h.version != VERSION then VersionMismatch
    else if h.authorization != AUTHKEY then Unauthorized
    else StrategyFor(st)
  }

  /** What a datagram is taken for. */
  function OutcomeOf(t: string): Outcome
    requires Received(t)
  {
    var st := Scan(Begin(START), t).state;
    ScanEnds(Begin(START), t);
    if st == DGRAMDISCARD then Dropped
    else match CopyDgramData(t, st) case None => Overrun case Some(h) => Parsed(h, Judge(st, h))
  }

  predicate Authorised(d: Datagram) { Version(d.header) == VERSION && d.key == AUTHKEY }

  function AnswerTo(d: Datagram): Strategy {
    if Version(d.header) != VERSION then VersionMismatch
    else if d.key != AUTHKEY then Unauthorized
    else StrategyFor(StateOf(d.command))
  }

  lemma {:induction false} StateIs(d: Datagram)
    requires WellFormed(d)
    ensures Scan(Begin(START), Render(d)).state == StateOf(d.command)
  {
    DatagramRead(START, d, "");
    assert Render(d) + "" == Render(d);
  }

  /** A datagram of the grammar is answered by its own command with its own
      fields if it is authorised, and otherwise says what was wrong first. */
  lemma {:induction false} AnswerIs(d: Datagram)
    requires WellFormed(d) && Received(Render(d))
    ensures OutcomeOf(Render(d)) == if Fits(d) then Parsed(HeadersOf(d), AnswerTo(d)) else Overrun
  {
    StateIs(d);
    ScansAgree(d);
    JudgeIs(d);
  }

  lemma {:induction false} JudgeIs(d: Datagram)
    ensures IsCommand(StateOf(d.command)) && Judge(StateOf(d.command), HeadersOf(d)) == AnswerTo(d)
  {}

  // ------------------------------------------------ when the copy goes outside

  /** The third line of a datagram whose key is refused: up to any newline. */
  lemma {:induction false} CopyBadKey(h: Header, tail: string)
    requires HeaderOk(h)
    ensures CopyDgramData(RenderHeader(h) + tail, DGRAMBADAUTH).None? <==>
            !FitsHeader(h) || LineOf(tail, AUTHORIZATION) == None
  {
    HeaderLines(h, tail);
  }

  /** The copy leaves its buffers exactly when the version or an argument is too
      long for its field, or a refused key line has no newline or is too long.
      Neither the key nor the version has been checked by then. */
  lemma {:induction false} OverrunExactly(t: string)
    requires Received(t)
    ensures forall d :: WellFormed(d) && Render(d) == t ==> (OutcomeOf(t) == Overrun <==> !Fits(d))
    ensures forall h, key :: HeaderOk(h) && Identifier(key) && RenderKey(h, key) <= t && !HasDatagram(t) ==>
              (OutcomeOf(t) == Overrun <==> !FitsHeader(h))
    ensures forall h :: HeaderOk(h) && RenderHeader(h) <= t && !HasKey(t) ==>
              (OutcomeOf(t) == Overrun <==> !FitsHeader(h) || LineOf(t[|RenderHeader(h)|..], AUTHORIZATION) == None)
    ensures !HasHeader(t) || (HasDatagram(t) && !IsDatagram(t)) ==> OutcomeOf(t) == Dropped
  {
    forall d | WellFormed(d) && Render(d) == t ensures OutcomeOf(t) == Overrun <==> !Fits(d) { AnswerIs(d); }
    forall h, key | HeaderOk(h) && Identifier(key) && RenderKey(h, key) <= t && !HasDatagram(t)
      ensures OutcomeOf(t) == Overrun <==> !FitsHeader(h)
    {
      RefusedOverrun(t, h, key);
    }
    forall h | HeaderOk(h) && RenderHeader(h) <= t && !HasKey(t)
      ensures OutcomeOf(t) == Overrun <==> !FitsHeader(h) || LineOf(t[|RenderHeader(h)|..], AUTHORIZATION) == None
    {
      BadKeyOverrun(t, h);
    }
    RefusalsExact(START, t);
  }

  lemma {:induction false} RefusedOverrun(t: string, h: Header, key: string)
    requires Received(t) && HeaderOk(h) && Identifier(key) && RenderKey(h, key) <= t && !HasDatagram(t)
    ensures OutcomeOf(t) == Overrun <==> !FitsHeader(h)
  {
    RefusalsExact(START, t);
    var tail := t[|RenderKey(h, key)|..];
    assert RenderKey(h, key) + tail == t;
    CopyRefused(h, key, tail);
  }

  lemma {:induction false} BadKeyOverrun(t: string, h: Header)
    requires Received(t) && HeaderOk(h) && RenderHeader(h) <= t && !HasKey(t)
    ensures OutcomeOf(t) == Overrun <==> !FitsHeader(h) || LineOf(t[|RenderHeader(h)|..], AUTHORIZATION) == None
  {
    RefusalsExact(START, t);
    var tail := t[|RenderHeader(h)|..];
    assert RenderHeader(h) + tail == t;
    CopyBadKey(h, tail);
  }

  /** Anyone can do it: a version of 125 digits and more, with any key. */
  lemma {:induction false} UnauthorisedOverrun(key: string, n: nat)
    requires Identifier(key) && 125 <= n <= 1900
    ensures var d := Datagram(Header(seq(n, _ => '1'), '0', seq(IDLENGTH, _ => 'a')), key, BT);
            WellFormed(d) && Received(Render(d)) && !Authorised(d) && OutcomeOf(Render(d)) == Overrun
  {
    var h := Header(seq(n, _ => '1'), '0', seq(IDLENGTH, _ => 'a'));
    var d := Datagram(h, key, BT);
    assert |Version(h)| == n + 3;
    AnswerIs(d);
  }

  predicate CarriesOut(s: Strategy) {
    !s.BadAuthorization? && !s.InvalidCommand? && !s.Unauthorized? && !s.VersionMismatch?
  }

  predicate IsCarriedOut(o: Outcome) { o.Parsed? && CarriesOut(o.strategy) }

  lemma {:induction false} CarriedOutIsCommand(t: string)
    requires Received(t) && IsCarriedOut(OutcomeOf(t))
    ensures IsCommand(Scan(Begin(START), t).state)
  {
    ScanEnds(Begin(START), t);
  }

  lemma {:induction false} CarriedOutIf(d: Datagram)
    requires WellFormed(d) && Received(Render(d))
    ensures IsCarriedOut(OutcomeOf(Render(d))) <==> Fits(d) && Authorised(d)
  {
    AnswerIs(d);
    AnswerCarries(d);
  }

  lemma {:induction false} AnswerCarries(d: Datagram)
    ensures CarriesOut(AnswerTo(d)) <==> Authorised(d)
  {}

  ghost predicate Commands(t: string, d: Datagram) { WellFormed(d) && Render(d) == t && Fits(d) && Authorised(d) }

  /** A command is carried out for the authorised datagrams of the grammar only. */
  lemma {:induction false} CarriedOutExactly(t: string)
    requires Received(t)
    ensures IsCarriedOut(OutcomeOf(t)) <==> exists d :: Commands(t, d)
  {
    if IsCarriedOut(OutcomeOf(t)) {
      var d := WhatIsCarriedOut(t);
    }
    if d :| Commands(t, d) {
      CarriedOutIf(d);
    }
  }

  lemma {:induction false} WhatIsCarriedOut(t: string) returns (d: Datagram)
    requires Received(t) && IsCarriedOut(OutcomeOf(t))
    ensures Commands(t, d)
  {
    CarriedOutIsCommand(t);
    RecogniserExact(START, t);
    d :| WellFormed(d) && Render(d) == t;
    CarriedOutIf(d);
  }

  // -------------------------------------------------------- the user commands

  const OK: nat := 200
  const UNAUTHORIZED: nat := 100
  const WRONG_PROTOCOL_VERSION: nat := 101
  const RESOURCE_NOT_FOUND: nat := 102
  const BADAUTHORIZATIONFORMATION: nat := 103
  const INVALID_COMMAND_FORMATION: nat := 104

  predicate HasArguments(s: Strategy, h: Headers) {
    ((s.DeleteUser? || s.AddUser? || s.ModifyUserPassword?) ==> h.username.Some?) &&
    ((s.AddUser? || s.ModifyUserPassword?) ==> h.password.Some?)
  }

  /** The user table after a request, and the status in the answer. */
  function Carry(s: Strategy, h: Headers, u: UserTable): (UserTable, nat)
    requires HasArguments(s, h)
  {
    match s
    case ModifyUserPassword =>
      (ModifyPassword(u, h.username.value, h.password.value), if h.username.value in u then OK else RESOURCE_NOT_FOUND)
    case AddUser =>
      (if h.username.value in u then ModifyPassword(u, h.username.value, h.password.value)
       else Insert(u, h.username.value, h.password.value), OK)
    case DeleteUser => (u - {h.username.value}, OK)
    case BadAuthorization => (u, BADAUTHORIZATIONFORMATION)
    case InvalidCommand => (u, INVALID_COMMAND_FORMATION)
    case Unauthorized => (u, UNAUTHORIZED)
    case VersionMismatch => (u, WRONG_PROTOCOL_VERSION)
    case _ => (u, OK)
  }

  lemma {:induction false} ArgumentsCopied(t: string)
    requires Received(t) && OutcomeOf(t).Parsed?
    ensures HasArguments(OutcomeOf(t).strategy, OutcomeOf(t).headers)
  {
    if IsCarriedOut(OutcomeOf(t)) {
      var d := WhatIsCarriedOut(t);
      AnswerIs(d);
      ArgumentsThere(d);
    }
  }

  lemma {:induction false} ArgumentsThere(d: Datagram)
    ensures HasArguments(AnswerTo(d), HeadersOf(d))
  {}

  /** handleUdpRequest, without the text of the answer: the table and the status,
      if an answer is sent.  Nothing is said when the copy leaves its buffers. */
  function Request(t: string, u: UserTable): Option<(UserTable, Option<nat>)>
    requires Received(t)
  {
    match OutcomeOf(t)
    case Dropped => Some((u, None))
    case Overrun => None
    case Parsed(h, s) =>
      ArgumentsCopied(t);
      Some((Carry(s, h, u).0, Some(Carry(s, h, u).1)))
  }

  /** The effect of a command on the table, said of the names in it. */
  ghost predicate Effect(c: Command, u: UserTable, v: UserTable) {
    match c
    case DU(user) => user !in v && forall n :: n != user ==> (n in v <==> n in u) && (n in u ==> v[n] == u[n])
    case AU(user, password) =>
      ValidPassword(v, user, password) && (IsConnected(v, user) <==> IsConnected(u, user)) &&
      forall n :: n != user ==> (n in v <==> n in u) && (n in u ==> v[n] == u[n])
    case MP(user, password) =>
      (user in v <==> user in u) && (user in u ==> ValidPassword(v, user, password)) &&
      (IsConnected(v, user) <==> IsConnected(u, user)) &&
      forall n :: n != user ==> (n in v <==> n in u) && (n in u ==> v[n] == u[n])
    case _ => v == u
  }

  /** The answer is a refusal with this status, and the table stays. */
  ghost predicate RefusedWith(t: string, u: UserTable, s: Strategy, code: nat)
    requires Received(t)
  {
    OutcomeOf(t).Parsed? && OutcomeOf(t).strategy == s && Request(t, u) == Some((u, Some(code)))
  }

  /** The status for each refusal. */
  function CodeOf(s: Strategy): nat {
    match s
    case BadAuthorization => 103
    case InvalidCommand => 104
    case Unauthorized => 100
    case VersionMismatch => 101
    case _ => 200
  }

  lemma {:induction false} CarryRefuses(s: Strategy, h: Headers, u: UserTable)
    requires HasArguments(s, h) && !CarriesOut(s)
    ensures Carry(s, h, u) == (u, CodeOf(s))
  {}

  lemma {:induction false} RefusalAnswer(t: string, u: UserTable, s: Strategy)
    requires Received(t) && OutcomeOf(t).Parsed? && OutcomeOf(t).strategy == s && !CarriesOut(s)
    ensures RefusedWith(t, u, s, CodeOf(s))
  {
    ArgumentsCopied(t);
    CarryRefuses(s, OutcomeOf(t).headers, u);
  }

  lemma {:induction false} StateOutcome(t: string, o: Outcome, st: State)
    requires Received(t) && o == OutcomeOf(t) && o != Overrun && st == Scan(Begin(START), t).state
    ensures o == Dropped <==> st == DGRAMDISCARD
    ensures st == DGRAMBADAUTH ==> o.strategy == BadAuthorization
    ensures st == DGRAM_INVALID_COMMAND ==> o.strategy == InvalidCommand
  {
    ScanEnds(Begin(START), t);
  }

  lemma {:induction false} StateAnswer(t: string, u: UserTable, st: State)
    requires Received(t) && OutcomeOf(t) != Overrun && st == Scan(Begin(START), t).state
    ensures st == DGRAMBADAUTH ==> RefusedWith(t, u, BadAuthorization, CodeOf(BadAuthorization))
    ensures st == DGRAM_INVALID_COMMAND ==> RefusedWith(t, u, InvalidCommand, CodeOf(InvalidCommand))
  {
    StateOutcome(t, OutcomeOf(t), st);
    if st == DGRAMBADAUTH { RefusalAnswer(t, u, BadAuthorization); }
    if st == DGRAM_INVALID_COMMAND { RefusalAnswer(t, u, InvalidCommand); }
  }

  lemma {:induction false} DropAnswer(t: string, u: UserTable)
    requires Received(t) && Scan(Begin(START), t).state == DGRAMDISCARD
    ensures Request(t, u) == Some((u, None))
  {
    assert OutcomeOf(t) == Dropped;
  }

  /** What is answered to a malformed key line, unless the copy leaves its buffers. */
  lemma {:induction false} KeyAnswer(t: string, u: UserTable)
    requires Received(t) && OutcomeOf(t) != Overrun && HasHeader(t) && !HasKey(t)
    ensures RefusedWith(t, u, BadAuthorization, 103)
  {
    RefusalsExact(START, t);
    StateAnswer(t, u, DGRAMBADAUTH);
  }

  /** The same for a malformed command behind a well-formed key line. */
  lemma {:induction false} LineAnswer(t: string, u: UserTable)
    requires Received(t) && OutcomeOf(t) != Overrun && HasKey(t) && !HasDatagram(t)
    ensures RefusedWith(t, u, InvalidCommand, 104)
  {
    RefusalsExact(START, t);
    StateAnswer(t, u, DGRAM_INVALID_COMMAND);
  }

  /** And what is not answered at all. */
  lemma {:induction false} NotAnswered(t: string, u: UserTable)
    requires Received(t) && (!HasHeader(t) || (HasDatagram(t) && !IsDatagram(t)))
    ensures Request(t, u) == Some((u, None))
  {
    RefusalsExact(START, t);
    DropAnswer(t, u);
  }

  /** What is answered to a datagram of the grammar: what is wrong with it first. */
  lemma {:induction false} DatagramAnswer(d: Datagram, u: UserTable)
    requires WellFormed(d) && Received(Render(d)) && Fits(d)
    ensures Version(d.header) != VERSION ==> RefusedWith(Render(d), u, VersionMismatch, 101)
    ensures Version(d.header) == VERSION && d.key != AUTHKEY ==> RefusedWith(Render(d), u, Unauthorized, 100)
  {
    AnswerIs(d);
    if Version(d.header) != VERSION {
      RefusalAnswer(Render(d), u, VersionMismatch);
    } else if d.key != AUTHKEY {
      RefusalAnswer(Render(d), u, Unauthorized);
    }
  }

  /** And what is right is taken for the command it names. */
  lemma {:induction false} CommandAnswer(d: Datagram)
    requires WellFormed(d) && Received(Render(d)) && Fits(d) && Authorised(d)
    ensures OutcomeOf(Render(d)) == Parsed(HeadersOf(d), Named(d.command))
  {
    AnswerIs(d);
    NamedIs(d.command);
  }

  /** The function that a command is for. */
  function Named(c: Command): Strategy {
    match c
    case BT => BytesTransfered
    case BR => BytesRecieved
    case HC => HistoricConnections
    case CC => ConcurrentConnections
    case LU => ListUsers
    case LC => ListCapabilities
    case MP(_, _) => ModifyUserPassword
    case DU(_) => DeleteUser
    case AU(_, _) => AddUser
  }

  lemma {:induction false} NamedIs(c: Command)
    ensures StrategyFor(StateOf(c)) == Named(c)
  {}

  /** An authorised datagram does to the table what its command says. */
  lemma {:induction false} RequestDoes(d: Datagram, u: UserTable)
    requires WellFormed(d) && Received(Render(d)) && Fits(d) && Authorised(d)
    ensures var code := if d.command.MP? && d.command.user !in u then RESOURCE_NOT_FOUND else OK;
            match Request(Render(d), u)
            case None => false
            case Some((v, status)) => Effect(d.command, u, v) && status == Some(code)
  {
    AnswerIs(d);
    CarryDoes(d.command, HeadersOf(d), u);
  }

  lemma {:induction false} CarryDoes(c: Command, h: Headers, u: UserTable)
    requires h.username == UserOf(c) && h.password == PasswordOf(c)
    ensures var (v, code) := Carry(StrategyFor(StateOf(c)), h, u);
            Effect(c, u, v) && code == if c.MP? && c.user !in u then RESOURCE_NOT_FOUND else OK
  {}

  /** Nothing else changes the table. */
  lemma {:induction false} OnlyAuthorisedChange(t: string, u: UserTable)
    requires Received(t) && Request(t, u).Some? && Request(t, u).value.0 != u
    ensures exists d :: Commands(t, d) && TakesArguments(StateOf(d.command))
  {
    ArgumentsCopied(t);
    ChangeIsCarriedOut(OutcomeOf(t).strategy, OutcomeOf(t).headers, u);
    var d := WhatIsCarriedOut(t);
    AnswerIs(d);
    ChangeTakesArguments(d, u);
  }

  lemma {:induction false} ChangeIsCarriedOut(s: Strategy, h: Headers, u: UserTable)
    requires HasArguments(s, h) && Carry(s, h, u).0 != u
    ensures CarriesOut(s)
  {}

  lemma {:induction false} ChangeTakesArguments(d: Datagram, u: UserTable)
    requires HasArguments(AnswerTo(d), HeadersOf(d)) && Carry(AnswerTo(d), HeadersOf(d), u).0 != u
    ensures TakesArguments(StateOf(d.command))
  {}

  // ------------------------------------------------------------ the program

  /** A copying loop: what is in front of `a` or `b`, and the rest. */
  method CopyUntil(line: string, a: char, b: char, size: nat) returns (r: Option<(string, string)>)
    ensures r == Field(line, a, b, size)
  {
    var dest := "";
    var i := 0;
    while i < |line| && line[i] != a && line[i] != b
      invariant i <= |line| && dest == line[..i]
      invariant Span(line, a, b) == i + Span(line[i..], a, b)
    {
      dest := dest + [line[i]];
      assert line[i..][1..] == line[i + 1..];
      i := i + 1;
    }
    return if i < |line| && i < size then Some((dest, line[i..])) else None;
  }

  /** copyLine, with the step over the newline that follows each use of it. */
  method CopyLine(line: string, size: nat) returns (r: Option<(string, string)>)
    ensures r == LineOf(line, size)
  {
    var field := CopyUntil(line, '\n', '\n', size);
    match field
    case None => return None;
    case Some(f) => return Some((f.0, f.1[1..]));
  }

  method CopyVersion(dgram: string) returns (r: Option<(string, string)>)
    ensures r == match Strchr(dgram, 'V') case None => None case Some(p) => LineOf(p, VERSIONSIZE)
  {
    var p := Strchr(dgram, 'V');
    if p == None {
      return None;
    }
    r := CopyLine(p.value, VERSIONSIZE);
  }

  method ObtainUsername(line: string) returns (r: Option<string>)
    ensures r == UsernameIn(line)
  {
    var p := Strchr(line, ' ');
    if p == None {
      return None;
    }
    var field := CopyUntil(p.value[1..], ' ', NUL, USERNAMESIZE);
    return match field case None => None case Some(f) => Some(f.0);
  }

  method ObtainPassword(line: string) returns (r: Option<string>)
    ensures r == PasswordIn(line)
  {
    var p := Strrchr(line, ' ');
    if p == None {
      return None;
    }
    var field := CopyUntil(p.value[1..], NUL, ' ', PASSWORDSIZE);
    return match field case None => None case Some(f) => Some(f.0);
  }

  method CopyArguments(line: string, st: State) returns (r: Option<(Option<string>, Option<string>)>)
    ensures r == ArgumentsIn(line, st)
  {
    if st == DGRAM_MP_COMMAND || st == DGRAM_AU_COMMAND {
      var username := ObtainUsername(line);
      var password := ObtainPassword(line);
      return if username.Some? && password.Some? then Some((username, password)) else None;
    } else if st == DGRAM_DU_COMMAND {
      var username := ObtainUsername(line);
      return if username.Some? then Some((username, None)) else None;
    }
    return Some((None, None));
  }

  method CopyData(dgram: string, st: State) returns (r: Option<Headers>)
    ensures r == CopyDgramData(dgram, st)
  {
    var version := CopyVersion(dgram);
    if version == None { return None; }
    var uniqueID := CopyLine(version.value.1, UIDSIZE);
    if uniqueID == None { return None; }
    var authorization := CopyLine(uniqueID.value.1, AUTHORIZATION);
    if authorization == None { return None; }
    var arguments := CopyArguments(authorization.value.1, st);
    if arguments == None { return None; }
    return Some(Headers(version.value.0, uniqueID.value.0, authorization.value.0,
                        arguments.value.0, arguments.value.1));
  }

  /** The recogniser with its static variable. */
  class Recogniser {
    var onSuccessCommandState: State

    constructor () { onSuccessCommandState := START; }

    function At(state: State, length: nat, authLength: nat): Scanner
      reads this
    {
      Scanner(state, length, authLength, onSuccessCommandState)
    }

    /** parseMp3pCharacter, with the counters it bumps and the static it sets. */
    method Advance(c: char, prevState: State, length: nat, authLength: nat) returns (state: State, l: nat, a: nat)
      modifies this
      ensures At(state, l, a) == ParseMp3pCharacter(old(At(prevState, length, authLength)), c)
    {
      var s := ParseMp3pCharacter(At(prevState, length, authLength), c);
      state, l, a, onSuccessCommandState := s.state, s.length, s.authLength, s.onSuccess;
    }

    /** That, on the way to `goal`. */
    method AdvanceOn(dgram: string, i: nat, prevState: State, length: nat, authLength: nat, ghost goal: Scanner)
      returns (state: State, l: nat, a: nat)
      requires i < |dgram| && !Stopped(prevState) && goal == Scan(At(prevState, length, authLength), dgram[i..])
      modifies this
      ensures goal == Scan(At(state, l, a), dgram[i + 1..]) && (Stopped(state) ==> goal == At(state, l, a))
    {
      StepIs(At(prevState, length, authLength), dgram, i);
      state, l, a := Advance(dgram[i], prevState, length, authLength);
      if Stopped(state) { ScanDone(At(state, l, a), dgram, i + 1); }
    }

    /** The loop of parseDatagram. */
    method Recognise(dgram: string) returns (currentState: State)
      requires Received(dgram)
      modifies this
      ensures currentState == Scan(Begin(START), dgram).state && Over(currentState)
    {
      ghost var left := onSuccessCommandState;
      ghost var goal := Scan(Begin(left), dgram);
      currentState := START;
      var idLength, authorizationLength := 0, 0;
      var i := 0;
      assert dgram[0..] == dgram;
      while i < |dgram| && i < MAXDATAGRAMLENGTH
        invariant i <= |dgram| && !Stopped(currentState)
        invariant goal == Scan(At(currentState, idLength, authorizationLength), dgram[i..])
      {
        currentState, idLength, authorizationLength :=
          AdvanceOn(dgram, i, currentState, idLength, authorizationLength, goal);
        if Stopped(currentState) {
          break;
        }
        i := i + 1;
      }
      RecogniseDone(left, At(currentState, idLength, authorizationLength), goal, dgram);
    }

    /** parseDatagram.  The result does not depend on the datagrams before. */
    method ParseDatagram(dgram: string) returns (outcome: Outcome)
      requires Received(dgram)
      modifies this
      ensures outcome == OutcomeOf(dgram)
    {
      var currentState := Recognise(dgram);
      if currentState == DGRAMDISCARD {
        return Dropped;
      }
      var headers := CopyData(dgram, currentState);
      return match headers case None => Overrun case Some(h) => Parsed(h, Judge(currentState, h));
    }

    method ParseApart(dgram: string, users: UserList) returns (outcome: Outcome)
      requires Received(dgram)
      modifies this
      ensures outcome == OutcomeOf(dgram) && users.State() == old(users.State())
    {
      outcome := ParseDatagram(dgram);
    }

    /** handleUdpRequest */
    method HandleUdpRequest(dgram: string, users: UserList) returns (status: Option<nat>, overrun: bool)
      requires Received(dgram) && users.Valid()
      modifies this, users, users.spine
      ensures users.Valid()
      ensures match Request(dgram, old(users.Table()))
              case None => overrun
              case Some((v, code)) => !overrun && users.Table() == v && status == code
    {
      var outcome := ParseApart(dgram, users);
      match outcome
      case Parsed(headers, strategy) =>
        ArgumentsCopied(dgram);
        var code := CarryOut(strategy, headers, users);
        return Some(code), false;
      case Dropped => return None, false;
      case Overrun => return None, true;
    }
  }

  lemma {:induction false} ScanDone(s: Scanner, t: string, i: nat)
    requires i == |t| || (i <= |t| && Stopped(s.state))
    ensures Scan(s, t[i..]) == s
  {}

  lemma {:induction false} RecogniseDone(left: State, s: Scanner, goal: Scanner, t: string)
    requires Received(t) && goal == Scan(Begin(left), t) && (goal == s || goal == Scan(s, ""))
    ensures s.state == Scan(Begin(START), t).state && Over(s.state)
  {
    StaticDoesNotMatter(left, START, t);
    ScanEnds(Begin(START), t);
  }

  lemma {:induction false} StepIs(s: Scanner, t: string, i: nat)
    requires i < |t|
    ensures !Stopped(s.state) ==> Scan(s, t[i..]) == Scan(ParseMp3pCharacter(s, t[i]), t[i + 1..])
    ensures Stopped(s.state) ==> Scan(s, t[i..]) == s
  {
    assert t[i..][1..] == t[i + 1..];
  }

  /** The strategies; the ones on users change the table in place. */
  method CarryOut(strategy: Strategy, headers: Headers, users: UserList) returns (code: nat)
    requires users.Valid() && HasArguments(strategy, headers)
    modifies users, users.spine
    ensures users.Valid() && (users.Table(), code) == Carry(strategy, headers, old(users.Table()))
  {
    match strategy
    case ModifyUserPassword =>
      var modified := users.ModifyUserPassword(headers.username.value, headers.password.value);
      return if modified then OK else RESOURCE_NOT_FOUND;
    case AddUser =>
      var _ := AddOrModify(headers.username.value, headers.password.value, users);
      return OK;
    case DeleteUser =>
      users.DeleteUserNode(headers.username.value);
      return OK;
    case BadAuthorization => return BADAUTHORIZATIONFORMATION;
    case InvalidCommand => return INVALID_COMMAND_FORMATION;
    case Unauthorized => return UNAUTHORIZED;
    case VersionMismatch => return WRONG_PROTOCOL_VERSION;
    case _ => return OK;
  }

  /** addUserStrategy: a user that exists gets the new password. */
  method AddOrModify(name: string, password: string, users: UserList) returns (modified: bool)
    requires users.Valid()
    modifies users, users.spine
    ensures users.Valid() && (modified <==> name in old(users.Table()))
    ensures users.Table() == old(if name in users.Table() then ModifyPassword(users.Table(), name, password)
                                 else Insert(users.Table(), name, password))
  {
    var inserted := users.InsertUserNode(name, password);
    modified := !inserted;
    if modified {
      var _ := users.ModifyUserPassword(name, password);
    }
  }
}
