// The datagrams of the administration protocol, as a grammar, and the proof
// that the recogniser accepts exactly those.

module Mp3pGrammar {
  import opened Standards
  import opened Mp3pAutomaton

  datatype Command =
    | BT | BR | HC | CC | LC | LU
    | DU(user: string)
    | MP(user: string, password: string)
    | AU(user: string, password: string)

  datatype Header = Header(major: string, minor: char, id: string)

  datatype Datagram = Datagram(header: Header, key: string, command: Command)

  predicate Digits(w: string) { forall i :: 0 <= i < |w| ==> IsDigit(w[i]) }

  predicate Alnums(w: string) { forall i :: 0 <= i < |w| ==> IsAlnum(w[i]) }

  predicate Letters(w: string) { forall i :: 0 <= i < |w| ==> IsWordChar(w[i]) }

  predicate Word(w: string) { w != "" && Letters(w) }

  predicate Identifier(w: string) { |w| == IDLENGTH && Alnums(w) }

  predicate HeaderOk(h: Header) { h.major != "" && Digits(h.major) && IsDigit(h.minor) && Identifier(h.id) }

  predicate CommandOk(c: Command) {
    match c
    case DU(user) => Word(user)
    case MP(user, password) => Word(user) && Word(password)
    case AU(user, password) => Word(user) && Word(password)
    case _ => true
  }

  predicate WellFormed(d: Datagram) { HeaderOk(d.header) && Identifier(d.key) && CommandOk(d.command) }

  function Version(h: Header): string { "V" + h.major + "." + [h.minor] }

  function RenderHeader(h: Header): string { "MP3P " + (Version(h) + ("\n" + (h.id + "\n"))) }

  function Name(c: Command): string {
    match c
    case BT => "BT"
    case BR => "BR"
    case HC => "HC"
    case CC => "CC"
    case LC => "LC"
    case LU => "LU"
    case DU(_) => "DU"
    case MP(_, _) => "MP"
    case AU(_, _) => "AU"
  }

  function Arguments(c: Command): string {
    match c
    case DU(user) => " " + user
    case MP(user, password) => " " + (user + (" " + password))
    case AU(user, password) => " " + (user + (" " + password))
    case _ => ""
  }

  function UserOf(c: Command): Option<string> {
    match c
    case DU(user) => Some(user)
    case MP(user, _) => Some(user)
    case AU(user, _) => Some(user)
    case _ => None
  }

  function PasswordOf(c: Command): Option<string> {
    match c
    case MP(_, password) => Some(password)
    case AU(_, password) => Some(password)
    case _ => None
  }

  function RenderCommand(c: Command): string { Name(c) + Arguments(c) }

  /** Version line, identifier line, key line, command, one NUL. */
  function Render(d: Datagram): string {
    RenderHeader(d.header) + (d.key + "\n" + (RenderCommand(d.command) + [NUL]))
  }

  function StateOf(c: Command): State {
    match c
    case BT => DGRAM_BT_COMMAND
    case BR => DGRAM_BR_COMMAND
    case HC => DGRAM_HC_COMMAND
    case CC => DGRAM_CC_COMMAND
    case LC => DGRAM_LC_COMMAND
    case LU => DGRAM_LU_COMMAND
    case DU(_) => DGRAM_DU_COMMAND
    case MP(_, _) => DGRAM_MP_COMMAND
    case AU(_, _) => DGRAM_AU_COMMAND
  }

  // --------------------------------------------- what the grammar renders is read

  /** From `s`, reading `w` leads to `s1`, whatever follows. */
  ghost predicate Reads(s: Scanner, w: string, s1: Scanner) {
    forall tail :: Scan(s, w + tail) == Scan(s1, tail)
  }

  lemma {:induction false} ReadsNothing(s: Scanner)
    ensures Reads(s, "", s)
  {
    forall tail ensures Scan(s, "" + tail) == Scan(s, tail) { assert "" + tail == tail; }
  }

  lemma {:induction false} ReadsThen(s: Scanner, a: string, s1: Scanner, b: string, s2: Scanner)
    requires Reads(s, a, s1) && Reads(s1, b, s2)
    ensures Reads(s, a + b, s2)
  {
    forall tail ensures Scan(s, (a + b) + tail) == Scan(s2, tail) {
      assert (a + b) + tail == a + (b + tail);
    }
  }

  lemma {:induction false} ReadsOne(s: Scanner, c: char)
    requires !Stopped(s.state)
    ensures Reads(s, [c], ParseMp3pCharacter(s, c))
  {
    forall tail ensures Scan(s, [c] + tail) == Scan(ParseMp3pCharacter(s, c), tail) { ScanStep(s, c, tail); }
  }

  /** One more character. */
  lemma {:induction false} ReadsMore(s: Scanner, w: string, s1: Scanner, c: char)
    requires Reads(s, w, s1) && !Stopped(s1.state)
    ensures Reads(s, w + [c], ParseMp3pCharacter(s1, c))
  {
    ReadsOne(s1, c);
    ReadsThen(s, w, s1, [c], ParseMp3pCharacter(s1, c));
  }

  lemma {:induction false} LastOff(w: string)
    requires w != ""
    ensures w == w[..|w| - 1] + [w[|w| - 1]] && (|w| == 1 ==> w == [w[0]])
  {}

  lemma {:induction false} DigitsRun(s: Scanner, w: string)
    requires s.state == READVERSIONNUM && Digits(w)
    ensures Reads(s, w, s)
    decreases |w|
  {
    if w == "" {
      ReadsNothing(s);
    } else {
      var k := |w| - 1;
      DigitsRun(s, w[..k]);
      ReadsMore(s, w[..k], s, w[k]);
      LastOff(w);
    }
  }

  /** The scanner after `k` characters of the identifier, or of the key. */
  function InId(s: Scanner, k: nat): Scanner { s.(state := READCLIENTDGRAMID, length := s.length + k) }

  function InKey(s: Scanner, k: nat): Scanner { s.(state := READCLIENTPASSWORD, authLength := s.authLength + k) }

  lemma {:induction false} IdStep(s: Scanner, c: char)
    requires (s.state == READCLIENTDGRAMID || s.state == READFIRSTNEWLINE) && IsAlnum(c) && s.length < IDLENGTH
    ensures ParseMp3pCharacter(s, c) == InId(s, 1)
  {}

  lemma {:induction false} KeyStep(s: Scanner, c: char)
    requires (s.state == READCLIENTPASSWORD || s.state == READSECONDNEWLINE) && IsAlnum(c) && s.authLength < IDLENGTH
    ensures ParseMp3pCharacter(s, c) == InKey(s, 1)
  {}

  lemma {:induction false} IdRun(s: Scanner, w: string)
    requires s.state == READFIRSTNEWLINE && w != "" && Alnums(w) && s.length + |w| <= IDLENGTH
    ensures Reads(s, w, InId(s, |w|))
    decreases |w|
  {
    var k := |w| - 1;
    LastOff(w);
    if k == 0 {
      ReadsOne(s, w[0]);
      IdStep(s, w[0]);
    } else {
      IdRun(s, w[..k]);
      ReadsMore(s, w[..k], InId(s, k), w[k]);
      IdStep(InId(s, k), w[k]);
    }
  }

  lemma {:induction false} KeyRun(s: Scanner, w: string)
    requires s.state == READSECONDNEWLINE && w != "" && Alnums(w) && s.authLength + |w| <= IDLENGTH
    ensures Reads(s, w, InKey(s, |w|))
    decreases |w|
  {
    var k := |w| - 1;
    LastOff(w);
    if k == 0 {
      ReadsOne(s, w[0]);
      KeyStep(s, w[0]);
    } else {
      KeyRun(s, w[..k]);
      ReadsMore(s, w[..k], InKey(s, k), w[k]);
      KeyStep(InKey(s, k), w[k]);
    }
  }

  /** Where a word is read, and the state that waits for its first character. */
  function Waiting(st: State): State {
    match st
    case READINGONLYUSER => READONEARGSEPARATOR
    case READINGUSER => READFIRSTARGSEPARATOR
    case _ => READSECONDARGSEPARATOR
  }

  predicate ReadsWord(st: State) { st.READINGONLYUSER? || st.READINGUSER? || st.READINGPASSWORD? }

  lemma {:induction false} LetterStep(s: Scanner, c: char)
    requires ReadsWord(s.state) && IsWordChar(c)
    ensures ParseMp3pCharacter(s, c) == s && ParseMp3pCharacter(s.(state := Waiting(s.state)), c) == s
  {}

  lemma {:induction false} WordRun(s: Scanner, w: string)
    requires ReadsWord(s.state) && Word(w)
    ensures Reads(s.(state := Waiting(s.state)), w, s)
    decreases |w|
  {
    var k := |w| - 1;
    LastOff(w);
    LetterStep(s, w[k]);
    if k == 0 {
      ReadsOne(s.(state := Waiting(s.state)), w[0]);
    } else {
      WordRun(s, w[..k]);
      ReadsMore(s.(state := Waiting(s.state)), w[..k], s, w[k]);
    }
  }

  // ------------------------------------------------ the three header lines

  lemma {:induction false} PrefixSteps(s: Scanner)
    ensures s.state == START ==> ParseMp3pCharacter(s, 'M') == s.(state := READM)
    ensures s.state == READM ==> ParseMp3pCharacter(s, 'P') == s.(state := READP)
    ensures s.state == READP ==> ParseMp3pCharacter(s, '3') == s.(state := READ3)
    ensures s.state == READ3 ==> ParseMp3pCharacter(s, 'P') == s.(state := READSECONDP)
    ensures s.state == READSECONDP ==> ParseMp3pCharacter(s, ' ') == s.(state := READVERSIONSEPARATOR)
    ensures s.state == READVERSIONSEPARATOR ==> ParseMp3pCharacter(s, 'V') == s.(state := READVERSIONV)
  {}

  lemma {:induction false} Prefix(s: Scanner)
    requires s.state == START
    ensures Reads(s, "MP3P V", s.(state := READVERSIONV))
  {
    var s3 := s.(state := READ3);
    ReadsOne(s, 'M');
    PrefixSteps(s);
    ReadsMore(s, "M", s.(state := READM), 'P');
    PrefixSteps(s.(state := READM));
    ReadsMore(s, "MP", s.(state := READP), '3');
    PrefixSteps(s.(state := READP));
    PrefixEnd(s3);
    assert "M" + ['P'] == "MP" && "MP" + ['3'] == "MP3";
    ReadsThen(s, "MP3", s3, "P V", s.(state := READVERSIONV));
    assert "MP3" + "P V" == "MP3P V";
  }

  lemma {:induction false} PrefixEnd(s: Scanner)
    requires s.state == READ3
    ensures Reads(s, "P V", s.(state := READVERSIONV))
  {
    ReadsOne(s, 'P');
    PrefixSteps(s);
    ReadsMore(s, "P", s.(state := READSECONDP), ' ');
    PrefixSteps(s.(state := READSECONDP));
    ReadsMore(s, "P ", s.(state := READVERSIONSEPARATOR), 'V');
    PrefixSteps(s.(state := READVERSIONSEPARATOR));
    assert "P" + [' '] == "P " && "P " + ['V'] == "P V";
  }

  lemma {:induction false} VersionSteps(s: Scanner, d: char)
    requires IsDigit(d)
    ensures s.state == READVERSIONV || s.state == READVERSIONNUM ==>
              ParseMp3pCharacter(s, d) == s.(state := READVERSIONNUM)
    ensures s.state == READVERSIONNUM ==> ParseMp3pCharacter(s, '.') == s.(state := READVERSIONDOT)
    ensures s.state == READVERSIONDOT ==> ParseMp3pCharacter(s, d) == s.(state := READVERSIONSUBNUM)
    ensures s.state == READVERSIONSUBNUM ==> ParseMp3pCharacter(s, '\n') == s.(state := READFIRSTNEWLINE)
  {}

  lemma {:induction false} MajorRun(s: Scanner, major: string)
    requires s.state == READVERSIONV && major != "" && Digits(major)
    ensures Reads(s, major, s.(state := READVERSIONNUM))
  {
    var s1 := s.(state := READVERSIONNUM);
    ReadsOne(s, major[0]);
    VersionSteps(s, major[0]);
    DigitsRun(s1, major[1..]);
    ReadsThen(s, [major[0]], s1, major[1..], s1);
    assert [major[0]] + major[1..] == major;
  }

  lemma {:induction false} MinorRun(s: Scanner, minor: char)
    requires s.state == READVERSIONNUM && IsDigit(minor)
    ensures Reads(s, "." + [minor] + "\n", s.(state := READFIRSTNEWLINE))
  {
    ReadsOne(s, '.');
    VersionSteps(s, minor);
    ReadsMore(s, ".", s.(state := READVERSIONDOT), minor);
    VersionSteps(s.(state := READVERSIONDOT), minor);
    ReadsMore(s, "." + [minor], s.(state := READVERSIONSUBNUM), '\n');
    VersionSteps(s.(state := READVERSIONSUBNUM), minor);
  }

  /** A scanner that has read the first two lines, or all three. */
  function AfterId(left: State): Scanner { Begin(left).(state := READSECONDNEWLINE, length := IDLENGTH) }

  function AfterKey(left: State): Scanner { AfterId(left).(state := READTHIRDNEWLINE, authLength := IDLENGTH) }

  lemma {:induction false} HeaderSpelled(h: Header)
    ensures RenderHeader(h) == "MP3P V" + (h.major + ("." + [h.minor] + "\n")) + (h.id + "\n")
  {}

  lemma {:induction false} HeaderRun(left: State, h: Header)
    requires HeaderOk(h)
    ensures Reads(Begin(left), RenderHeader(h), AfterId(left))
  {
    var s := Begin(left);
    var s1 := s.(state := READFIRSTNEWLINE);
    Prefix(s);
    VersionRun(s.(state := READVERSIONV), h.major, h.minor);
    ReadsThen(s, "MP3P V", s.(state := READVERSIONV), h.major + ("." + [h.minor] + "\n"), s1);
    IdLineRun(s1, h.id);
    ReadsThen(s, "MP3P V" + (h.major + ("." + [h.minor] + "\n")), s1, h.id + "\n", AfterId(left));
    HeaderSpelled(h);
  }

  lemma {:induction false} VersionRun(s: Scanner, major: string, minor: char)
    requires s.state == READVERSIONV && major != "" && Digits(major) && IsDigit(minor)
    ensures Reads(s, major + ("." + [minor] + "\n"), s.(state := READFIRSTNEWLINE))
  {
    MajorRun(s, major);
    MinorRun(s.(state := READVERSIONNUM), minor);
    ReadsThen(s, major, s.(state := READVERSIONNUM), "." + [minor] + "\n", s.(state := READFIRSTNEWLINE));
  }

  lemma {:induction false} IdLineRun(s: Scanner, id: string)
    requires Identifier(id) && s.state == READFIRSTNEWLINE && s.length == 0
    ensures Reads(s, id + "\n", s.(state := READSECONDNEWLINE, length := IDLENGTH))
  {
    IdRun(s, id);
    ReadsMore(s, id, InId(s, IDLENGTH), '\n');
    IdEnds(InId(s, IDLENGTH));
  }

  lemma {:induction false} IdEnds(s: Scanner)
    requires s.state == READCLIENTDGRAMID && s.length == IDLENGTH
    ensures ParseMp3pCharacter(s, '\n') == s.(state := READSECONDNEWLINE)
  {}

  lemma {:induction false} KeyLineRun(s: Scanner, key: string)
    requires Identifier(key) && s.state == READSECONDNEWLINE && s.authLength == 0
    ensures Reads(s, key + "\n", s.(state := READTHIRDNEWLINE, authLength := IDLENGTH))
  {
    KeyRun(s, key);
    ReadsMore(s, key, InKey(s, IDLENGTH), '\n');
    KeyEnds(InKey(s, IDLENGTH));
  }

  lemma {:induction false} KeyEnds(s: Scanner)
    requires s.state == READCLIENTPASSWORD && s.authLength == IDLENGTH
    ensures ParseMp3pCharacter(s, '\n') == s.(state := READTHIRDNEWLINE)
  {}

  // ------------------------------------------------------ the command line

  /** The scanner after the name of a command. */
  function AfterName(s: Scanner, c: Command): Scanner {
    match c
    case BT => s.(state := READBT)
    case BR => s.(state := READBR)
    case HC => s.(state := READHC)
    case CC => s.(state := READCC)
    case LC => s.(state := READLC)
    case LU => s.(state := READLU)
    case DU(_) => s.(state := READDU, onSuccess := DGRAM_DU_COMMAND)
    case MP(_, _) => s.(state := READMP, onSuccess := DGRAM_MP_COMMAND)
    case AU(_, _) => s.(state := READAU, onSuccess := DGRAM_AU_COMMAND)
  }

  lemma {:induction false} NameRun(s: Scanner, c: Command)
    requires s.state == READTHIRDNEWLINE
    ensures Reads(s, Name(c), AfterName(s, c))
  {
    var a, b := Name(c)[0], Name(c)[1];
    ReadsOne(s, a);
    NameSteps(s, c);
    ReadsMore(s, [a], ParseMp3pCharacter(s, a), b);
    assert Name(c) == [a] + [b];
  }

  lemma {:induction false} NameSteps(s: Scanner, c: Command)
    requires s.state == READTHIRDNEWLINE
    ensures var s1 := ParseMp3pCharacter(s, Name(c)[0]);
            !Stopped(s1.state) && ParseMp3pCharacter(s1, Name(c)[1]) == AfterName(s, c)
  {}

  /** The scanner after a command and its NUL. */
  function AfterCommand(s: Scanner, c: Command): Scanner { AfterName(s, c).(state := StateOf(c)) }

  lemma {:induction false} CommandRun(s: Scanner, c: Command)
    requires s.state == READTHIRDNEWLINE && CommandOk(c)
    ensures Reads(s, RenderCommand(c) + [NUL], AfterCommand(s, c))
  {
    NameRun(s, c);
    if PasswordOf(c).Some? {
      TwoArguments(AfterName(s, c), UserOf(c).value, PasswordOf(c).value);
    } else if UserOf(c).Some? {
      OneArgument(AfterName(s, c), UserOf(c).value);
    } else {
      NoArguments(AfterName(s, c), c);
    }
    ReadsThen(s, Name(c), AfterName(s, c), Arguments(c) + [NUL], AfterCommand(s, c));
    assert Name(c) + (Arguments(c) + [NUL]) == RenderCommand(c) + [NUL];
  }

  lemma {:induction false} NoArguments(s: Scanner, c: Command)
    requires UserOf(c).None? && s.state == AfterName(s, c).state
    ensures Reads(s, Arguments(c) + [NUL], s.(state := StateOf(c)))
  {
    assert Arguments(c) + [NUL] == [NUL];
    ReadsOne(s, NUL);
  }

  lemma {:induction false} ArgumentSteps(s: Scanner)
    ensures s.state == READDU ==> ParseMp3pCharacter(s, ' ') == s.(state := READONEARGSEPARATOR)
    ensures s.state == READMP || s.state == READAU ==> ParseMp3pCharacter(s, ' ') == s.(state := READFIRSTARGSEPARATOR)
    ensures s.state == READINGUSER ==> ParseMp3pCharacter(s, ' ') == s.(state := READSECONDARGSEPARATOR)
    ensures s.state == READINGONLYUSER || s.state == READINGPASSWORD ==>
              ParseMp3pCharacter(s, NUL) == s.(state := s.onSuccess)
  {}

  lemma {:induction false} OneArgument(s: Scanner, user: string)
    requires s.state == READDU && Word(user)
    ensures Reads(s, " " + user + [NUL], s.(state := s.onSuccess))
  {
    var s1, s2 := s.(state := READONEARGSEPARATOR), s.(state := READINGONLYUSER);
    ReadsOne(s, ' ');
    ArgumentSteps(s);
    WordRun(s2, user);
    ReadsThen(s, " ", s1, user, s2);
    ReadsMore(s, " " + user, s2, NUL);
    ArgumentSteps(s2);
  }

  lemma {:induction false} FirstArgument(s: Scanner, user: string)
    requires (s.state == READMP || s.state == READAU) && Word(user)
    ensures Reads(s, " " + user + " ", s.(state := READSECONDARGSEPARATOR))
  {
    var s1, s2 := s.(state := READFIRSTARGSEPARATOR), s.(state := READINGUSER);
    ReadsOne(s, ' ');
    ArgumentSteps(s);
    WordRun(s2, user);
    ReadsThen(s, " ", s1, user, s2);
    ReadsMore(s, " " + user, s2, ' ');
    ArgumentSteps(s2);
  }

  lemma {:induction false} LastArgument(s: Scanner, password: string)
    requires s.state == READSECONDARGSEPARATOR && Word(password)
    ensures Reads(s, password + [NUL], s.(state := s.onSuccess))
  {
    var s1 := s.(state := READINGPASSWORD);
    WordRun(s1, password);
    ReadsMore(s, password, s1, NUL);
    ArgumentSteps(s1);
  }

  lemma {:induction false} TwoArguments(s: Scanner, user: string, password: string)
    requires (s.state == READMP || s.state == READAU) && Word(user) && Word(password)
    ensures Reads(s, " " + (user + (" " + password)) + [NUL], s.(state := s.onSuccess))
  {
    var s1 := s.(state := READSECONDARGSEPARATOR);
    FirstArgument(s, user);
    LastArgument(s1, password);
    ReadsThen(s, " " + user + " ", s1, password + [NUL], s.(state := s.onSuccess));
    ArgumentsSpelled(user, password);
  }

  lemma {:induction false} ArgumentsSpelled(user: string, password: string)
    ensures (" " + user + " ") + (password + [NUL]) == " " + (user + (" " + password)) + [NUL]
  {}

  // --------------------------------- what is read is what the grammar renders

  /** Nothing was refused before the state the lemma is about. */
  predicate Passed(s: Scanner, t: string, bad: State) { Over(Scan(s, t).state) && Scan(s, t).state != bad }

  /** A scan that is not over yet takes one more character, and does not refuse it. */
  lemma {:induction false} TakeOne(s: Scanner, t: string, bad: State) returns (c: char, rest: string, s1: Scanner)
    requires !Over(s.state) && Stopped(bad) && Passed(s, t, bad)
    ensures t == [c] + rest && s1 == ParseMp3pCharacter(s, c) && s1.state != bad
    ensures Scan(s, t) == Scan(s1, rest) && Passed(s1, rest, bad)
  {
    c, rest := t[0], t[1..];
    s1 := ParseMp3pCharacter(s, c);
    assert Stopped(s1.state) ==> Scan(s1, rest) == s1;
  }

  lemma {:induction false} SplitDigits(s: Scanner, t: string) returns (w: string, tail: string)
    requires s.state == READVERSIONNUM && Passed(s, t, DGRAMDISCARD)
    ensures Digits(w) && t == w + (['.'] + tail) && Scan(s, t) == Scan(s.(state := READVERSIONDOT), tail)
    decreases |t|
  {
    var c, rest, s1 := TakeOne(s, t, DGRAMDISCARD);
    if IsDigit(c) {
      w, tail := SplitDigits(s, rest);
      Prepend(c, w, ['.'] + tail);
      w := [c] + w;
    } else {
      w, tail := "", rest;
    }
  }

  lemma {:induction false} Prepend(c: char, w: string, tail: string)
    ensures [c] + (w + tail) == ([c] + w) + tail
  {}

  lemma {:induction false} SplitId(s: Scanner, t: string) returns (w: string, tail: string)
    requires s.state == READCLIENTDGRAMID && s.length <= IDLENGTH && Passed(s, t, DGRAMDISCARD)
    ensures |w| == IDLENGTH - s.length && Alnums(w) && t == w + (['\n'] + tail)
    ensures Scan(s, t) == Scan(s.(state := READSECONDNEWLINE, length := IDLENGTH), tail)
    decreases |t|
  {
    var c, rest, s1 := TakeOne(s, t, DGRAMDISCARD);
    if s.length < IDLENGTH {
      w, tail := SplitId(s1, rest);
      Prepend(c, w, ['\n'] + tail);
      w := [c] + w;
    } else {
      w, tail := "", rest;
    }
  }

  lemma {:induction false} SplitKey(s: Scanner, t: string) returns (w: string, tail: string)
    requires s.state == READCLIENTPASSWORD && s.authLength <= IDLENGTH && Passed(s, t, DGRAMBADAUTH)
    ensures |w| == IDLENGTH - s.authLength && Alnums(w) && t == w + (['\n'] + tail)
    ensures Scan(s, t) == Scan(s.(state := READTHIRDNEWLINE, authLength := IDLENGTH), tail)
    decreases |t|
  {
    var c, rest, s1 := TakeOne(s, t, DGRAMBADAUTH);
    if s.authLength < IDLENGTH {
      w, tail := SplitKey(s1, rest);
      Prepend(c, w, ['\n'] + tail);
      w := [c] + w;
    } else {
      w, tail := "", rest;
    }
  }

  function Separator(st: State): char { if st.READINGUSER? then ' ' else NUL }

  function AfterWord(s: Scanner): Scanner {
    s.(state := if s.state.READINGUSER? then READSECONDARGSEPARATOR else s.onSuccess)
  }

  lemma {:induction false} WordStep(s: Scanner, c: char)
    requires ReadsWord(s.state) && ParseMp3pCharacter(s, c).state != DGRAM_INVALID_COMMAND
    ensures if IsWordChar(c) then ParseMp3pCharacter(s, c) == s
            else c == Separator(s.state) && ParseMp3pCharacter(s, c) == AfterWord(s)
  {}

  lemma {:induction false} SplitLetters(s: Scanner, t: string) returns (w: string, tail: string)
    requires ReadsWord(s.state) && Passed(s, t, DGRAM_INVALID_COMMAND)
    ensures Letters(w) && t == w + ([Separator(s.state)] + tail)
    ensures Scan(s, t) == Scan(AfterWord(s), tail)
    decreases |t|
  {
    var c, rest, s1 := TakeOne(s, t, DGRAM_INVALID_COMMAND);
    WordStep(s, c);
    if IsWordChar(c) {
      w, tail := SplitLetters(s, rest);
      Prepend(c, w, [Separator(s.state)] + tail);
      w := [c] + w;
    } else {
      w, tail := "", rest;
    }
  }

  lemma {:induction false} FirstLetter(s: Scanner, c: char)
    requires ReadsWord(s.state) && ParseMp3pCharacter(s.(state := Waiting(s.state)), c).state != DGRAM_INVALID_COMMAND
    ensures IsWordChar(c) && ParseMp3pCharacter(s.(state := Waiting(s.state)), c) == s
  {}

  lemma {:induction false} SplitWord(s: Scanner, t: string) returns (w: string, tail: string)
    requires ReadsWord(s.state) && Passed(s.(state := Waiting(s.state)), t, DGRAM_INVALID_COMMAND)
    ensures Word(w) && t == w + ([Separator(s.state)] + tail)
    ensures Scan(s.(state := Waiting(s.state)), t) == Scan(AfterWord(s), tail)
  {
    var c, rest, s1 := TakeOne(s.(state := Waiting(s.state)), t, DGRAM_INVALID_COMMAND);
    FirstLetter(s, c);
    w, tail := SplitLetters(s, rest);
    Prepend(c, w, [Separator(s.state)] + tail);
    w := [c] + w;
  }

  lemma {:induction false} SplitVersion(s: Scanner, t: string) returns (major: string, minor: char, tail: string)
    requires s.state == READVERSIONV && Passed(s, t, DGRAMDISCARD)
    ensures major != "" && Digits(major) && IsDigit(minor)
    ensures t == major + (['.'] + ([minor] + (['\n'] + tail)))
    ensures Scan(s, t) == Scan(s.(state := READFIRSTNEWLINE), tail)
  {
    var c, rest, s1 := TakeOne(s, t, DGRAMDISCARD);
    var w, rest1 := SplitDigits(s1, rest);
    minor, tail := SplitVersionEnd(s, rest1);
    major := [c] + w;
    Prepend(c, w, ['.'] + rest1);
  }

  lemma {:induction false} SplitVersionEnd(s: Scanner, t: string) returns (minor: char, tail: string)
    requires Passed(s.(state := READVERSIONDOT), t, DGRAMDISCARD)
    ensures IsDigit(minor) && t == [minor] + (['\n'] + tail)
    ensures Scan(s.(state := READVERSIONDOT), t) == Scan(s.(state := READFIRSTNEWLINE), tail)
  {
    var c, rest, s1 := TakeOne(s.(state := READVERSIONDOT), t, DGRAMDISCARD);
    var c2, rest2, s2 := TakeOne(s1, rest, DGRAMDISCARD);
    minor, tail := c, rest2;
  }

  lemma {:induction false} Spelled(tail: string)
    ensures "MP3P V" + tail == ['M'] + (['P'] + (['3'] + ("P V" + tail)))
    ensures "P V" + tail == ['P'] + ([' '] + (['V'] + tail))
  {}

  lemma {:induction false} SplitPrefix(left: State, t: string) returns (tail: string)
    requires Passed(Begin(left), t, DGRAMDISCARD)
    ensures t == "MP3P V" + tail && Scan(Begin(left), t) == Scan(Begin(left).(state := READVERSIONV), tail)
  {
    var c1, t1, s1 := TakeOne(Begin(left), t, DGRAMDISCARD);
    var c2, t2, s2 := TakeOne(s1, t1, DGRAMDISCARD);
    var c3, t3, s3 := TakeOne(s2, t2, DGRAMDISCARD);
    tail := SplitPrefixEnd(Begin(left), t3);
    Spelled(tail);
  }

  lemma {:induction false} SplitPrefixEnd(s: Scanner, t: string) returns (tail: string)
    requires Passed(s.(state := READ3), t, DGRAMDISCARD)
    ensures t == "P V" + tail && Scan(s.(state := READ3), t) == Scan(s.(state := READVERSIONV), tail)
  {
    var c1, t1, s1 := TakeOne(s.(state := READ3), t, DGRAMDISCARD);
    var c2, t2, s2 := TakeOne(s1, t1, DGRAMDISCARD);
    var c3, t3, s3 := TakeOne(s2, t2, DGRAMDISCARD);
    tail := t3;
    Spelled(tail);
  }

  lemma {:induction false} SplitIdLine(s: Scanner, t: string) returns (id: string, tail: string)
    requires s.state == READFIRSTNEWLINE && s.length == 0 && Passed(s, t, DGRAMDISCARD)
    ensures Identifier(id) && t == id + (['\n'] + tail)
    ensures Scan(s, t) == Scan(s.(state := READSECONDNEWLINE, length := IDLENGTH), tail)
  {
    var c, rest, s1 := TakeOne(s, t, DGRAMDISCARD);
    assert IsAlnum(c) && s1 == InId(s, 1);
    id, tail := SplitId(s1, rest);
    Prepend(c, id, ['\n'] + tail);
    id := [c] + id;
  }

  lemma {:induction false} HeaderParts(h: Header, tail: string)
    ensures RenderHeader(h) + tail ==
      "MP3P V" + (h.major + (['.'] + ([h.minor] + (['\n'] + (h.id + (['\n'] + tail))))))
  {}

  /** What is not thrown away starts with a version line and an identifier line. */
  lemma {:induction false} SplitHeader(left: State, t: string) returns (h: Header, tail: string)
    requires Passed(Begin(left), t, DGRAMDISCARD)
    ensures HeaderOk(h) && t == RenderHeader(h) + tail && Scan(Begin(left), t) == Scan(AfterId(left), tail)
  {
    var t1 := SplitPrefix(left, t);
    var major, minor, t2 := SplitVersion(Begin(left).(state := READVERSIONV), t1);
    var id, t3 := SplitIdLine(Begin(left).(state := READFIRSTNEWLINE), t2);
    h, tail := Header(major, minor, id), t3;
    HeaderParts(h, tail);
  }

  lemma {:induction false} SplitKeyLine(left: State, t: string) returns (key: string, tail: string)
    requires Passed(AfterId(left), t, DGRAMBADAUTH)
    ensures Identifier(key) && t == key + (['\n'] + tail) && Scan(AfterId(left), t) == Scan(AfterKey(left), tail)
  {
    var c, rest, s1 := TakeOne(AfterId(left), t, DGRAMBADAUTH);
    assert IsAlnum(c) && s1 == InKey(AfterId(left), 1);
    key, tail := SplitKey(s1, rest);
    Prepend(c, key, ['\n'] + tail);
    key := [c] + key;
  }

  /** The command that two letters name, as yet without its arguments. */
  function Named(a: char, b: char): Option<Command> {
    if [a, b] == "BT" then Some(BT)
    else if [a, b] == "BR" then Some(BR)
    else if [a, b] == "HC" then Some(HC)
    else if [a, b] == "CC" then Some(CC)
    else if [a, b] == "LC" then Some(LC)
    else if [a, b] == "LU" then Some(LU)
    else if [a, b] == "DU" then Some(DU(""))
    else if [a, b] == "MP" then Some(MP("", ""))
    else if [a, b] == "AU" then Some(AU("", ""))
    else None
  }

  lemma {:induction false} NameKnown(s: Scanner, a: char, b: char)
    requires s.state == READTHIRDNEWLINE
    requires var s1 := ParseMp3pCharacter(s, a);
             s1.state != DGRAM_INVALID_COMMAND && ParseMp3pCharacter(s1, b).state != DGRAM_INVALID_COMMAND
    ensures var s1 := ParseMp3pCharacter(s, a);
            Named(a, b).Some? && Name(Named(a, b).value) == [a, b] &&
              AfterName(s, Named(a, b).value) == ParseMp3pCharacter(s1, b)
  {
    var s1 := ParseMp3pCharacter(s, a);
    var s2 := ParseMp3pCharacter(s1, b);
    assert !s1.state.READTHIRDNEWLINE?;
  }

  lemma {:induction false} TwoOff(a: char, b: char, tail: string)
    ensures [a] + ([b] + tail) == [a, b] + tail
  {}

  lemma {:induction false} NameBegun(s: Scanner, a: char)
    requires s.state == READTHIRDNEWLINE && ParseMp3pCharacter(s, a).state != DGRAM_INVALID_COMMAND
    ensures !Over(ParseMp3pCharacter(s, a).state)
  {}

  lemma {:induction false} SplitName(s: Scanner, t: string) returns (c: Command, tail: string)
    requires s.state == READTHIRDNEWLINE && Passed(s, t, DGRAM_INVALID_COMMAND)
    ensures t == Name(c) + tail && Scan(s, t) == Scan(AfterName(s, c), tail)
  {
    var a, t1, s1 := TakeOne(s, t, DGRAM_INVALID_COMMAND);
    NameBegun(s, a);
    var b, t2, s2 := TakeOne(s1, t1, DGRAM_INVALID_COMMAND);
    NameKnown(s, a, b);
    c, tail := Named(a, b).value, t2;
    TwoOff(a, b, t2);
  }

  lemma {:induction false} SplitOne(s: Scanner, t: string) returns (user: string, tail: string)
    requires s.state == READDU && TakesArguments(s.onSuccess) && Passed(s, t, DGRAM_INVALID_COMMAND)
    ensures Word(user) && t == " " + user + ([NUL] + tail) && Scan(s, t) == Scan(s.(state := s.onSuccess), tail)
  {
    var c, t1, s1 := TakeOne(s, t, DGRAM_INVALID_COMMAND);
    user, tail := SplitWord(s.(state := READINGONLYUSER), t1);
    Prepend(' ', user, [NUL] + tail);
  }

  lemma {:induction false} SplitUser(s: Scanner, t: string) returns (user: string, tail: string)
    requires (s.state == READMP || s.state == READAU) && Passed(s, t, DGRAM_INVALID_COMMAND)
    ensures Word(user) && t == [' '] + (user + ([' '] + tail)) &&
            Scan(s, t) == Scan(s.(state := READSECONDARGSEPARATOR), tail)
  {
    var c, t1, s1 := TakeOne(s, t, DGRAM_INVALID_COMMAND);
    user, tail := SplitWord(s.(state := READINGUSER), t1);
  }

  lemma {:induction false} SplitPassword(s: Scanner, t: string) returns (password: string, tail: string)
    requires Passed(s.(state := READSECONDARGSEPARATOR), t, DGRAM_INVALID_COMMAND)
    ensures Word(password) && t == password + ([NUL] + tail)
    ensures Scan(s.(state := READSECONDARGSEPARATOR), t) == Scan(s.(state := s.onSuccess), tail)
  {
    password, tail := SplitWord(s.(state := READINGPASSWORD), t);
  }

  lemma {:induction false} SplitTwo(s: Scanner, t: string) returns (user: string, password: string, tail: string)
    requires (s.state == READMP || s.state == READAU) && Passed(s, t, DGRAM_INVALID_COMMAND)
    ensures Word(user) && Word(password) && t == " " + (user + (" " + password)) + ([NUL] + tail)
    ensures Scan(s, t) == Scan(s.(state := s.onSuccess), tail)
  {
    var t1;
    user, t1 := SplitUser(s, t);
    password, tail := SplitPassword(s, t1);
    TwoSpelled(user, password, tail);
  }

  lemma {:induction false} TwoSpelled(user: string, password: string, tail: string)
    ensures " " + (user + (" " + password)) + ([NUL] + tail) == [' '] + (user + ([' '] + (password + ([NUL] + tail))))
  {}

  /** The arguments of a command whose name has been read. */
  lemma {:induction false} SplitArguments(s: Scanner, named: Command, t: string) returns (c: Command, tail: string)
    requires s.state == READTHIRDNEWLINE && Passed(AfterName(s, named), t, DGRAM_INVALID_COMMAND)
    ensures CommandOk(c) && Name(c) == Name(named) && t == Arguments(c) + ([NUL] + tail)
    ensures Scan(AfterName(s, named), t) == Scan(AfterCommand(s, c), tail)
  {
    var s1 := AfterName(s, named);
    match named
    case DU(_) =>
      var user;
      user, tail := SplitOne(s1, t);
      c := DU(user);
    case MP(_, _) =>
      var user, password;
      user, password, tail := SplitTwo(s1, t);
      c := MP(user, password);
    case AU(_, _) =>
      var user, password;
      user, password, tail := SplitTwo(s1, t);
      c := AU(user, password);
    case _ =>
      c := named;
      tail := SplitNone(s1, named, t);
  }

  lemma {:induction false} SplitNone(s: Scanner, c: Command, t: string) returns (tail: string)
    requires UserOf(c).None? && s.state == AfterName(s, c).state && Passed(s, t, DGRAM_INVALID_COMMAND)
    ensures t == Arguments(c) + ([NUL] + tail) && Scan(s, t) == Scan(s.(state := StateOf(c)), tail)
  {
    var d, t2, s2 := TakeOne(s, t, DGRAM_INVALID_COMMAND);
    tail := t2;
    assert "" + ([NUL] + tail) == [NUL] + tail;
  }

  /** A command line that is not refused is a command and its NUL. */
  lemma {:induction false} SplitCommand(s: Scanner, t: string) returns (c: Command, tail: string)
    requires s.state == READTHIRDNEWLINE && Passed(s, t, DGRAM_INVALID_COMMAND)
    ensures CommandOk(c) && t == RenderCommand(c) + ([NUL] + tail) && Scan(s, t) == Scan(AfterCommand(s, c), tail)
  {
    var named, t1 := SplitName(s, t);
    c, tail := SplitArguments(s, named, t1);
    CommandSpelled(c, tail);
  }

  lemma {:induction false} CommandSpelled(c: Command, tail: string)
    ensures Name(c) + (Arguments(c) + ([NUL] + tail)) == RenderCommand(c) + ([NUL] + tail)
  {}

  // ------------------------------------------------- which datagrams are which

  ghost predicate HasHeader(t: string) { exists h :: HeaderOk(h) && RenderHeader(h) <= t }

  function RenderKey(h: Header, key: string): string { RenderHeader(h) + (key + "\n") }

  ghost predicate HasKey(t: string) { exists h, key :: HeaderOk(h) && Identifier(key) && RenderKey(h, key) <= t }

  ghost predicate HasDatagram(t: string) { exists d :: WellFormed(d) && Render(d) <= t }

  ghost predicate IsDatagram(t: string) { exists d :: WellFormed(d) && Render(d) == t }

  lemma {:induction false} DatagramSpelled(d: Datagram, tail: string)
    ensures Render(d) + tail ==
              RenderHeader(d.header) + (d.key + (['\n'] + (RenderCommand(d.command) + ([NUL] + tail))))
  {}

  lemma {:induction false} KeySpelled(h: Header, key: string, tail: string)
    ensures RenderKey(h, key) + tail == RenderHeader(h) + (key + (['\n'] + tail))
  {}

  lemma {:induction false} DatagramIsPrefix(d: Datagram, tail: string)
    ensures Render(d) <= Render(d) + tail && RenderKey(d.header, d.key) <= Render(d) + tail
  {
    DatagramSpelled(d, tail);
    KeySpelled(d.header, d.key, RenderCommand(d.command) + ([NUL] + tail));
  }

  /** The header lines of a datagram, read. */
  lemma {:induction false} KeyRead(left: State, h: Header, key: string, tail: string)
    requires HeaderOk(h) && Identifier(key)
    ensures Scan(Begin(left), RenderKey(h, key) + tail) == Scan(AfterKey(left), tail)
  {
    HeaderRun(left, h);
    KeyLineRun(AfterId(left), key);
    ReadsThen(Begin(left), RenderHeader(h), AfterId(left), key + "\n", AfterKey(left));
  }

  /** A rendered datagram is recognised; anything behind its NUL spoils it. */
  lemma {:induction false} DatagramRead(left: State, d: Datagram, tail: string)
    requires WellFormed(d)
    ensures Scan(Begin(left), Render(d) + tail).state == if tail == "" then StateOf(d.command) else DGRAMDISCARD
  {
    KeyRead(left, d.header, d.key, RenderCommand(d.command) + [NUL] + tail);
    CommandRun(AfterKey(left), d.command);
    DatagramSplit(d, tail);
    Spoiled(AfterCommand(AfterKey(left), d.command), tail);
  }

  lemma {:induction false} DatagramSplit(d: Datagram, tail: string)
    ensures Render(d) + tail == RenderKey(d.header, d.key) + (RenderCommand(d.command) + [NUL] + tail)
  {}

  lemma {:induction false} Spoiled(s: Scanner, tail: string)
    requires IsCommand(s.state)
    ensures Scan(s, tail).state == if tail == "" then s.state else DGRAMDISCARD
  {
    if tail != "" {
      SpoiledBy(s, tail[0]);
    }
  }

  lemma {:induction false} SpoiledBy(s: Scanner, c: char)
    requires IsCommand(s.state)
    ensures !Stopped(s.state) && ParseMp3pCharacter(s, c) == s.(state := DGRAMDISCARD)
  {}

  /** What is not refused is a rendered datagram, perhaps with more behind it. */
  lemma {:induction false} SplitDatagram(left: State, t: string) returns (d: Datagram, tail: string)
    requires var st := Scan(Begin(left), t).state; IsCommand(st)
    ensures WellFormed(d) && t == Render(d) + tail
  {
    var h, t1 := SplitHeader(left, t);
    var key, c;
    key, c, tail := SplitBody(left, t1);
    d := Datagram(h, key, c);
    DatagramSpelled(d, tail);
  }

  lemma {:induction false} SplitBody(left: State, t: string) returns (key: string, c: Command, tail: string)
    requires IsCommand(Scan(AfterId(left), t).state)
    ensures Identifier(key) && CommandOk(c) && t == key + (['\n'] + (RenderCommand(c) + ([NUL] + tail)))
  {
    var t1;
    key, t1 := SplitKeyLine(left, t);
    c, tail := SplitCommand(AfterKey(left), t1);
  }

  /** The recogniser is exact: a command is reached for the datagrams of the
      grammar and for no other input, and it is the command of the datagram. */
  lemma {:induction false} RecogniserExact(left: State, t: string)
    ensures IsCommand(Scan(Begin(left), t).state) <==> IsDatagram(t)
    ensures forall d :: WellFormed(d) && Render(d) == t ==> Scan(Begin(left), t).state == StateOf(d.command)
  {
    forall d | WellFormed(d) && Render(d) == t ensures Scan(Begin(left), t).state == StateOf(d.command) {
      DatagramRead(left, d, "");
      assert Render(d) + "" == t;
    }
    if IsCommand(Scan(Begin(left), t).state) {
      var d, tail := SplitDatagram(left, t);
      DatagramRead(left, d, tail);
      assert tail == "" && Render(d) == t;
    }
  }

  /** Every way to be refused, for what recvfrom and the final NUL make. */
  lemma {:induction false} RefusalsExact(left: State, t: string)
    requires t != "" && t[|t| - 1] == NUL
    ensures HasDatagram(t) ==> HasKey(t)
    ensures HasKey(t) ==> HasHeader(t)
    ensures var st := Scan(Begin(left), t).state;
            (!HasHeader(t) ==> st == DGRAMDISCARD) &&
            (HasHeader(t) && !HasKey(t) ==> st == DGRAMBADAUTH) &&
            (HasKey(t) && !HasDatagram(t) ==> st == DGRAM_INVALID_COMMAND) &&
            (HasDatagram(t) && !IsDatagram(t) ==> st == DGRAMDISCARD)
  {
    ScanEnds(Begin(left), t);
    PrefixesNest(t);
    var st := Scan(Begin(left), t).state;
    if st != DGRAMDISCARD { HeaderFound(left, t); }
    if HasHeader(t) && st != DGRAMBADAUTH { KeyFound(left, t); }
    if HasKey(t) && st != DGRAM_INVALID_COMMAND { DatagramFound(left, t); }
    if HasDatagram(t) && !IsDatagram(t) { TooLong(left, t); }
  }

  lemma {:induction false} PrefixesNest(t: string)
    ensures HasDatagram(t) ==> HasKey(t)
    ensures HasKey(t) ==> HasHeader(t)
  {
    if HasDatagram(t) {
      var d :| WellFormed(d) && Render(d) <= t;
      var tail := t[|Render(d)|..];
      assert Render(d) + tail == t;
      DatagramIsPrefix(d, tail);
    }
    if HasKey(t) {
      var h, key :| HeaderOk(h) && Identifier(key) && RenderKey(h, key) <= t;
      assert RenderHeader(h) <= RenderKey(h, key);
    }
  }

  lemma {:induction false} HeaderFound(left: State, t: string)
    requires Passed(Begin(left), t, DGRAMDISCARD)
    ensures HasHeader(t)
  {
    var h, tail := SplitHeader(left, t);
    assert RenderHeader(h) <= t;
  }

  lemma {:induction false} KeyFound(left: State, t: string)
    requires HasHeader(t) && Passed(Begin(left), t, DGRAMBADAUTH)
    ensures HasKey(t)
  {
    var h :| HeaderOk(h) && RenderHeader(h) <= t;
    var t1 := t[|RenderHeader(h)|..];
    assert RenderHeader(h) + t1 == t;
    HeaderRun(left, h);
    var key, tail := SplitKeyLine(left, t1);
    KeySpelled(h, key, tail);
    assert RenderKey(h, key) <= t;
  }

  lemma {:induction false} DatagramFound(left: State, t: string)
    requires HasKey(t) && Passed(Begin(left), t, DGRAM_INVALID_COMMAND)
    ensures HasDatagram(t)
  {
    var h, key :| HeaderOk(h) && Identifier(key) && RenderKey(h, key) <= t;
    var t1 := t[|RenderKey(h, key)|..];
    assert RenderKey(h, key) + t1 == t;
    KeyRead(left, h, key, t1);
    var c, tail := SplitCommand(AfterKey(left), t1);
    var d := Datagram(h, key, c);
    KeySpelled(h, key, t1);
    DatagramSpelled(d, tail);
    assert Render(d) <= t;
  }

  lemma {:induction false} TooLong(left: State, t: string)
    requires HasDatagram(t) && !IsDatagram(t)
    ensures Scan(Begin(left), t).state == DGRAMDISCARD
  {
    var d :| WellFormed(d) && Render(d) <= t;
    LongerRead(left, d, t);
  }

  lemma {:induction false} LongerRead(left: State, d: Datagram, t: string)
    requires WellFormed(d) && Render(d) < t
    ensures Scan(Begin(left), t).state == DGRAMDISCARD
  {
    var tail := t[|Render(d)|..];
    assert Render(d) + tail == t;
    DatagramRead(left, d, tail);
  }
}
