// The recogniser of administration datagrams: one state, two counters and a
// remembered command, advanced a character at a time.

module Mp3pAutomaton {
  import opened Standards

  const IDLENGTH: nat := 32

  datatype State =
    | START | READM | READP | READ3 | READSECONDP | READVERSIONSEPARATOR
    | READVERSIONV | READVERSIONNUM | READVERSIONDOT | READVERSIONSUBNUM
    | READFIRSTNEWLINE | READCLIENTDGRAMID | READSECONDNEWLINE | READCLIENTPASSWORD | READTHIRDNEWLINE
    | READB | READH | READC | READL | READM_FOR_MP | READ_D | READA
    | READBT | READBR | READHC | READCC | READLC | READLU
    | READDU | READMP | READAU
    | READONEARGSEPARATOR | READFIRSTARGSEPARATOR | READSECONDARGSEPARATOR
    | READINGONLYUSER | READINGUSER | READINGPASSWORD
    | DGRAM_LC_COMMAND | DGRAM_MP_COMMAND | DGRAM_BT_COMMAND | DGRAM_BR_COMMAND | DGRAM_HC_COMMAND
    | DGRAM_CC_COMMAND | DGRAM_LU_COMMAND | DGRAM_DU_COMMAND | DGRAM_AU_COMMAND
    | DGRAM_INVALID_COMMAND | DGRAMDISCARD | DGRAMBADAUTH

  /** `onSuccess` is the static variable: it survives from datagram to datagram. */
  datatype Scanner = Scanner(state: State, length: nat, authLength: nat, onSuccess: State)

  /** `isalnum` in the C locale. */
  predicate IsAlnum(c: char) { IsDigit(c) || 'A' <= c <= 'Z' || 'a' <= c <= 'z' }

  predicate IsWordChar(c: char) { c != ' ' && c != '\n' && c != NUL }

  predicate Stopped(st: State) { st == DGRAM_INVALID_COMMAND || st == DGRAMDISCARD || st == DGRAMBADAUTH }

  predicate IsCommand(st: State) {
    st.DGRAM_LC_COMMAND? || st.DGRAM_MP_COMMAND? || st.DGRAM_BT_COMMAND? || st.DGRAM_BR_COMMAND? ||
    st.DGRAM_HC_COMMAND? || st.DGRAM_CC_COMMAND? || st.DGRAM_LU_COMMAND? || st.DGRAM_DU_COMMAND? || st.DGRAM_AU_COMMAND?
  }

  /** To `next` if the test succeeds, to `otherwise` if not. */
  function Go(s: Scanner, test: bool, next: State, otherwise: State): Scanner {
    s.(state := if test then next else otherwise)
  }

  /** As far as the third newline. */
  function NextInHeader(s: Scanner, c: char): Scanner {
    match s.state
    case START => Go(s, c == 'M', READM, DGRAMDISCARD)
    case READM => Go(s, c == 'P', READP, DGRAMDISCARD)
    case READP => Go(s, c == '3', READ3, DGRAMDISCARD)
    case READ3 => Go(s, c == 'P', READSECONDP, DGRAMDISCARD)
    case READSECONDP => Go(s, c == ' ', READVERSIONSEPARATOR, DGRAMDISCARD)
    case READVERSIONSEPARATOR => Go(s, c == 'V', READVERSIONV, DGRAMDISCARD)
    case READVERSIONV => Go(s, IsDigit(c), READVERSIONNUM, DGRAMDISCARD)
    case READVERSIONNUM =>
      if IsDigit(c) then s else Go(s, c == '.', READVERSIONDOT, DGRAMDISCARD)
    case READVERSIONDOT => Go(s, IsDigit(c), READVERSIONSUBNUM, DGRAMDISCARD)
    case READVERSIONSUBNUM => Go(s, c == '\n', READFIRSTNEWLINE, DGRAMDISCARD)
    case READFIRSTNEWLINE =>
      if IsAlnum(c) then s.(state := READCLIENTDGRAMID, length := s.length + 1) else s.(state := DGRAMDISCARD)
    case READCLIENTDGRAMID =>
      if c == '\n' && s.length == IDLENGTH then s.(state := READSECONDNEWLINE)
      else if s.length < IDLENGTH && IsAlnum(c) then s.(length := s.length + 1)
      else s.(state := DGRAMDISCARD)
    case READSECONDNEWLINE =>
      if IsAlnum(c) then s.(state := READCLIENTPASSWORD, authLength := s.authLength + 1) else s.(state := DGRAMBADAUTH)
    case READCLIENTPASSWORD =>
      if c == '\n' && s.authLength == IDLENGTH then s.(state := READTHIRDNEWLINE)
      else if s.authLength < IDLENGTH && IsAlnum(c) then s.(authLength := s.authLength + 1)
      else s.(state := DGRAMBADAUTH)
    case _ => s.(state := DGRAMDISCARD)
  }

  predicate InHeader(st: State) {
    st.START? || st.READM? || st.READP? || st.READ3? || st.READSECONDP? || st.READVERSIONSEPARATOR? ||
    st.READVERSIONV? || st.READVERSIONNUM? || st.READVERSIONDOT? || st.READVERSIONSUBNUM? ||
    st.READFIRSTNEWLINE? || st.READCLIENTDGRAMID? ||
    st.READSECONDNEWLINE? || st.READCLIENTPASSWORD?
  }

  /** A command that takes arguments is remembered until they have been read. */
  function Remember(s: Scanner, test: bool, next: State, command: State): Scanner {
    if test then s.(state := next, onSuccess := command) else s.(state := DGRAM_INVALID_COMMAND)
  }

  /** The command line. */
  function NextInCommand(s: Scanner, c: char): Scanner {
    match s.state
    case READTHIRDNEWLINE =>
      s.(state := if c == 'B' then READB else if c == 'H' then READH else if c == 'C' then READC
                  else if c == 'L' then READL else if c == 'M' then READM_FOR_MP else if c == 'D' then READ_D
                  else if c == 'A' then READA else DGRAM_INVALID_COMMAND)
    case READA => Remember(s, c == 'U', READAU, DGRAM_AU_COMMAND)
    case READ_D => Remember(s, c == 'U', READDU, DGRAM_DU_COMMAND)
    case READM_FOR_MP => Remember(s, c == 'P', READMP, DGRAM_MP_COMMAND)
    case READL => s.(state := if c == 'U' then READLU else if c == 'C' then READLC else DGRAM_INVALID_COMMAND)
    case READC => Go(s, c == 'C', READCC, DGRAM_INVALID_COMMAND)
    case READH => Go(s, c == 'C', READHC, DGRAM_INVALID_COMMAND)
    case READB => s.(state := if c == 'R' then READBR else if c == 'T' then READBT else DGRAM_INVALID_COMMAND)
    case READBT => Go(s, c == NUL, DGRAM_BT_COMMAND, DGRAM_INVALID_COMMAND)
    case READBR => Go(s, c == NUL, DGRAM_BR_COMMAND, DGRAM_INVALID_COMMAND)
    case READHC => Go(s, c == NUL, DGRAM_HC_COMMAND, DGRAM_INVALID_COMMAND)
    case READCC => Go(s, c == NUL, DGRAM_CC_COMMAND, DGRAM_INVALID_COMMAND)
    case READLC => Go(s, c == NUL, DGRAM_LC_COMMAND, DGRAM_INVALID_COMMAND)
    case READLU => Go(s, c == NUL, DGRAM_LU_COMMAND, DGRAM_INVALID_COMMAND)
    case READDU => Go(s, c == ' ', READONEARGSEPARATOR, DGRAM_INVALID_COMMAND)
    case READMP => Go(s, c == ' ', READFIRSTARGSEPARATOR, DGRAM_INVALID_COMMAND)
    case READAU => Go(s, c == ' ', READFIRSTARGSEPARATOR, DGRAM_INVALID_COMMAND)
    case READONEARGSEPARATOR => Go(s, IsWordChar(c), READINGONLYUSER, DGRAM_INVALID_COMMAND)
    case READFIRSTARGSEPARATOR => Go(s, IsWordChar(c), READINGUSER, DGRAM_INVALID_COMMAND)
    case READSECONDARGSEPARATOR => Go(s, IsWordChar(c), READINGPASSWORD, DGRAM_INVALID_COMMAND)
    case READINGONLYUSER =>
      if IsWordChar(c) then s else Go(s, c == NUL, s.onSuccess, DGRAM_INVALID_COMMAND)
    case READINGUSER =>
      if IsWordChar(c) then s else Go(s, c == ' ', READSECONDARGSEPARATOR, DGRAM_INVALID_COMMAND)
    case READINGPASSWORD =>
      if IsWordChar(c) then s else Go(s, c == NUL, s.onSuccess, DGRAM_INVALID_COMMAND)
    case _ => s.(state := DGRAMDISCARD)
  }

  /** One character.  A character after a complete command spoils it. */
  function ParseMp3pCharacter(s: Scanner, c: char): Scanner {
    if InHeader(s.state) then NextInHeader(s, c) else NextInCommand(s, c)
  }

  /** The loop over the datagram; the bad states end it. */
  function Scan(s: Scanner, t: string): Scanner
    decreases |t|
  {
    if t == "" || Stopped(s.state) then s else Scan(ParseMp3pCharacter(s, t[0]), t[1..])
  }

  /** The scanner a datagram starts with, whatever the one before left behind. */
  function Begin(left: State): Scanner { Scanner(START, 0, 0, left) }

  predicate Over(st: State) { IsCommand(st) || Stopped(st) }

  predicate TakesArguments(st: State) { st.DGRAM_DU_COMMAND? || st.DGRAM_MP_COMMAND? || st.DGRAM_AU_COMMAND? }

  predicate ReadsArguments(st: State) {
    st.READDU? || st.READMP? || st.READAU? || st.READONEARGSEPARATOR? || st.READFIRSTARGSEPARATOR? ||
    st.READSECONDARGSEPARATOR? || st.READINGONLYUSER? || st.READINGUSER? || st.READINGPASSWORD?
  }

  /** While arguments are read the remembered command takes arguments. */
  predicate ScannerOk(s: Scanner) { ReadsArguments(s.state) ==> TakesArguments(s.onSuccess) }

  lemma {:induction false} NextOk(s: Scanner, c: char)
    requires ScannerOk(s)
    ensures ScannerOk(ParseMp3pCharacter(s, c))
    ensures c == NUL && !Stopped(s.state) ==> Over(ParseMp3pCharacter(s, c).state)
  {}

  /** A datagram that ends in NUL always gets an answer. */
  lemma {:induction false} ScanEnds(s: Scanner, t: string)
    requires ScannerOk(s) && t != "" && t[|t| - 1] == NUL
    ensures Over(Scan(s, t).state)
    decreases |t|
  {
    if !Stopped(s.state) {
      var s1 := ParseMp3pCharacter(s, t[0]);
      NextOk(s, t[0]);
      if |t| > 1 {
        assert t[1..][|t| - 2] == NUL;
        ScanEnds(s1, t[1..]);
      }
    }
  }

  /** Scanners that differ at most in a remembered command that is not in use. */
  predicate Alike(a: Scanner, b: Scanner) {
    a == b.(onSuccess := a.onSuccess) && (ReadsArguments(a.state) ==> a == b)
  }

  lemma {:induction false} ScanAlike(a: Scanner, b: Scanner, t: string)
    requires Alike(a, b)
    ensures Alike(Scan(a, t), Scan(b, t))
    decreases |t|
  {
    if t != "" && !Stopped(a.state) {
      NextAlike(a, b, t[0]);
      ScanAlike(ParseMp3pCharacter(a, t[0]), ParseMp3pCharacter(b, t[0]), t[1..]);
    }
  }

  lemma {:induction false} NextAlike(a: Scanner, b: Scanner, c: char)
    requires Alike(a, b)
    ensures Alike(ParseMp3pCharacter(a, c), ParseMp3pCharacter(b, c))
  {}

  /** What the static variable held before a datagram does not matter. */
  lemma {:induction false} StaticDoesNotMatter(left: State, other: State, t: string)
    ensures Scan(Begin(left), t).state == Scan(Begin(other), t).state
  {
    ScanAlike(Begin(left), Begin(other), t);
  }

  lemma {:induction false} ScanStep(s: Scanner, c: char, t: string)
    requires !Stopped(s.state)
    ensures Scan(s, [c] + t) == Scan(ParseMp3pCharacter(s, c), t)
  {
    assert ([c] + t)[1..] == t;
  }
}
