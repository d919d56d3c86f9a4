// The resumable parser over a linked list of command nodes, reading the
// NUL-terminated receive buffer.

module CommandParser {
  import opened Standards
  import opened Commands
  import opened CommandSyntax

  // ---------------------------------------------------- the receive buffer

  const RECVSIZE: nat := MAXCOMMANDLENGTH + 1

  /** The receive buffer after a recv of 1 to 255 bytes: the byte behind them
      is zero, and what is behind that is whatever was there before. */
  predicate RecvBuffer(mem: string) { |mem| == RECVSIZE && NUL in mem[1..] }

  /** Position of the first NUL at or after `i`; the end of `mem` if there is none. */
  function TextEnd(mem: string, i: nat): (n: nat)
    requires i <= |mem|
    ensures i <= n <= |mem| && forall k :: i <= k < n ==> mem[k] != NUL
    ensures n < |mem| ==> mem[n] == NUL
    decreases |mem| - i
  {
    if i == |mem| || mem[i] == NUL then i else TextEnd(mem, i + 1)
  }

  /** What was received up to the first NUL. */
  function TextOf(mem: string): (text: string)
    requires RecvBuffer(mem)
    ensures |text| < RECVSIZE && NUL !in text && mem[..|text|] == text && mem[|text|] == NUL
  {
    mem[..TextEnd(mem, 0)]
  }

  /** `ch` is the LF that ends an invalid line which is being discarded. */
  predicate Discards(p: ParseState, ch: char) {
    !NeedsNode(p.list) && p.list[|p.list| - 1].status == INVALID && p.list[|p.list| - 1].receivedCR && !p.lenient &&
      ch == '\n'
  }

  /** The last character of `s` is such an LF. */
  predicate EndsDiscarding(p: ParseState, s: string)
    decreases |s|
  {
    s != "" && if |s| == 1 then Discards(p, s[0]) else EndsDiscarding(Feed(p, s[0]), s[1..])
  }

  /** What is done to the list by the buffer from position `at`.  The text up to
      the NUL is one chunk; if that leaves an unfinished invalid line, the scan
      has stepped over the NUL and goes on behind it.  Where no NUL follows, the
      scan leaves the buffer, unless the last byte ends a line that is being
      discarded: only then nothing is read beyond the line.  Nothing is said of
      the list once the buffer was left. */
  function AddDataFrom(list: seq<Cmd>, mem: string, at: nat): Option<seq<Cmd>>
    requires |mem| == RECVSIZE && at <= RECVSIZE
    decreases RECVSIZE - at
  {
    if at == RECVSIZE || mem[at] == NUL then Some(list)
    else
      var n := TextEnd(mem, at);
      var after := Chunk(list, mem[at..n]);
      if n == RECVSIZE then (if EndsDiscarding(ParseState(list, false), mem[at..n]) then Some(after) else None)
      else if EndsInvalid(after) then AddDataFrom(after, mem, n + 1)
      else Some(after)
  }

  function AddDataTo(list: seq<Cmd>, mem: string): Option<seq<Cmd>>
    requires RecvBuffer(mem)
  {
    AddDataFrom(list, mem, 0)
  }

  // -------------------------------------------- what is behind the terminator

  /** `text` does not end inside an invalid line, or nothing is behind its NUL. */
  predicate TailUnseen(list: seq<Cmd>, text: string) {
    text == "" || |text| + 1 == RECVSIZE || !EndsInvalid(Chunk(list, text))
  }

  lemma {:induction false} TailHarmless(list: seq<Cmd>, mem: string)
    requires RecvBuffer(mem) && TailUnseen(list, TextOf(mem))
    ensures AddDataTo(list, mem) == Some(Chunk(list, TextOf(mem)))
  {
    var n := |TextOf(mem)|;
    EndUnique(mem, n);
    assert mem[0..n] == TextOf(mem);
  }

  lemma {:induction false} EndUnique(mem: string, n: nat)
    requires n < |mem| && mem[n] == NUL && NUL !in mem[..n]
    ensures TextEnd(mem, 0) == n
  {
    forall i | 0 <= i < n ensures mem[i] != NUL { assert mem[..n][i] == mem[i]; }
  }

  /** `text`, its terminator, and letters up to the end of the buffer. */
  function BufferWith(text: string): (mem: string)
    requires |text| + 1 < RECVSIZE
  {
    text + [NUL] + seq(RECVSIZE - |text| - 1, _ => 'x')
  }

  lemma {:induction false} BufferHolds(text: string)
    requires 0 < |text| && |text| + 1 < RECVSIZE && NUL !in text
    ensures var mem := BufferWith(text);
            RecvBuffer(mem) && TextOf(mem) == text && TextEnd(mem, |text| + 1) == RECVSIZE &&
            mem[|text| + 1] != NUL && mem[RECVSIZE - 1] == 'x'
  {
    var mem := BufferWith(text);
    assert mem[1..][|text| - 1] == NUL;
    assert mem[..|text|] == text;
    EndUnique(mem, |text|);
  }

  lemma {:induction false} NotDiscarded(p: ParseState, s: string)
    requires s != "" && s[|s| - 1] != '\n'
    ensures !EndsDiscarding(p, s)
    decreases |s|
  {
    if |s| > 1 { NotDiscarded(Feed(p, s[0]), s[1..]); }
  }

  /** Such a buffer makes the scan leave it. */
  lemma {:induction false} ScanLeaves(list: seq<Cmd>, text: string)
    requires NUL !in text && |text| < RECVSIZE && !TailUnseen(list, text)
    ensures var mem := BufferWith(text); RecvBuffer(mem) && TextOf(mem) == text && AddDataTo(list, mem) == None
  {
    var mem, at := BufferWith(text), |text| + 1;
    BufferHolds(text);
    EndUnique(mem, |text|);
    assert mem[0] == text[0] && mem[0..|text|] == text;
    NotDiscarded(ParseState(Chunk(list, text), false), mem[at..RECVSIZE]);
    assert AddDataFrom(Chunk(list, text), mem, at) == None;
  }

  /** What an earlier use left behind the terminator can change the outcome
      exactly when the received text ends inside an invalid line with room
      behind its NUL; and exactly then it can make the scan leave the buffer. */
  lemma {:induction false} StaleBytesMatter(list: seq<Cmd>, text: string)
    requires NUL !in text && |text| < RECVSIZE
    ensures TailUnseen(list, text) <==>
            forall mem | RecvBuffer(mem) && TextOf(mem) == text :: AddDataTo(list, mem) == Some(Chunk(list, text))
    ensures !TailUnseen(list, text) <==>
            exists mem :: RecvBuffer(mem) && TextOf(mem) == text && AddDataTo(list, mem) == None
  {
    if TailUnseen(list, text) {
      forall mem | RecvBuffer(mem) && TextOf(mem) == text ensures AddDataTo(list, mem) == Some(Chunk(list, text)) {
        TailHarmless(list, mem);
      }
    } else {
      ScanLeaves(list, text);
    }
  }

  /** A zero at the end of the buffer always holds the scan. */
  lemma {:induction false} LastZeroHolds(list: seq<Cmd>, mem: string, at: nat)
    requires |mem| == RECVSIZE && at <= RECVSIZE && mem[RECVSIZE - 1] == NUL
    ensures AddDataFrom(list, mem, at).Some?
    decreases RECVSIZE - at
  {
    if at < RECVSIZE && mem[at] != NUL {
      var n := TextEnd(mem, at);
      assert n < RECVSIZE;
      if EndsInvalid(Chunk(list, mem[at..n])) { LastZeroHolds(Chunk(list, mem[at..n]), mem, n + 1); }
    }
  }

  // ------------------------------------------------------------- one line

  /** Feeds one command until it is done or the text ends; also how much was used. */
  function LineOf(c: Cmd, lenient: bool, s: string): (Cmd, nat)
    decreases |s|
  {
    if s == "" || Done(c) then (c, 0)
    else
      var (c1, l1) := Feed1(c, lenient, s[0]);
      var (c2, k) := LineOf(c1, l1, s[1..]);
      (c2, k + 1)
  }

  lemma {:induction false} LineIsFeed(front: seq<Cmd>, c: Cmd, lenient: bool, s: string)
    requires lenient ==> c.status == INVALID
    ensures var (d, k) := LineOf(c, lenient, s);
            k <= |s| && (!Done(d) ==> k == |s|) && (!Done(c) && s != "" ==> k >= 1)
    ensures var (d, k) := LineOf(c, lenient, s);
            FeedMany(ParseState(front + [c], lenient), s).list == FeedMany(ParseState(front + [d], false), s[k..]).list
    decreases |s|
  {
    if s == "" {
    } else if Done(c) {
      assert s[0..] == s;
    } else {
      var (c1, l1) := Feed1(c, lenient, s[0]);
      var (d, k) := LineOf(c1, l1, s[1..]);
      FeedLast(front, c, lenient, s[0]);
      LineIsFeed(front, c1, l1, s[1..]);
      assert s[1..][k..] == s[k + 1..];
    }
  }

  /** The end of the line is in `s`, and what is read to find it is as well:
      a line that is being written looks at the character behind its LF. */
  predicate EndsInside(c: Cmd, lenient: bool, s: string)
    decreases |s|
  {
    s != "" &&
    var (c1, l1) := Feed1(c, lenient, s[0]);
    if Done(c1) then (c.status == INVALID && !lenient) || |s| > 1 else EndsInside(c1, l1, s[1..])
  }

  lemma {:induction false} InsideIsDone(c: Cmd, lenient: bool, s: string)
    requires !Done(c) && EndsInside(c, lenient, s)
    ensures Done(LineOf(c, lenient, s).0)
    decreases |s|
  {
    var (c1, l1) := Feed1(c, lenient, s[0]);
    if !Done(c1) { InsideIsDone(c1, l1, s[1..]); }
  }

  /** The command, how much was used, and whether the end is inside. */
  function Whole(c: Cmd, lenient: bool, s: string): (Cmd, nat, bool) {
    (LineOf(c, lenient, s).0, LineOf(c, lenient, s).1, EndsInside(c, lenient, s))
  }

  lemma {:induction false} WholeStep(c: Cmd, lenient: bool, s: string)
    requires !Done(c) && s != ""
    ensures var (c1, l1) := Feed1(c, lenient, s[0]);
            Whole(c, lenient, s) ==
              if Done(c1) then (c1, 1, (c.status == INVALID && !lenient) || |s| > 1)
              else Behind(1, Whole(c1, l1, s[1..]))
  {
    var c1 := Feed1(c, lenient, s[0]).0;
    if Done(c1) { assert LineOf(c1, Feed1(c, lenient, s[0]).1, s[1..]) == (c1, 0); }
  }

  /** `part` is what is left of a line of which `at` characters were used. */
  function Behind(at: nat, part: (Cmd, nat, bool)): (Cmd, nat, bool) { (part.0, at + part.1, part.2) }

  /** In terms of the last character of the buffer. */
  lemma {:induction false} InsideIsDiscarding(front: seq<Cmd>, c: Cmd, lenient: bool, s: string)
    requires !Done(c) && (lenient ==> c.status == INVALID)
    ensures var (d, m) := LineOf(c, lenient, s);
            m <= |s| &&
            (m == |s| ==> (EndsInside(c, lenient, s) <==> EndsDiscarding(ParseState(front + [c], lenient), s))) &&
            (m < |s| ==> EndsInside(c, lenient, s)) &&
            (m < |s| ==>
               EndsDiscarding(ParseState(front + [c], lenient), s) ==
               EndsDiscarding(ParseState(front + [d], false), s[m..]))
    decreases |s|
  {
    if s != "" {
      var (c1, l1) := Feed1(c, lenient, s[0]);
      FeedLast(front, c, lenient, s[0]);
      assert (front + [c])[|front|] == c;
      if Done(c1) {
        assert LineOf(c, lenient, s) == (c1, 1);
      } else {
        InsideIsDiscarding(front, c1, l1, s[1..]);
        var m := LineOf(c1, l1, s[1..]).1;
        assert s[1..][m..] == s[m + 1..];
      }
    }
  }

  // ---------------------------------------------------------------- nodes

  class CommandNode {
    var command: string
    var arg1: string
    var arg2: string
    var callback: Option<Verb>
    var commandStatus: Status
    var receivedCR: bool
    var next: CommandNode?

    function Abs(): Cmd
      reads this
    {
      Cmd(command, arg1, arg2, callback, commandStatus, receivedCR)
    }

    /** The buffer that is being written. */
    function Buffer(target: Target): string
      reads this
    {
      match target case ToCommand => command case ToArg1 => arg1 case ToArg2 => arg2
    }

    constructor ()
      ensures Abs() == NEWCMD && next == null
    {
      command, arg1, arg2, callback := "", "", "", None;
      commandStatus, receivedCR, next := WRITINGCOMMAND, false, null;
    }
  }

  datatype Target = ToCommand | ToArg1 | ToArg2

  datatype Aux = Aux(statusAfterSpace: Status, maxSize: nat, target: Target)

  /** Chooses the buffer for the status; any other status keeps the last choice. */
  function SetupProcessWriting(status: Status, was: Aux): Aux {
    match status
    case WRITINGCOMMAND => Aux(WRITINGARG1, MAXCOMMANDSIZE, ToCommand)
    case WRITINGARG1 => Aux(WRITINGARG2, MAXARGSIZE, ToArg1)
    case WRITINGARG2 => Aux(INVALID, MAXARGSIZE, ToArg2)
    case _ => was
  }

  ghost predicate AuxFor(aux: Aux, status: Status) {
    aux == Aux(AfterSpace(status), MaxSize(status),
               match status case WRITINGCOMMAND => ToCommand case WRITINGARG1 => ToArg1 case _ => ToArg2)
  }

  /** How one character of a line being written went. */
  datatype Verdict = GoOn | LineOver | Hopeless

  method WriteCharacter(node: CommandNode, aux: Aux, c: char) returns (aux': Aux, verdict: Verdict)
    requires Writing(node.commandStatus) || node.commandStatus == INVALID
    requires AuxFor(aux, node.commandStatus)
    modifies node
    ensures node.next == old(node.next)
    ensures var was := old(node.Abs());
            match verdict
            case GoOn => (node.Abs(), node.commandStatus == INVALID) == Write(was, c) && !was.receivedCR &&
                         AuxFor(aux', node.commandStatus) && !Done(node.Abs())
            case LineOver => was.receivedCR && node.Abs() == was.(status := if c == '\n' then COMPLETE else INVALID)
            case Hopeless => !was.receivedCR && c != '\r' && node.Abs() == was.(status := INVALID) &&
                             Write(was, c) == (node.Abs(), false)
  {
    aux', verdict := aux, GoOn;
    if node.receivedCR {
      node.commandStatus := if c == '\n' then COMPLETE else INVALID;
      verdict := LineOver;
    } else if c == ' ' {
      node.commandStatus := aux.statusAfterSpace;
      aux' := SetupProcessWriting(node.commandStatus, aux);
    } else if c == '\r' {
      node.receivedCR := true;
    } else if aux.maxSize <= |node.Buffer(aux.target)| {
      node.commandStatus := INVALID;
      verdict := Hopeless;
    } else if IsPrintable(c) {
      match aux.target
      case ToCommand => node.command := node.command + [c];
      case ToArg1 => node.arg1 := node.arg1 + [c];
      case ToArg2 => node.arg2 := node.arg2 + [c];
    } else {
      node.commandStatus := INVALID;
      verdict := Hopeless;
    }
  }

  /** The writing of `whole` is over at `at`, with the command left as `c`. */
  ghost predicate Settled(whole: (Cmd, nat, bool), c: Cmd, s: string, at: nat) {
    at <= |s| &&
    match c.status
    case COMPLETE => whole == (Resolve(c), at, at < |s|)
    case COMPLETEINVALID => false
    case INVALID => whole == Behind(at, Whole(c, false, s[at..]))
    case _ => at == |s| && whole == (c, at, false)
  }

  /** Still writing `whole`, at `at`. */
  ghost predicate Unsettled(whole: (Cmd, nat, bool), c: Cmd, s: string, at: nat) {
    at <= |s| && !Done(c) && whole == Behind(at, Whole(c, c.status == INVALID, s[at..]))
  }

  lemma {:induction false} SettleStep(whole: (Cmd, nat, bool), was: Cmd, c: Cmd, s: string, at: nat, verdict: Verdict)
    requires Unsettled(whole, was, s, at) && at < |s|
    requires match verdict
             case GoOn => (c, c.status == INVALID) == Write(was, s[at]) && !was.receivedCR && !Done(c)
             case LineOver => was.receivedCR && c == was.(status := if s[at] == '\n' then COMPLETE else INVALID)
             case Hopeless => !was.receivedCR && s[at] != '\r' && c == was.(status := INVALID) &&
                              Write(was, s[at]) == (c, false)
    ensures match verdict
            case GoOn => Unsettled(whole, c, s, at + 1)
            case LineOver => Settled(whole, c, s, at + 1)
            case Hopeless => Settled(whole, c, s, at)
  {
    NextOf(whole, was, s, at);
    if verdict == Hopeless { HopelessIsDiscarded(c, s, at); }
  }

  /** One character of a line that is being written. */
  lemma {:induction false} NextOf(whole: (Cmd, nat, bool), was: Cmd, s: string, at: nat)
    requires Unsettled(whole, was, s, at) && at < |s|
    ensures var (c1, l1) := Write(was, s[at]);
            whole == if Done(c1) then (c1, at + 1, at + 1 < |s|) else Behind(at + 1, Whole(c1, l1, s[at + 1..]))
  {
    assert s[at..][0] == s[at] && s[at..][1..] == s[at + 1..];
    assert Feed1(was, was.status == INVALID, s[at]) == Write(was, s[at]);
    WholeStep(was, was.status == INVALID, s[at..]);
  }

  lemma {:induction false} HopelessIsDiscarded(c: Cmd, s: string, at: nat)
    requires c.status == INVALID && !c.receivedCR && at < |s| && s[at] != '\r'
    ensures Whole(c, false, s[at..]) == Behind(1, Whole(c, false, s[at + 1..]))
  {
    assert s[at..][0] == s[at] && s[at..][1..] == s[at + 1..];
    assert Feed1(c, false, s[at]) == (c, false);
    WholeStep(c, false, s[at..]);
  }

  /** One character, with where that leaves the line `whole`. */
  method WriteNext(node: CommandNode, aux: Aux, c: char, ghost whole: (Cmd, nat, bool), ghost s: string, ghost at: nat)
    returns (aux': Aux, verdict: Verdict)
    requires Unsettled(whole, node.Abs(), s, at) && at < |s| && s[at] == c && AuxFor(aux, node.commandStatus)
    modifies node
    ensures node.next == old(node.next)
    ensures match verdict
            case GoOn => Unsettled(whole, node.Abs(), s, at + 1) && AuxFor(aux', node.commandStatus)
            case LineOver => Settled(whole, node.Abs(), s, at + 1) && !Writing(node.commandStatus)
            case Hopeless => Settled(whole, node.Abs(), s, at) && node.commandStatus == INVALID
  {
    ghost var was := node.Abs();
    aux', verdict := WriteCharacter(node, aux, c);
    SettleStep(whole, was, node.Abs(), s, at, verdict);
  }

  /** The loop of processWriting at `i`, over the text `s` that a NUL or else
      the end of the buffer ends. */
  ghost predicate Round(whole: (Cmd, nat, bool), c: Cmd, aux: Aux, s: string, open: bool, i: nat, finished: bool,
                        lineOver: bool) {
    if finished then
      1 <= i && Settled(whole, c, s, i - 1) && (open ==> c.status == INVALID || (c.status == COMPLETE && i - 1 < |s|))
    else if lineOver then i == |s| && !open && Settled(whole, c, s, i) && !Writing(c.status)
    else Unsettled(whole, c, s, i) && AuxFor(aux, c.status)
  }

  /** Where the text ends. */
  lemma {:induction false} RoundAtEnd(whole: (Cmd, nat, bool), c: Cmd, aux: Aux, s: string, open: bool, i: nat,
                                      lineOver: bool)
    requires Round(whole, c, aux, s, open, i, false, lineOver) && i == |s|
    ensures if open then !whole.2 else Round(whole, c, aux, s, open, i + 1, true, lineOver)
  {
    assert s[i..] == "";
  }

  /** One round of that loop, at a character. */
  method WriteRound(node: CommandNode, aux: Aux, data: array<char>, from: nat, i: nat, ghost whole: (Cmd, nat, bool),
                    ghost s: string)
    returns (aux': Aux, j: nat, finished: bool, lineOver: bool, overrun: bool)
    requires data.Length == RECVSIZE && from + i < RECVSIZE && data[from + i] != NUL
    requires s == data[from..TextEnd(data[..], from)]
    requires Round(whole, node.Abs(), aux, s, TextEnd(data[..], from) == RECVSIZE, i, false, false)
    modifies node
    ensures node.next == old(node.next)
    ensures if overrun then TextEnd(data[..], from) == RECVSIZE && !whole.2
            else i < j && Round(whole, node.Abs(), aux', s, TextEnd(data[..], from) == RECVSIZE, j, finished, lineOver)
  {
    var verdict;
    aux', verdict := WriteNext(node, aux, data[from + i], whole, s, i);
    finished, lineOver, overrun, j := verdict == Hopeless, verdict == LineOver, false, i + 1;
    if verdict == LineOver {
      if from + i + 1 == data.Length {
        assert s[i + 1..] == "";
        return aux', j, finished, lineOver, true;
      }
      if data[from + i + 1] != NUL {
        finished := true;
        j := j + 1;
      }
    }
  }

  /** Writes into the node until the line ends, becomes hopeless or the text
      ends; `k` characters are used up.  `overrun` is a read behind the buffer. */
  method ProcessWriting(node: CommandNode, data: array<char>, from: nat) returns (k: nat, overrun: bool)
    requires data.Length == RECVSIZE && from < RECVSIZE && Writing(node.commandStatus)
    modifies node
    ensures node.next == old(node.next)
    ensures var n := TextEnd(data[..], from);
            var s := data[from..n];
            var whole := Whole(old(node.Abs()), false, s);
            if overrun then n == RECVSIZE && !whole.2
            else Settled(whole, node.Abs(), s, k) &&
                 (n == RECVSIZE ==> node.commandStatus == INVALID || (node.commandStatus == COMPLETE && whole.2))
  {
    ghost var n := TextEnd(data[..], from);
    ghost var s := data[from..n];
    ghost var whole := Whole(node.Abs(), false, s);
    assert s[0..] == s;
    var finishedParsing := false;
    var aux := SetupProcessWriting(node.commandStatus, Aux(INVALID, 0, ToCommand));
    var i: nat := 0;
    var lineOver := false;
    while !finishedParsing
      invariant node.next == old(node.next)
      invariant Round(whole, node.Abs(), aux, s, n == RECVSIZE, i, finishedParsing, lineOver)
      decreases !finishedParsing, |s| - i
    {
      if from + i == data.Length {
        RoundAtEnd(whole, node.Abs(), aux, s, n == RECVSIZE, i, lineOver);
        return i, true;
      }
      if data[from + i] == NUL {
        RoundAtEnd(whole, node.Abs(), aux, s, n == RECVSIZE, i, lineOver);
        finishedParsing := true;
        i := i + 1;
      } else {
        aux, i, finishedParsing, lineOver, overrun := WriteRound(node, aux, data, from, i, whole, s);
        if overrun {
          return i, true;
        }
      }
    }
    return i - 1, false;
  }

  /** Still discarding `whole`, at `at`. */
  ghost predicate Discarding(whole: (Cmd, nat, bool), c: Cmd, s: string, at: nat) {
    at <= |s| && c.status == INVALID && whole == Behind(at, Whole(c, false, s[at..]))
  }

  ghost predicate Discarded(whole: (Cmd, nat, bool), c: Cmd, s: string, at: nat) {
    whole.0 == c && if Done(c) then at == whole.1 && whole.2 else at == |s| + 1 && !whole.2
  }

  lemma {:induction false} DiscardStep(whole: (Cmd, nat, bool), c: Cmd, s: string, at: nat)
    requires Discarding(whole, c, s, at)
    ensures at < |s| && Done(Discard(c, s[at])) ==> Discarded(whole, Discard(c, s[at]), s, at + 1)
    ensures at < |s| && !Done(Discard(c, s[at])) ==> Discarding(whole, Discard(c, s[at]), s, at + 1)
    ensures at == |s| ==> Discarded(whole, c, s, at + 1)
  {
    if at < |s| {
      assert s[at..][0] == s[at] && s[at..][1..] == s[at + 1..];
      assert Feed1(c, false, s[at]) == (Discard(c, s[at]), false);
      WholeStep(c, false, s[at..]);
    } else {
      assert s[at..] == "";
    }
  }

  /** Skips an invalid line up to its CRLF.  If the text ends first, the count
      includes the NUL. */
  method DiscardUntilCRLF(node: CommandNode, data: array<char>, from: nat) returns (k: nat, overrun: bool)
    requires data.Length == RECVSIZE && from <= RECVSIZE && node.commandStatus == INVALID
    modifies node
    ensures node.next == old(node.next)
    ensures var n := TextEnd(data[..], from);
            var s := data[from..n];
            var whole := Whole(old(node.Abs()), false, s);
            if overrun then n == RECVSIZE && !whole.2
            else Discarded(whole, node.Abs(), s, k) && (n == RECVSIZE ==> whole.2)
  {
    ghost var n := TextEnd(data[..], from);
    ghost var s := data[from..n];
    ghost var whole := Whole(node.Abs(), false, s);
    assert s[0..] == s;
    var finishedParsing := false;
    var i := 0;
    while !finishedParsing
      invariant node.next == old(node.next)
      invariant !finishedParsing ==> Discarding(whole, node.Abs(), s, i)
      invariant finishedParsing ==> Discarded(whole, node.Abs(), s, i) && (n == RECVSIZE ==> whole.2)
      decreases !finishedParsing, |s| - i
    {
      DiscardStep(whole, node.Abs(), s, i);
      if from + i == data.Length {
        return i, true;
      }
      var c := data[from + i];
      if c == NUL {
        finishedParsing := true;
      } else if c == '\r' {
        node.receivedCR := true;
      } else if c == '\n' && node.receivedCR {
        node.commandStatus := COMPLETEINVALID;
        finishedParsing := true;
      } else {
        node.receivedCR := false;
      }
      i := i + 1;
    }
    return i, false;
  }

  /** Writing and then discarding is one line. */
  lemma {:induction false} SettledThenDiscarded(whole: (Cmd, nat, bool), c: Cmd, s: string, at: nat, d: Cmd, more: nat)
    requires Settled(whole, c, s, at) && c.status == INVALID
    requires Discarded(Whole(c, false, s[at..]), d, s[at..], more)
    ensures Discarded(whole, d, s, at + more)
  {}

  /** Looks up the handler of a command whose line is complete. */
  method ResolveNode(node: CommandNode)
    requires node.commandStatus == COMPLETE
    modifies node`callback, node`commandStatus
    ensures node.Abs() == old(Resolve(node.Abs()))
  {
    var command := GetCommand(node.command);
    if command.Some? {
      node.callback := command;
    } else {
      node.commandStatus := COMPLETEINVALID;
    }
  }

  /** Discards the rest of a line that was found invalid `at` characters on. */
  method DiscardRest(node: CommandNode, data: array<char>, from: nat, at: nat, ghost whole: (Cmd, nat, bool))
    returns (k: nat, overrun: bool)
    requires data.Length == RECVSIZE && from < RECVSIZE && node.commandStatus == INVALID
    requires from + at <= TextEnd(data[..], from)
    requires Settled(whole, node.Abs(), data[from..TextEnd(data[..], from)], at)
    modifies node
    ensures node.next == old(node.next)
    ensures var n := TextEnd(data[..], from);
            if overrun then n == RECVSIZE && !whole.2
            else Discarded(whole, node.Abs(), data[from..n], k) && (n == RECVSIZE ==> whole.2) &&
                 (Done(node.Abs()) || node.commandStatus == INVALID)
  {
    ghost var n := TextEnd(data[..], from);
    ghost var c := node.Abs();
    EndLater(data[..], from, from + at);
    assert data[from..n][at..] == data[from + at..n];
    k, overrun := DiscardUntilCRLF(node, data, from + at);
    LineEnds(c, false, data[from + at..n]);
    if !overrun { SettledThenDiscarded(whole, c, data[from..n], at, node.Abs(), k); }
    k := at + k;
  }

  /** Goes on with an unfinished node; the count steps over the NUL when the
      text ends inside an invalid line. */
  method ProcessNode(node: CommandNode, data: array<char>, from: nat) returns (k: nat, overrun: bool)
    requires data.Length == RECVSIZE && from < RECVSIZE
    requires Writing(node.commandStatus) || node.commandStatus == INVALID
    modifies node
    ensures node.next == old(node.next)
    ensures var n := TextEnd(data[..], from);
            var s := data[from..n];
            var whole := Whole(old(node.Abs()), false, s);
            (overrun <==> n == RECVSIZE && !whole.2) && (!overrun ==> LineDone(whole, node.Abs(), s, k))
  {
    ghost var s := data[from..TextEnd(data[..], from)];
    ghost var whole := Whole(node.Abs(), false, s);
    LineEnds(node.Abs(), false, s);
    assert s[0..] == s;
    k, overrun := 0, false;
    if Writing(node.commandStatus) {
      k, overrun := ProcessWriting(node, data, from);
    }
    if overrun {
      return;
    }
    if node.commandStatus == COMPLETE {
      ResolveNode(node);
    } else if node.commandStatus == INVALID {
      k, overrun := DiscardRest(node, data, from, k, whole);
    }
  }

  /** The node is left as the line leaves it; an unfinished invalid line has
      also used up the NUL. */
  ghost predicate LineDone(whole: (Cmd, nat, bool), c: Cmd, s: string, k: nat) {
    c == whole.0 && k == if c.status == INVALID then |s| + 1 else whole.1
  }

  lemma {:induction false} LineEnds(c: Cmd, lenient: bool, s: string)
    requires !Done(c) && (lenient ==> c.status == INVALID)
    ensures var (d, m) := LineOf(c, lenient, s);
            m <= |s| && (!Done(d) ==> m == |s|) && (s != "" ==> 1 <= m) &&
            (c.status == INVALID && !lenient ==> !Writing(d.status) && d.status != COMPLETE)
    decreases |s|
  {
    if s != "" {
      var (c1, l1) := Feed1(c, lenient, s[0]);
      if !Done(c1) { LineEnds(c1, l1, s[1..]); }
    }
  }

  lemma {:induction false} EndLater(mem: string, i: nat, j: nat)
    requires i <= |mem| && i <= j <= TextEnd(mem, i)
    ensures TextEnd(mem, j) == TextEnd(mem, i)
    decreases j - i
  {
    if i < j { EndLater(mem, i + 1, j); }
  }

  // ----------------------------------------------------------------- list

  class CommandList {
    var first: CommandNode?
    var last: CommandNode?
    ghost var spine: seq<CommandNode>

    ghost predicate Valid()
      reads this, spine
    {
      (forall i, j :: 0 <= i < j < |spine| ==> spine[i] != spine[j]) &&
      (forall i :: 0 <= i < |spine| - 1 ==> spine[i].next == spine[i + 1]) &&
      (if spine == [] then first == null && last == null
       else first == spine[0] && last == spine[|spine| - 1] && last.next == null)
    }

    ghost function Abs(): seq<Cmd>
      reads this, spine
    {
      seq(|spine|, i requires 0 <= i < |spine| reads this, spine => spine[i].Abs())
    }

    constructor ()
      ensures Valid() && Abs() == [] && spine == []
    {
      first, last, spine := null, null, [];
    }

    predicate IsEmpty()
      requires Valid()
      reads this, spine
      ensures IsEmpty() <==> Abs() == []
    {
      first == null
    }

    method AddNodeToList() returns (newNode: CommandNode)
      requires Valid()
      modifies this, spine
      ensures Valid() && fresh(newNode) && spine == old(spine) + [newNode]
      ensures Abs() == old(Abs()) + [NEWCMD] && last == newNode
    {
      newNode := new CommandNode();
      if IsEmpty() {
        first, last := newNode, newNode;
      } else {
        last.next := newNode;
        last := newNode;
      }
      ghost var was := old(Abs());
      spine := spine + [newNode];
      assert forall i :: 0 <= i < |was| ==> spine[i].Abs() == was[i];
    }

    method DeleteFirstNode()
      requires Valid() && Abs() != []
      modifies this
      ensures Valid() && spine == old(spine)[1..]
      ensures Abs() == old(Abs())[1..]
    {
      if first == last {
        assert |spine| == 1;
        first, last := null, null;
      } else {
        first := first.next;
      }
      spine := spine[1..];
    }

    /** Parses the text of the receive buffer into the list.  `overrun` is a read
        behind the buffer; nothing is said of the list then. */
    method AddData(data: array<char>) returns (overrun: bool)
      requires Valid() && RecvBuffer(data[..]) && ListOk(Abs())
      modifies this, spine
      ensures overrun <==> AddDataTo(old(Abs()), data[..]) == None
      ensures !overrun ==> Valid() && ListOk(Abs()) && AddDataTo(old(Abs()), data[..]) == Some(Abs())
      ensures fresh(set n | n in spine && n !in old(spine))
    {
      var charactersProcessed: nat := 0;
      while charactersProcessed != MAXCOMMANDLENGTH + 1 && data[charactersProcessed] != NUL
        invariant Valid() && charactersProcessed <= RECVSIZE && ListOk(Abs())
        invariant AddDataTo(old(Abs()), data[..]) == AddDataFrom(Abs(), data[..], charactersProcessed)
        invariant fresh(set n | n in spine && n !in old(spine))
        decreases RECVSIZE - charactersProcessed
      {
        var k;
        k, overrun := ProcessOne(data, charactersProcessed);
        if overrun {
          return;
        }
        charactersProcessed := charactersProcessed + k;
      }
      return false;
    }

    /** One round: the node being written, or a new one. */
    method ProcessOne(data: array<char>, at: nat) returns (k: nat, overrun: bool)
      requires Valid() && data.Length == RECVSIZE && ListOk(Abs()) && at < RECVSIZE && data[at] != NUL
      modifies this, spine
      ensures overrun ==> AddDataFrom(old(Abs()), data[..], at) == None
      ensures !overrun ==> Valid() && ListOk(Abs()) && 1 <= k && at + k <= RECVSIZE
      ensures !overrun ==> AddDataFrom(old(Abs()), data[..], at) == AddDataFrom(Abs(), data[..], at + k)
      ensures fresh(set n | n in spine && n !in old(spine))
    {
      ghost var list0 := Abs();
      var node := NodeToProcess();
      ghost var front := Abs()[..|spine| - 1];
      ghost var c := last.Abs();
      k, overrun := ProcessLast(data, at);
      RoundIs(list0, front, c, data[..], at, last.Abs(), k, overrun);
    }

    /** The last node if its line has not ended, and otherwise a new one. */
    method NodeToProcess() returns (node: CommandNode)
      requires Valid() && ListOk(Abs())
      modifies this, spine
      ensures Valid() && spine != [] && node == last && !Done(last.Abs())
      ensures fresh(set n | n in spine && n !in old(spine))
      ensures Abs() == Abs()[..|spine| - 1] + [last.Abs()]
      ensures if NeedsNode(old(Abs())) then Abs()[..|spine| - 1] == old(Abs()) && last.Abs() == NEWCMD
              else Abs() == old(Abs())
    {
      ghost var list0 := Abs();
      assert spine != [] ==> list0[|spine| - 1] == last.Abs();
      if IsEmpty() || last.commandStatus == COMPLETE || last.commandStatus == COMPLETEINVALID {
        node := AddNodeToList();
      } else {
        node := last;
      }
      assert Abs()[|spine| - 1] == last.Abs();
    }

    method ProcessLast(data: array<char>, at: nat) returns (k: nat, overrun: bool)
      requires Valid() && data.Length == RECVSIZE && at < RECVSIZE && spine != [] && !Done(last.Abs())
      modifies last
      ensures Valid() && spine == old(spine) && last == old(last)
      ensures Abs() == old(Abs())[..|spine| - 1] + [last.Abs()]
      ensures var n := TextEnd(data[..], at);
              var s := data[at..n];
              var whole := Whole(old(last.Abs()), false, s);
              (overrun <==> n == RECVSIZE && !whole.2) && (!overrun ==> LineDone(whole, last.Abs(), s, k))
    {
      k, overrun := ProcessNode(last, data, at);
    }
  }

  /** One round of the loop, on values. */
  lemma {:induction false} RoundIs(list: seq<Cmd>, front: seq<Cmd>, c: Cmd, mem: string, at: nat, d: Cmd, k: nat,
                                   overrun: bool)
    requires |mem| == RECVSIZE && ListOk(list) && at < RECVSIZE && mem[at] != NUL
    requires if NeedsNode(list) then front == list && c == NEWCMD else list == front + [c]
    requires var n := TextEnd(mem, at);
             var whole := Whole(c, false, mem[at..n]);
             (overrun <==> n == RECVSIZE && !whole.2) && (!overrun ==> LineDone(whole, d, mem[at..n], k))
    ensures overrun ==> AddDataFrom(list, mem, at) == None
    ensures !overrun ==> 1 <= k && at + k <= RECVSIZE && ListOk(front + [d])
    ensures !overrun ==> AddDataFrom(list, mem, at) == AddDataFrom(front + [d], mem, at + k)
  {
    var n := TextEnd(mem, at);
    if overrun {
      RoundOverruns(list, front, c, mem, at, n);
    } else {
      var s := mem[at..n];
      LineEnds(c, false, s);
      LineKeeps(front, c, false, s);
      if n == RECVSIZE { InsideIsDone(c, false, s); }
      RoundGoesOn(list, front, c, mem, at, n, d, Whole(c, false, s).1);
    }
  }

  lemma {:induction false} RoundOverruns(list: seq<Cmd>, front: seq<Cmd>, c: Cmd, mem: string, at: nat, n: nat)
    requires |mem| == RECVSIZE && at < RECVSIZE && mem[at] != NUL && n == TextEnd(mem, at) == RECVSIZE
    requires if NeedsNode(list) then front == list && c == NEWCMD else list == front + [c]
    requires !EndsInside(c, false, mem[at..n])
    ensures AddDataFrom(list, mem, at) == None
  {
    RoundEnds(list, front, c, mem[at..n]);
  }

  lemma {:induction false} RoundGoesOn(list: seq<Cmd>, front: seq<Cmd>, c: Cmd, mem: string, at: nat, n: nat, d: Cmd,
                                       m: nat)
    requires |mem| == RECVSIZE && ListOk(list) && at < RECVSIZE && mem[at] != NUL && n == TextEnd(mem, at)
    requires if NeedsNode(list) then front == list && c == NEWCMD else list == front + [c]
    requires LineOf(c, false, mem[at..n]) == (d, m) && at + m <= n && (!Done(d) ==> at + m == n < RECVSIZE)
    requires n == RECVSIZE ==> EndsInside(c, false, mem[at..n])
    ensures AddDataFrom(list, mem, at) == AddDataFrom(front + [d], mem, if d.status == INVALID then n + 1 else at + m)
  {
    var s := mem[at..n];
    RoundChunk(list, front, c, s);
    RoundEnds(list, front, c, s);
    assert mem[at + m..n] == s[m..];
    RoundRest(list, front + [d], d, mem, at, n, m);
  }

  /** Whether the scan of a tail without NUL stays inside, one line on. */
  lemma {:induction false} RoundEnds(list: seq<Cmd>, front: seq<Cmd>, c: Cmd, s: string)
    requires s != "" && if NeedsNode(list) then front == list && c == NEWCMD else list == front + [c]
    ensures var (d, m, inside) := Whole(c, false, s);
            m <= |s| &&
            (m == |s| || !inside ==> EndsDiscarding(ParseState(list, false), s) == inside) &&
            (m < |s| ==>
               EndsDiscarding(ParseState(list, false), s) == EndsDiscarding(ParseState(front + [d], false), s[m..]))
  {
    if NeedsNode(list) { OpensDiscarding(list, s); }
    InsideIsDiscarding(front, c, false, s);
  }

  lemma {:induction false} OpensDiscarding(list: seq<Cmd>, s: string)
    requires NeedsNode(list) && s != ""
    ensures EndsDiscarding(ParseState(list, false), s) == EndsDiscarding(ParseState(list + [NEWCMD], false), s)
  {
    FeedOpens(list, s);
  }

  /** What is left after a line whose node is `d`, the last of `next`. */
  lemma {:induction false} RoundRest(list: seq<Cmd>, next: seq<Cmd>, d: Cmd, mem: string, at: nat, n: nat, m: nat)
    requires |mem| == RECVSIZE && at < RECVSIZE && mem[at] != NUL && n == TextEnd(mem, at) && at + m <= n
    requires next != [] && next[|next| - 1] == d && (!Done(d) ==> at + m == n < RECVSIZE)
    requires Chunk(list, mem[at..n]) == Chunk(next, mem[at + m..n]) && (at + m == n ==> Chunk(list, mem[at..n]) == next)
    requires var ends := EndsDiscarding(ParseState(list, false), mem[at..n]);
             n == RECVSIZE ==>
               if at + m == n then ends else ends == EndsDiscarding(ParseState(next, false), mem[at + m..n])
    ensures AddDataFrom(list, mem, at) == AddDataFrom(next, mem, if d.status == INVALID then n + 1 else at + m)
  {
    EndLater(mem, at, at + m);
  }

  lemma {:induction false} RoundChunk(list: seq<Cmd>, front: seq<Cmd>, c: Cmd, s: string)
    requires s != "" && if NeedsNode(list) then front == list && c == NEWCMD else list == front + [c]
    ensures var (d, m) := LineOf(c, false, s);
            m <= |s| && Chunk(list, s) == Chunk(front + [d], s[m..]) &&
            (!Done(d) || m == |s| ==> Chunk(list, s) == front + [d])
  {
    if NeedsNode(list) {
      FeedOpens(list, s);
    }
    LineIsFeed(front, c, false, s);
    var (d, m) := LineOf(c, false, s);
    if m == |s| { assert s[m..] == ""; }
  }

  lemma {:induction false} LineKeeps(front: seq<Cmd>, c: Cmd, lenient: bool, s: string)
    requires ListOk(front + [c]) && (lenient ==> c.status == INVALID)
    ensures ListOk(front + [LineOf(c, lenient, s).0])
    decreases |s|
  {
    if s != "" && !Done(c) {
      var (c1, l1) := Feed1(c, lenient, s[0]);
      assert (front + [c])[|front|] == c;
      Feed1Keeps(c, lenient, s[0]);
      forall i | 0 <= i < |front + [c1]| ensures CmdOk((front + [c1])[i]) {
        assert i < |front| ==> (front + [c])[i] == (front + [c1])[i];
      }
      forall i | 0 <= i < |front| ensures Done((front + [c1])[i]) {
        assert (front + [c])[i] == (front + [c1])[i];
      }
      LineKeeps(front, c1, l1, s[1..]);
    }
  }

  /** Takes the first finished command off the list. */
  method GetFirstCommand(list: CommandList) returns (r: Option<ToExecute>)
    requires list.Valid()
    modifies list
    ensures list.Valid()
    ensures r.Some? <==> old(Available(list.Abs()))
    ensures r.Some? ==> r.value == old(Taken(list.Abs()[0])) && list.Abs() == old(list.Abs())[1..]
    ensures r.Some? ==> list.spine == old(list.spine)[1..]
    ensures r.None? ==> list.Abs() == old(list.Abs()) && list.spine == old(list.spine)
  {
    var available := AvailableCommands(list);
    if !available {
      return None;
    }
    var node := list.first;
    r := Some(ToExecute(node.command, node.arg1, node.arg2, node.callback));
    list.DeleteFirstNode();
  }

  method AvailableCommands(list: CommandList) returns (r: bool)
    requires list.Valid()
    ensures r <==> Available(list.Abs())
  {
    r := list.first != null && (list.first.commandStatus == COMPLETE || list.first.commandStatus == COMPLETEINVALID);
  }
}
