// The pipelined command syntax as values: what one received character does to
// the list of commands, and what cutting the stream into chunks changes.

module CommandSyntax {
  import opened Standards
  import opened Commands

  datatype Status = WRITINGCOMMAND | WRITINGARG1 | WRITINGARG2 | COMPLETE | INVALID | COMPLETEINVALID

  datatype Cmd = Cmd(command: string, arg1: string, arg2: string,
                     callback: Option<Verb>, status: Status, receivedCR: bool)

  const NEWCMD := Cmd("", "", "", None, WRITINGCOMMAND, false)

  predicate Writing(s: Status) { s == WRITINGCOMMAND || s == WRITINGARG1 || s == WRITINGARG2 }

  predicate Done(c: Cmd) { c.status == COMPLETE || c.status == COMPLETEINVALID }

  predicate IsPrintable(c: char) { ' ' <= c <= '~' }

  // The buffer being written.  Past the third space the writing loop keeps its
  // last set-up, so an INVALID command still writes its second argument.

  function Field(c: Cmd): string {
    match c.status
    case WRITINGCOMMAND => c.command
    case WRITINGARG1 => c.arg1
    case _ => c.arg2
  }

  function MaxSize(s: Status): nat { if s == WRITINGCOMMAND then MAXCOMMANDSIZE else MAXARGSIZE }

  function AfterSpace(s: Status): Status {
    match s
    case WRITINGCOMMAND => WRITINGARG1
    case WRITINGARG1 => WRITINGARG2
    case _ => INVALID
  }

  function Append(c: Cmd, ch: char): Cmd {
    match c.status
    case WRITINGCOMMAND => c.(command := c.command + [ch])
    case WRITINGARG1 => c.(arg1 := c.arg1 + [ch])
    case _ => c.(arg2 := c.arg2 + [ch])
  }

  /** A COMPLETE command is looked up; an unknown name makes it invalid. */
  function Resolve(c: Cmd): Cmd {
    match Lookup(c.command)
    case Some(v) => c.(callback := Some(v), status := COMPLETE)
    case None => c.(status := COMPLETEINVALID)
  }

  /** One character of an invalid line. */
  function Discard(c: Cmd, ch: char): Cmd {
    if ch == '\r' then c.(receivedCR := true)
    else if ch == '\n' && c.receivedCR then c.(status := COMPLETEINVALID)
    else c.(receivedCR := false)
  }

  /** One character of a line being written.  The flag says that the line has
      become INVALID by a third space and that this chunk goes on writing it. */
  function Write(c: Cmd, ch: char): (Cmd, bool) {
    if c.receivedCR then
      if ch == '\n' then (Resolve(c), false) else (c.(status := INVALID), false)
    else if ch == ' ' then
      (c.(status := AfterSpace(c.status)), AfterSpace(c.status) == INVALID)
    else if ch == '\r' then (c.(receivedCR := true), c.status == INVALID)
    else if |Field(c)| >= MaxSize(c.status) || !IsPrintable(ch) then (c.(status := INVALID), false)
    else (Append(c, ch), c.status == INVALID)
  }

  function Feed1(c: Cmd, lenient: bool, ch: char): (Cmd, bool) {
    if Writing(c.status) || lenient then Write(c, ch) else (Discard(c, ch), false)
  }

  /** The command list and whether the last line is past its third space in this chunk. */
  datatype ParseState = ParseState(list: seq<Cmd>, lenient: bool)

  predicate NeedsNode(list: seq<Cmd>) { list == [] || Done(list[|list| - 1]) }

  function Feed(p: ParseState, ch: char): ParseState {
    if NeedsNode(p.list) then
      var (c, l) := Feed1(NEWCMD, false, ch);
      ParseState(p.list + [c], l)
    else
      var (c, l) := Feed1(p.list[|p.list| - 1], p.lenient, ch);
      ParseState(p.list[..|p.list| - 1] + [c], l)
  }

  function FeedMany(p: ParseState, s: string): ParseState
    decreases |s|
  {
    if s == "" then p else FeedMany(Feed(p, s[0]), s[1..])
  }

  /** One received chunk. */
  function Chunk(list: seq<Cmd>, s: string): seq<Cmd> { FeedMany(ParseState(list, false), s).list }

  function Chunks(list: seq<Cmd>, chunks: seq<string>): seq<Cmd>
    decreases |chunks|
  {
    if chunks == [] then list else Chunks(Chunk(list, chunks[0]), chunks[1..])
  }

  function Joined(chunks: seq<string>): string
    decreases |chunks|
  {
    if chunks == [] then "" else chunks[0] + Joined(chunks[1..])
  }

  lemma {:induction false} FeedManySplit(p: ParseState, a: string, b: string)
    ensures FeedMany(p, a + b) == FeedMany(FeedMany(p, a), b)
    decreases |a|
  {
    if a == "" {
      assert a + b == b;
    } else {
      assert (a + b)[1..] == a[1..] + b;
      FeedManySplit(Feed(p, a[0]), a[1..], b);
    }
  }

  // -------------------------------------------------------- the queue shape

  ghost predicate CmdOk(c: Cmd) {
    |c.command| <= MAXCOMMANDSIZE && |c.arg1| <= MAXARGSIZE && |c.arg2| <= MAXARGSIZE &&
    (forall i :: 0 <= i < |c.command| ==> IsPrintable(c.command[i])) &&
    (forall i :: 0 <= i < |c.arg1| ==> IsPrintable(c.arg1[i])) &&
    (forall i :: 0 <= i < |c.arg2| ==> IsPrintable(c.arg2[i])) &&
    (c.status == COMPLETE ==> c.callback == Lookup(c.command) && c.callback.Some?) &&
    (c.status != COMPLETE ==> c.callback == None)
  }

  /** Only the last command may be unfinished; texts fit their buffers; a
      command is COMPLETE exactly with its handler. */
  ghost predicate ListOk(list: seq<Cmd>) {
    (forall i :: 0 <= i < |list| ==> CmdOk(list[i])) &&
    (forall i :: 0 <= i < |list| - 1 ==> Done(list[i]))
  }

  ghost predicate ParseOk(p: ParseState) {
    ListOk(p.list) && (p.lenient ==> p.list != [] && p.list[|p.list| - 1].status == INVALID)
  }

  lemma {:induction false} Feed1Keeps(c: Cmd, lenient: bool, ch: char)
    requires CmdOk(c) && !Done(c) && (lenient ==> c.status == INVALID)
    ensures var (d, l) := Feed1(c, lenient, ch); CmdOk(d) && (l ==> d.status == INVALID)
  {}

  lemma {:induction false} FeedKeeps(p: ParseState, ch: char)
    requires ParseOk(p)
    ensures ParseOk(Feed(p, ch))
  {
    Feed1Keeps(NEWCMD, false, ch);
    if !NeedsNode(p.list) {
      Feed1Keeps(p.list[|p.list| - 1], p.lenient, ch);
    }
  }

  lemma {:induction false} FeedManyKeeps(p: ParseState, s: string)
    requires ParseOk(p)
    ensures ParseOk(FeedMany(p, s))
    decreases |s|
  {
    if s != "" {
      FeedKeeps(p, s[0]);
      FeedManyKeeps(Feed(p, s[0]), s[1..]);
    }
  }

  lemma {:induction false} LenientIsInvalid(p: ParseState, s: string)
    requires p.lenient ==> p.list != [] && p.list[|p.list| - 1].status == INVALID
    ensures var q := FeedMany(p, s); q.lenient ==> q.list != [] && q.list[|q.list| - 1].status == INVALID
    decreases |s|
  {
    if s != "" { LenientIsInvalid(Feed(p, s[0]), s[1..]); }
  }

  /** Commands in front of the last one are not touched: taking finished ones
      away commutes with receiving more. */
  lemma {:induction false} FeedBehind(front: seq<Cmd>, p: ParseState, s: string)
    requires p.list != [] || NeedsNode(front)
    ensures FeedMany(ParseState(front + p.list, p.lenient), s)
         == ParseState(front + FeedMany(p, s).list, FeedMany(p, s).lenient)
    ensures p.list != [] ==> FeedMany(p, s).list != []
    decreases |s|
  {
    if s != "" {
      var whole := ParseState(front + p.list, p.lenient);
      var next := Feed(p, s[0]);
      if p.list == [] {
        assert front + p.list == front;
      } else {
        assert whole.list[..|whole.list| - 1] == front + p.list[..|p.list| - 1];
      }
      assert Feed(whole, s[0]) == ParseState(front + next.list, next.lenient) by {
        assert Feed(whole, s[0]).list == front + next.list;
      }
      FeedBehind(front, next, s[1..]);
    }
  }

  // ------------------------------------------------ where a cut does no harm

  lemma {:induction false} FeedOne(p: ParseState, a: char)
    ensures FeedMany(p, [a]) == Feed(p, a)
  {
    assert [a][1..] == "";
  }

  lemma {:induction false} FeedTwo(p: ParseState, a: char, b: char)
    ensures FeedMany(p, [a, b]) == Feed(Feed(p, a), b)
  {
    assert [a, b][1..] == [b];
    FeedOne(Feed(p, a), b);
  }

  lemma {:induction false} FeedLast(list: seq<Cmd>, c: Cmd, lenient: bool, ch: char)
    requires !Done(c)
    ensures Feed(ParseState(list + [c], lenient), ch)
         == ParseState(list + [Feed1(c, lenient, ch).0], Feed1(c, lenient, ch).1)
  {
    assert (list + [c])[..|list|] == list;
  }

  lemma {:induction false} CutHarmless(list: seq<Cmd>, a: string, b: string)
    requires !FeedMany(ParseState(list, false), a).lenient
    ensures Chunk(Chunk(list, a), b) == Chunk(list, a + b)
  {
    FeedManySplit(ParseState(list, false), a, b);
  }

  lemma {:induction false} ModeShows(front: seq<Cmd>, c: Cmd)
    requires c.status == INVALID && c.receivedCR
    ensures FeedMany(ParseState(front + [c], true), "X").list != FeedMany(ParseState(front + [c], false), "X").list
  {
    FeedOne(ParseState(front + [c], true), 'X');
    FeedOne(ParseState(front + [c], false), 'X');
    FeedLast(front, c, true, 'X');
    FeedLast(front, c, false, 'X');
    assert (front + [Feed1(c, true, 'X').0])[|front|].receivedCR;
    assert !(front + [Feed1(c, false, 'X').0])[|front|].receivedCR;
  }

  /** A continuation that tells the two apart: a CR that no LF follows. */
  lemma {:induction false} CutHarms(list: seq<Cmd>, a: string) returns (b: string)
    requires FeedMany(ParseState(list, false), a).lenient
    ensures Chunk(Chunk(list, a), b) != Chunk(list, a + b)
  {
    var q := FeedMany(ParseState(list, false), a);
    LenientIsInvalid(ParseState(list, false), a);
    var front, c := q.list[..|q.list| - 1], q.list[|q.list| - 1];
    assert q.list == front + [c];
    b := if c.receivedCR then "X" else "\r" + "X";
    FeedManySplit(ParseState(list, false), a, b);
    var d := c.(receivedCR := true);
    ModeShows(front, d);
    if !c.receivedCR {
      FeedManySplit(q, "\r", "X");
      FeedManySplit(ParseState(q.list, false), "\r", "X");
      FeedOne(q, '\r');
      FeedOne(ParseState(q.list, false), '\r');
      FeedLast(front, c, true, '\r');
      FeedLast(front, c, false, '\r');
    }
  }

  /** Cutting the stream after `a` is invisible for every continuation exactly
      when the line is not past a third space received in the same chunk. */
  lemma {:induction false} CutIsHarmless(list: seq<Cmd>, a: string)
    ensures (forall b :: Chunk(Chunk(list, a), b) == Chunk(list, a + b))
       <==> !FeedMany(ParseState(list, false), a).lenient
  {
    if FeedMany(ParseState(list, false), a).lenient {
      var b := CutHarms(list, a);
    } else {
      forall b ensures Chunk(Chunk(list, a), b) == Chunk(list, a + b) {
        CutHarmless(list, a, b);
      }
    }
  }

  /** At most two spaces between consecutive LFs, `k` having been seen on the current line. */
  predicate TwoSpacesAtMost(k: nat, s: string)
    decreases |s|
  {
    s == "" ||
    (if s[0] == ' ' then k < 2 && TwoSpacesAtMost(k + 1, s[1..])
     else if s[0] == '\n' then TwoSpacesAtMost(0, s[1..])
     else TwoSpacesAtMost(k, s[1..]))
  }

  /** Spaces that the unfinished line has already taken. */
  function SpacesTaken(list: seq<Cmd>): nat {
    if list == [] then 0
    else match list[|list| - 1].status
         case WRITINGARG1 => 1
         case WRITINGARG2 => 2
         case _ => 0
  }

  lemma {:induction false} NeverLenient(p: ParseState, k: nat, s: string)
    requires !p.lenient && SpacesTaken(p.list) <= k && TwoSpacesAtMost(k, s)
    ensures !FeedMany(p, s).lenient
    decreases |s|
  {
    if s != "" {
      var q := Feed(p, s[0]);
      assert s[0] != '\n' && s[0] != ' ' ==> SpacesTaken(q.list) <= SpacesTaken(p.list);
      NeverLenient(q, if s[0] == ' ' then k + 1 else if s[0] == '\n' then 0 else k, s[1..]);
    }
  }

  lemma {:induction false} SpacesPrefix(k: nat, a: string, b: string)
    requires TwoSpacesAtMost(k, a + b)
    ensures TwoSpacesAtMost(k, a)
    decreases |a|
  {
    if a != "" {
      assert (a + b)[1..] == a[1..] + b;
      SpacesPrefix(if a[0] == ' ' then k + 1 else if a[0] == '\n' then 0 else k, a[1..], b);
    }
  }

  lemma {:induction false} ChunksAre(p: ParseState, k: nat, chunks: seq<string>)
    requires !p.lenient && SpacesTaken(p.list) <= k && TwoSpacesAtMost(k, Joined(chunks))
    ensures Chunks(p.list, chunks) == FeedMany(p, Joined(chunks)).list
    decreases |chunks|
  {
    if chunks != [] {
      var a, rest := chunks[0], Joined(chunks[1..]);
      SpacesPrefix(k, a, rest);
      NeverLenient(p, k, a);
      FeedManySplit(p, a, rest);
      var k1 := SpacesAfter(p, k, a, rest);
      ChunksAre(FeedMany(p, a), k1, chunks[1..]);
    }
  }

  lemma {:induction false} SpacesAfter(p: ParseState, k: nat, a: string, b: string) returns (k1: nat)
    requires !p.lenient && SpacesTaken(p.list) <= k && TwoSpacesAtMost(k, a + b)
    ensures SpacesTaken(FeedMany(p, a).list) <= k1 && TwoSpacesAtMost(k1, b)
    decreases |a|
  {
    if a == "" {
      assert a + b == b;
      k1 := k;
    } else {
      assert (a + b)[1..] == a[1..] + b;
      assert (a + b)[0] == a[0];
      var q := Feed(p, a[0]);
      assert a[0] != '\n' && a[0] != ' ' ==> SpacesTaken(q.list) <= SpacesTaken(p.list);
      k1 := SpacesAfter(q, if a[0] == ' ' then k + 1 else if a[0] == '\n' then 0 else k, a[1..], b);
    }
  }

  /** Segmentation independence: with at most two spaces between consecutive
      LFs, any cutting of the stream leaves the same list as no cutting. */
  lemma {:induction false} SegmentationIndependent(chunks: seq<string>)
    requires TwoSpacesAtMost(0, Joined(chunks))
    ensures Chunks([], chunks) == Chunk([], Joined(chunks))
  {
    ChunksAre(ParseState([], false), 0, chunks);
  }

  // ---------------------------------------------------------- round trip

  datatype Line = Line(name: string, args: seq<string>)

  predicate Word(w: string, max: nat) {
    |w| <= max && forall i :: 0 <= i < |w| ==> '!' <= w[i] <= '~'
  }

  predicate WellFormed(l: Line) {
    Word(l.name, 4) && |l.args| <= 2 && forall i :: 0 <= i < |l.args| ==> Word(l.args[i], 40)
  }

  function Arg(l: Line, i: nat): string { if i < |l.args| then l.args[i] else "" }

  function RenderArgs(args: seq<string>): string
    decreases |args|
  {
    if args == [] then "\r\n" else " " + (args[0] + RenderArgs(args[1..]))
  }

  function Render(l: Line): string { l.name + RenderArgs(l.args) }

  function RenderAll(lines: seq<Line>): string
    decreases |lines|
  {
    if lines == [] then "" else Render(lines[0]) + RenderAll(lines[1..])
  }

  /** The node a rendered line becomes. */
  function Parsed(l: Line): Cmd {
    Resolve(Cmd(l.name, Arg(l, 0), Arg(l, 1), None, WRITINGCOMMAND, true)).
      (status := if Lookup(l.name).Some? then COMPLETE else COMPLETEINVALID)
  }

  function AppendAll(c: Cmd, w: string): Cmd {
    match c.status
    case WRITINGCOMMAND => c.(command := c.command + w)
    case WRITINGARG1 => c.(arg1 := c.arg1 + w)
    case _ => c.(arg2 := c.arg2 + w)
  }

  lemma {:induction false} AppendFirst(c: Cmd, w: string)
    requires w != ""
    ensures AppendAll(Append(c, w[0]), w[1..]) == AppendAll(c, w)
    ensures |Field(Append(c, w[0]))| == |Field(c)| + 1
  {
    assert Field(c) + w == Field(c) + [w[0]] + w[1..];
  }

  lemma {:induction false} FeedWord(list: seq<Cmd>, c: Cmd, w: string)
    requires Writing(c.status) && !c.receivedCR && Word(w, MaxSize(c.status)) && |Field(c)| + |w| <= MaxSize(c.status)
    ensures FeedMany(ParseState(list + [c], false), w) == ParseState(list + [AppendAll(c, w)], false)
    decreases |w|
  {
    if w == "" {
      assert AppendAll(c, w) == c;
    } else {
      assert Write(c, w[0]) == (Append(c, w[0]), false);
      FeedLast(list, c, false, w[0]);
      AppendFirst(c, w);
      FeedWord(list, Append(c, w[0]), w[1..]);
    }
  }

  function Rank(s: Status): nat {
    match s case WRITINGCOMMAND => 0 case WRITINGARG1 => 1 case _ => 2
  }

  /** The command `c` with `args` written after the argument it is writing. */
  function WithArgs(c: Cmd, args: seq<string>): Cmd
    decreases |args|
  {
    if args == [] then c
    else WithArgs(AppendAll(c.(status := AfterSpace(c.status)), args[0]), args[1..])
  }

  lemma {:induction false} FeedArgs(list: seq<Cmd>, c: Cmd, args: seq<string>)
    requires Writing(c.status) && !c.receivedCR && c.callback == None && Rank(c.status) + |args| <= 2
    requires (Rank(c.status) < 1 ==> c.arg1 == "") && (Rank(c.status) < 2 ==> c.arg2 == "")
    requires forall i :: 0 <= i < |args| ==> Word(args[i], MAXARGSIZE)
    ensures FeedMany(ParseState(list + [c], false), RenderArgs(args))
         == ParseState(list + [Resolve(WithArgs(c, args).(receivedCR := true))], false)
    decreases |args|
  {
    if args == [] {
      var d := c.(receivedCR := true);
      FeedLast(list, c, false, '\r');
      FeedLast(list, d, false, '\n');
      FeedTwo(ParseState(list + [c], false), '\r', '\n');
    } else {
      var d := c.(status := AfterSpace(c.status));
      var rest := args[0] + RenderArgs(args[1..]);
      FeedLast(list, c, false, ' ');
      assert RenderArgs(args)[1..] == rest && RenderArgs(args)[0] == ' ';
      FeedManySplit(ParseState(list + [d], false), args[0], RenderArgs(args[1..]));
      FeedWord(list, d, args[0]);
      FeedArgs(list, AppendAll(d, args[0]), args[1..]);
    }
  }

  lemma {:induction false} WithArgsAre(c: Cmd, args: seq<string>)
    requires c.status == WRITINGCOMMAND && c.arg1 == "" && c.arg2 == "" && |args| <= 2
    ensures var d := WithArgs(c, args);
            d == Cmd(c.command, if |args| >= 1 then args[0] else "", if |args| == 2 then args[1] else "",
                     c.callback, d.status, c.receivedCR) && !Done(d)
  {
    if |args| >= 1 {
      assert "" + args[0] == args[0];
      var d := AppendAll(c.(status := WRITINGARG1), args[0]);
      if |args| == 2 {
        assert "" + args[1] == args[1] && args[1..][0] == args[1] && args[1..][1..] == [];
        assert WithArgs(d, args[1..]) == WithArgs(AppendAll(d.(status := WRITINGARG2), args[1]), []);
      } else {
        assert args[1..] == [];
      }
    }
  }

  lemma {:induction false} FeedLine(list: seq<Cmd>, l: Line)
    requires NeedsNode(list) && WellFormed(l)
    ensures FeedMany(ParseState(list, false), Render(l)) == ParseState(list + [Parsed(l)], false)
  {
    var c := NEWCMD.(command := l.name);
    FeedOpens(list, Render(l));
    FeedManySplit(ParseState(list + [NEWCMD], false), l.name, RenderArgs(l.args));
    FeedWord(list, NEWCMD, l.name);
    assert AppendAll(NEWCMD, l.name) == c by { assert "" + l.name == l.name; }
    FeedArgs(list, c, l.args);
    WithArgsAre(c, l.args);
  }

  /** The first character opens the node: as good as feeding an empty one. */
  lemma {:induction false} FeedOpens(list: seq<Cmd>, s: string)
    requires NeedsNode(list) && s != ""
    ensures FeedMany(ParseState(list, false), s) == FeedMany(ParseState(list + [NEWCMD], false), s)
  {
    FeedLast(list, NEWCMD, false, s[0]);
  }

  lemma {:induction false} NodesSplit(list: seq<Cmd>, lines: seq<Line>)
    requires lines != []
    ensures list + seq(|lines|, i requires 0 <= i < |lines| => Parsed(lines[i])) ==
            list + [Parsed(lines[0])] + seq(|lines| - 1, i requires 0 <= i < |lines| - 1 => Parsed(lines[1..][i]))
  {}

  lemma {:induction false} FeedLines(list: seq<Cmd>, lines: seq<Line>)
    requires NeedsNode(list) && forall i :: 0 <= i < |lines| ==> WellFormed(lines[i])
    ensures FeedMany(ParseState(list, false), RenderAll(lines))
         == ParseState(list + seq(|lines|, i requires 0 <= i < |lines| => Parsed(lines[i])), false)
    decreases |lines|
  {
    var nodes := seq(|lines|, i requires 0 <= i < |lines| => Parsed(lines[i]));
    if lines == [] {
      assert list + nodes == list;
    } else {
      var rest := seq(|lines| - 1, i requires 0 <= i < |lines| - 1 => Parsed(lines[1..][i]));
      FeedLine(list, lines[0]);
      FeedManySplit(ParseState(list, false), Render(lines[0]), RenderAll(lines[1..]));
      FeedLines(list + [Parsed(lines[0])], lines[1..]);
      NodesSplit(list, lines);
    }
  }

  lemma {:induction false} WordHasNoSpace(k: nat, w: string, b: string)
    requires Word(w, |w|)
    ensures TwoSpacesAtMost(k, w + b) == TwoSpacesAtMost(k, b)
    decreases |w|
  {
    if w == "" {
      assert w + b == b;
    } else {
      assert (w + b)[1..] == w[1..] + b && (w + b)[0] == w[0];
      WordHasNoSpace(k, w[1..], b);
    }
  }

  lemma {:induction false} ArgsSpaces(k: nat, args: seq<string>, rest: string)
    requires k + |args| <= 2 && TwoSpacesAtMost(0, rest)
    requires forall i :: 0 <= i < |args| ==> Word(args[i], MAXARGSIZE)
    ensures TwoSpacesAtMost(k, RenderArgs(args) + rest)
    decreases |args|
  {
    var s := RenderArgs(args) + rest;
    if args == [] {
      assert s[1..] == "\n" + rest && s[1..][1..] == rest;
    } else {
      assert s[1..] == args[0] + (RenderArgs(args[1..]) + rest);
      ArgsSpaces(k + 1, args[1..], rest);
      WordHasNoSpace(k + 1, args[0], RenderArgs(args[1..]) + rest);
    }
  }

  lemma {:induction false} RenderedSpaces(lines: seq<Line>)
    requires forall i :: 0 <= i < |lines| ==> WellFormed(lines[i])
    ensures TwoSpacesAtMost(0, RenderAll(lines))
    decreases |lines|
  {
    if lines != [] {
      var l, rest := lines[0], RenderAll(lines[1..]);
      RenderedSpaces(lines[1..]);
      ArgsSpaces(0, l.args, rest);
      WordHasNoSpace(0, l.name, RenderArgs(l.args) + rest);
      assert RenderAll(lines) == l.name + (RenderArgs(l.args) + rest);
    }
  }

  // ------------------------------------- rendered lines are valid all along

  /** The last line is an invalid one that has not ended. */
  predicate EndsInvalid(list: seq<Cmd>) { list != [] && list[|list| - 1].status == INVALID }

  /** No line is found invalid on the way through `s`. */
  predicate StaysValid(p: ParseState, s: string)
    decreases |s|
  {
    !EndsInvalid(p.list) && (s == "" || StaysValid(Feed(p, s[0]), s[1..]))
  }

  lemma {:induction false} StaysValidJoin(p: ParseState, a: string, b: string)
    requires StaysValid(p, a) && StaysValid(FeedMany(p, a), b)
    ensures StaysValid(p, a + b)
    decreases |a|
  {
    if a == "" {
      assert a + b == b;
    } else {
      assert (a + b)[1..] == a[1..] + b;
      StaysValidJoin(Feed(p, a[0]), a[1..], b);
    }
  }

  lemma {:induction false} ValidBefore(p: ParseState, a: string, b: string)
    requires StaysValid(p, a + b)
    ensures !EndsInvalid(FeedMany(p, a).list)
    decreases |a|
  {
    if a != "" {
      assert (a + b)[1..] == a[1..] + b && (a + b)[0] == a[0];
      ValidBefore(Feed(p, a[0]), a[1..], b);
    }
  }

  lemma {:induction false} LastIs(list: seq<Cmd>, c: Cmd)
    ensures EndsInvalid(list + [c]) <==> c.status == INVALID
  {}

  lemma {:induction false} WordStaysValid(list: seq<Cmd>, c: Cmd, w: string)
    requires Writing(c.status) && !c.receivedCR && Word(w, MaxSize(c.status)) && |Field(c)| + |w| <= MaxSize(c.status)
    ensures StaysValid(ParseState(list + [c], false), w)
    decreases |w|
  {
    LastIs(list, c);
    if w != "" {
      assert Write(c, w[0]) == (Append(c, w[0]), false);
      FeedLast(list, c, false, w[0]);
      AppendFirst(c, w);
      WordStaysValid(list, Append(c, w[0]), w[1..]);
    }
  }

  lemma {:induction false} EndStaysValid(list: seq<Cmd>, c: Cmd)
    requires Writing(c.status) && !c.receivedCR
    ensures StaysValid(ParseState(list + [c], false), "\r\n")
  {
    var d := c.(receivedCR := true);
    FeedLast(list, c, false, '\r');
    FeedLast(list, d, false, '\n');
    LastIs(list, c);
    LastIs(list, d);
    LastIs(list, Resolve(d.(status := COMPLETE)));
    assert "\r\n"[1..] == "\n" && "\n"[1..] == "";
  }

  lemma {:induction false} ArgsStayValid(list: seq<Cmd>, c: Cmd, args: seq<string>)
    requires Writing(c.status) && !c.receivedCR && c.callback == None && Rank(c.status) + |args| <= 2
    requires (Rank(c.status) < 1 ==> c.arg1 == "") && (Rank(c.status) < 2 ==> c.arg2 == "")
    requires forall i :: 0 <= i < |args| ==> Word(args[i], MAXARGSIZE)
    ensures StaysValid(ParseState(list + [c], false), RenderArgs(args))
    decreases |args|
  {
    if args == [] {
      EndStaysValid(list, c);
    } else {
      var d := c.(status := AfterSpace(c.status));
      var rest := args[0] + RenderArgs(args[1..]);
      LastIs(list, c);
      FeedLast(list, c, false, ' ');
      assert RenderArgs(args)[1..] == rest && RenderArgs(args)[0] == ' ';
      WordStaysValid(list, d, args[0]);
      FeedWord(list, d, args[0]);
      ArgsStayValid(list, AppendAll(d, args[0]), args[1..]);
      StaysValidJoin(ParseState(list + [d], false), args[0], RenderArgs(args[1..]));
    }
  }

  lemma {:induction false} LineStaysValid(list: seq<Cmd>, l: Line)
    requires NeedsNode(list) && WellFormed(l)
    ensures StaysValid(ParseState(list, false), Render(l))
  {
    var c := NEWCMD.(command := l.name);
    var p := ParseState(list + [NEWCMD], false);
    WordStaysValid(list, NEWCMD, l.name);
    FeedWord(list, NEWCMD, l.name);
    assert AppendAll(NEWCMD, l.name) == c by { assert "" + l.name == l.name; }
    ArgsStayValid(list, c, l.args);
    StaysValidJoin(p, l.name, RenderArgs(l.args));
    OpensValid(list, Render(l));
  }

  lemma {:induction false} OpensValid(list: seq<Cmd>, s: string)
    requires NeedsNode(list) && s != "" && StaysValid(ParseState(list + [NEWCMD], false), s)
    ensures StaysValid(ParseState(list, false), s)
  {
    FeedLast(list, NEWCMD, false, s[0]);
  }

  /** Wherever the stream of rendered commands is cut, no invalid line is open. */
  lemma {:induction false} LinesStayValid(list: seq<Cmd>, lines: seq<Line>)
    requires NeedsNode(list) && forall i :: 0 <= i < |lines| ==> WellFormed(lines[i])
    ensures StaysValid(ParseState(list, false), RenderAll(lines))
    decreases |lines|
  {
    if lines != [] {
      LineStaysValid(list, lines[0]);
      FeedLine(list, lines[0]);
      LinesStayValid(list + [Parsed(lines[0])], lines[1..]);
      StaysValidJoin(ParseState(list, false), Render(lines[0]), RenderAll(lines[1..]));
    }
  }

  // ----------------------------------------------------------- dequeuing

  datatype ToExecute = ToExecute(command: string, arg1: string, arg2: string, callback: Option<Verb>)

  predicate Available(list: seq<Cmd>) { list != [] && Done(list[0]) }

  /** Taking the first command leaves a list as it should be. */
  lemma {:induction false} TailOk(list: seq<Cmd>)
    requires ListOk(list) && Available(list)
    ensures ListOk(list[1..]) && list == [list[0]] + list[1..]
  {
    forall i | 0 <= i < |list[1..]| ensures CmdOk(list[1..][i]) { assert list[1..][i] == list[i + 1]; }
    forall i | 0 <= i < |list[1..]| - 1 ensures Done(list[1..][i]) { assert list[1..][i] == list[i + 1]; }
  }

  function Taken(c: Cmd): ToExecute { ToExecute(c.command, c.arg1, c.arg2, c.callback) }

  /** Calling getFirstCommand until it gives nothing. */
  function TakeAll(list: seq<Cmd>): seq<ToExecute>
    decreases |list|
  {
    if !Available(list) then [] else [Taken(list[0])] + TakeAll(list[1..])
  }

  lemma {:induction false} TakeAllDone(list: seq<Cmd>)
    requires forall i :: 0 <= i < |list| ==> Done(list[i])
    ensures TakeAll(list) == seq(|list|, i requires 0 <= i < |list| => Taken(list[i]))
    decreases |list|
  {
    if list != [] {
      TakeAllDone(list[1..]);
    }
  }

  /** Pipelining round trip: rendered commands, received in any chunks, are
      dequeued as exactly those names and arguments in order; the handler is the
      one of the name, and is absent exactly for names that spell no keyword. */
  lemma {:induction false} PipelineRoundTrip(lines: seq<Line>, chunks: seq<string>)
    requires forall i :: 0 <= i < |lines| ==> WellFormed(lines[i])
    requires Joined(chunks) == RenderAll(lines)
    ensures var got := TakeAll(Chunks([], chunks));
            |got| == |lines| &&
            forall i :: 0 <= i < |lines| ==>
              got[i] == ToExecute(lines[i].name, Arg(lines[i], 0), Arg(lines[i], 1), Lookup(lines[i].name)) &&
              (got[i].callback == None <==> forall v :: !SameIgnoringCase(Keyword(v), lines[i].name))
  {
    AllParsed(lines, chunks);
    TakeAllDone(Chunks([], chunks));
    forall i | 0 <= i < |lines|
      ensures Lookup(lines[i].name) == None <==> forall v :: !SameIgnoringCase(Keyword(v), lines[i].name)
    {
      AbsentHandler(lines[i].name);
    }
  }

  /** The list that rendered commands become, however they are cut. */
  lemma {:induction false} AllParsed(lines: seq<Line>, chunks: seq<string>)
    requires forall i :: 0 <= i < |lines| ==> WellFormed(lines[i])
    requires Joined(chunks) == RenderAll(lines)
    ensures Chunks([], chunks) == seq(|lines|, i requires 0 <= i < |lines| => Parsed(lines[i]))
  {
    RenderedSpaces(lines);
    SegmentationIndependent(chunks);
    FeedLines([], lines);
    var nodes := seq(|lines|, i requires 0 <= i < |lines| => Parsed(lines[i]));
    assert [] + nodes == nodes;
  }

  lemma {:induction false} AbsentHandler(name: string)
    ensures Lookup(name) == None <==> forall v :: !SameIgnoringCase(Keyword(v), name)
  {
    forall v ensures Lookup(name) == Some(v) <==> SameIgnoringCase(Keyword(v), name) {
      LookupFinds(name, v);
    }
  }
}
