// What every line becomes, well formed or not: the converse of the round trip.

module LineSyntax {
  import opened Standards
  import opened Commands
  import opened CommandSyntax

  predicate Plain(t: string) { forall i :: 0 <= i < |t| ==> t[i] != '\r' && t[i] != '\n' && t[i] != NUL }

  // ------------------------------------------------- a text as words

  predicate RawWord(w: string) { Plain(w) && forall i :: 0 <= i < |w| ==> w[i] != ' ' }

  predicate RawLine(l: Line) {
    RawWord(l.name) && |l.args| <= 2 && forall i :: 0 <= i < |l.args| ==> RawWord(l.args[i])
  }

  lemma {:induction false} SplitFrom(k: nat, t: string) returns (w: string, args: seq<string>)
    requires Plain(t) && k <= 2 && TwoSpacesAtMost(k, t)
    ensures RawWord(w) && |args| <= 2 - k && forall i :: 0 <= i < |args| ==> RawWord(args[i])
    ensures w + RenderArgs(args) == t + "\r\n"
    decreases |t|
  {
    if t == "" {
      w, args := "", [];
      assert "" + "\r\n" == "\r\n";
    } else {
      var c, rest := t[0], t[1..];
      assert t + "\r\n" == [c] + (rest + "\r\n");
      if c == ' ' {
        var v, more := SplitFrom(k + 1, rest);
        w, args := "", [v] + more;
        assert args[1..] == more;
        assert "" + RenderArgs(args) == " " + (v + RenderArgs(more));
      } else {
        var v;
        v, args := SplitFrom(k, rest);
        w := [c] + v;
        assert w + RenderArgs(args) == [c] + (v + RenderArgs(args));
      }
    }
  }

  /** A text with at most two spaces is a name and arguments, as they are. */
  lemma {:induction false} SplitText(t: string) returns (l: Line)
    requires Plain(t) && TwoSpacesAtMost(0, t)
    ensures RawLine(l) && Render(l) == t + "\r\n"
  {
    var w, args := SplitFrom(0, t);
    l := Line(w, args);
  }

  lemma {:induction false} WordUnique(v: string, a: seq<string>, w: string, b: seq<string>)
    requires RawWord(v) && RawWord(w) && v + RenderArgs(a) == w + RenderArgs(b)
    ensures v == w && RenderArgs(a) == RenderArgs(b)
    decreases |v|
  {
    var s, t := v + RenderArgs(a), w + RenderArgs(b);
    assert s[0] == (if v == "" then RenderArgs(a)[0] else v[0]);
    assert t[0] == (if w == "" then RenderArgs(b)[0] else w[0]);
    if v == "" {
      assert w == "" && s == RenderArgs(a) && t == RenderArgs(b);
    } else {
      assert w != "";
      assert s[1..] == v[1..] + RenderArgs(a) && t[1..] == w[1..] + RenderArgs(b);
      WordUnique(v[1..], a, w[1..], b);
      assert v == [v[0]] + v[1..] && w == [w[0]] + w[1..];
    }
  }

  lemma {:induction false} ArgsUnique(a: seq<string>, b: seq<string>)
    requires (forall i :: 0 <= i < |a| ==> RawWord(a[i])) && (forall i :: 0 <= i < |b| ==> RawWord(b[i]))
    requires RenderArgs(a) == RenderArgs(b)
    ensures a == b
    decreases |a|
  {
    assert RenderArgs(a)[0] == if a == [] then '\r' else ' ';
    assert RenderArgs(b)[0] == if b == [] then '\r' else ' ';
    if a != [] {
      assert RenderArgs(a)[1..] == a[0] + RenderArgs(a[1..]) && RenderArgs(b)[1..] == b[0] + RenderArgs(b[1..]);
      WordUnique(a[0], a[1..], b[0], b[1..]);
      ArgsUnique(a[1..], b[1..]);
      assert a == [a[0]] + a[1..] && b == [b[0]] + b[1..];
    }
  }

  lemma {:induction false} LineUnique(l: Line, m: Line)
    requires RawLine(l) && RawLine(m) && Render(l) == Render(m)
    ensures l == m
  {
    WordUnique(l.name, l.args, m.name, m.args);
    ArgsUnique(l.args, m.args);
  }

  lemma {:induction false} WellFormedIsRaw(l: Line)
    requires WellFormed(l)
    ensures RawLine(l)
  {}

  /** One character of the only line. */
  lemma {:induction false} NodeStep(c: Cmd, lenient: bool, s: string)
    requires !Done(c) && s != ""
    ensures var (c1, l1) := Feed1(c, lenient, s[0]);
            FeedMany(ParseState([c], lenient), s) == FeedMany(ParseState([c1], l1), s[1..])
  {
    assert [] + [c] == [c] && [] + [Feed1(c, lenient, s[0]).0] == [Feed1(c, lenient, s[0]).0];
    FeedLast([], c, lenient, s[0]);
  }

  // --------------------------------------------------- lines that are refused

  predicate Visible(w: string) { forall i :: 0 <= i < |w| ==> '!' <= w[i] <= '~' }

  predicate Refused(d: Cmd) { d.status == INVALID && !d.receivedCR && d.callback == None }

  /** A character too many, or one that is not printable, makes the line invalid. */
  lemma {:induction false} BadWord(list: seq<Cmd>, c: Cmd, w: string) returns (d: Cmd)
    requires Writing(c.status) && !c.receivedCR && c.callback == None && RawWord(w)
    requires !Visible(w) || |Field(c)| + |w| > MaxSize(c.status)
    requires |Field(c)| <= MaxSize(c.status)
    ensures Refused(d) && FeedMany(ParseState(list + [c], false), w) == ParseState(list + [d], false)
    decreases |w|
  {
    FeedLast(list, c, false, w[0]);
    if |Field(c)| >= MaxSize(c.status) || !IsPrintable(w[0]) {
      d := c.(status := INVALID);
      DiscardAll(list, d, w[1..]);
    } else {
      AppendFirst(c, w);
      d := BadWord(list, Append(c, w[0]), w[1..]);
    }
  }

  lemma {:induction false} DiscardAll(list: seq<Cmd>, d: Cmd, s: string)
    requires Refused(d) && forall i :: 0 <= i < |s| ==> s[i] != '\r'
    ensures FeedMany(ParseState(list + [d], false), s) == ParseState(list + [d], false)
    decreases |s|
  {
    if s != "" {
      FeedLast(list, d, false, s[0]);
      DiscardAll(list, d, s[1..]);
    }
  }

  /** The rest of a refused line, up to its CRLF. */
  lemma {:induction false} DiscardToEnd(list: seq<Cmd>, d: Cmd, u: string)
    requires Refused(d) && Plain(u)
    ensures FeedMany(ParseState(list + [d], false), u + "\r\n") ==
            ParseState(list + [d.(receivedCR := true, status := COMPLETEINVALID)], false)
  {
    FeedManySplit(ParseState(list + [d], false), u, "\r\n");
    DiscardAll(list, d, u);
    FeedLast(list, d, false, '\r');
    FeedLast(list, d.(receivedCR := true), false, '\n');
    FeedTwo(ParseState(list + [d], false), '\r', '\n');
  }

  lemma {:induction false} ArgsPlain(args: seq<string>) returns (u: string)
    requires forall i :: 0 <= i < |args| ==> RawWord(args[i])
    ensures Plain(u) && RenderArgs(args) == u + "\r\n"
    decreases |args|
  {
    if args == [] {
      u := "";
      assert "" + "\r\n" == "\r\n";
    } else {
      var v := ArgsPlain(args[1..]);
      u := " " + args[0] + v;
      assert " " + (args[0] + (v + "\r\n")) == u + "\r\n";
    }
  }

  /** The node of a refused line that has ended. */
  predicate Ended(d: Cmd) { d.status == COMPLETEINVALID && d.callback == None }

  lemma {:induction false} BadArgs(list: seq<Cmd>, c: Cmd, args: seq<string>) returns (d: Cmd)
    requires Writing(c.status) && !c.receivedCR && c.callback == None && Rank(c.status) + |args| <= 2
    requires (Rank(c.status) < 1 ==> c.arg1 == "") && (Rank(c.status) < 2 ==> c.arg2 == "")
    requires forall i :: 0 <= i < |args| ==> RawWord(args[i])
    requires exists i :: 0 <= i < |args| && !Word(args[i], MAXARGSIZE)
    ensures Ended(d) && FeedMany(ParseState(list + [c], false), RenderArgs(args)) == ParseState(list + [d], false)
    decreases |args|
  {
    var e := c.(status := AfterSpace(c.status));
    var rest := args[0] + RenderArgs(args[1..]);
    FeedLast(list, c, false, ' ');
    assert RenderArgs(args)[1..] == rest && RenderArgs(args)[0] == ' ';
    FeedManySplit(ParseState(list + [e], false), args[0], RenderArgs(args[1..]));
    if Word(args[0], MAXARGSIZE) {
      FeedWord(list, e, args[0]);
      var i :| 0 <= i < |args| && !Word(args[i], MAXARGSIZE);
      assert args[1..][i - 1] == args[i];
      d := BadArgs(list, AppendAll(e, args[0]), args[1..]);
    } else {
      var f := BadWord(list, e, args[0]);
      var u := ArgsPlain(args[1..]);
      DiscardToEnd(list, f, u);
      d := f.(receivedCR := true, status := COMPLETEINVALID);
    }
  }

  /** A line that is not well formed. */
  lemma {:induction false} BadLine(l: Line) returns (d: Cmd)
    requires RawLine(l) && !WellFormed(l)
    ensures Ended(d) && FeedMany(ParseState([], false), Render(l)) == ParseState([d], false)
  {
    FeedOpens([], Render(l));
    assert [] + [NEWCMD] == [NEWCMD];
    FeedManySplit(ParseState([NEWCMD], false), l.name, RenderArgs(l.args));
    if Word(l.name, MAXCOMMANDSIZE) { d := BadLineArgs(l); } else { d := BadLineName(l); }
  }

  lemma {:induction false} BadLineArgs(l: Line) returns (d: Cmd)
    requires RawLine(l) && !WellFormed(l) && Word(l.name, MAXCOMMANDSIZE)
    ensures Ended(d)
    ensures FeedMany(FeedMany(ParseState([NEWCMD], false), l.name), RenderArgs(l.args)) == ParseState([d], false)
  {
    var c := NEWCMD.(command := l.name);
    FeedWord([], NEWCMD, l.name);
    assert AppendAll(NEWCMD, l.name) == c by { assert "" + l.name == l.name; }
    d := BadArgs([], c, l.args);
    assert [] + [c] == [c] && [] + [d] == [d] && [] + [NEWCMD] == [NEWCMD];
  }

  lemma {:induction false} BadLineName(l: Line) returns (d: Cmd)
    requires RawLine(l) && !Word(l.name, MAXCOMMANDSIZE)
    ensures Ended(d)
    ensures FeedMany(FeedMany(ParseState([NEWCMD], false), l.name), RenderArgs(l.args)) == ParseState([d], false)
  {
    var f := BadWord([], NEWCMD, l.name);
    var u := ArgsPlain(l.args);
    DiscardToEnd([], f, u);
    d := f.(receivedCR := true, status := COMPLETEINVALID);
    assert [] + [f] == [f] && [] + [d] == [d] && [] + [NEWCMD] == [NEWCMD];
  }

  // ------------------------------------------------------------- any line

  ghost predicate Spells(name: string) { exists v :: SameIgnoringCase(Keyword(v), name) }

  /** `t` is a command of the protocol: a keyword, at most two arguments, no word too long. */
  ghost predicate IsCommand(t: string) { exists l :: WellFormed(l) && Render(l) == t + "\r\n" && Spells(l.name) }

  /** What is dequeued for the line `t`: a handler exactly if it is a command,
      and then its name and its arguments. */
  ghost predicate Means(t: string, x: ToExecute) {
    (x.callback.Some? <==> IsCommand(t)) &&
    forall l :: WellFormed(l) && Render(l) == t + "\r\n" ==>
      x == ToExecute(l.name, Arg(l, 0), Arg(l, 1), Lookup(l.name))
  }

  /** A line that can be received whole or in pieces alike. */
  predicate OneLine(t: string) { Plain(t) && TwoSpacesAtMost(0, t) }

  /** Every line is one finished node, and it means what it should. */
  lemma {:induction false} AnyLine(t: string)
    requires OneLine(t)
    ensures var got := Chunk([], t + "\r\n");
            |got| == 1 && Done(got[0]) && Means(t, Taken(got[0])) &&
            (got[0].status == COMPLETE <==> got[0].callback.Some?)
  {
    var l := SplitText(t);
    if WellFormed(l) {
      FeedLine([], l);
      GoodLine(t, l);
    } else {
      var d := BadLine(l);
      NoGoodLine(t, l);
    }
  }

  lemma {:induction false} GoodLine(t: string, l: Line)
    requires WellFormed(l) && Render(l) == t + "\r\n"
    ensures Means(t, Taken(Parsed(l)))
  {
    AbsentHandler(l.name);
    forall m | WellFormed(m) && Render(m) == t + "\r\n" ensures m == l { LineUnique(l, m); }
  }

  lemma {:induction false} NoGoodLine(t: string, l: Line)
    requires RawLine(l) && !WellFormed(l) && Render(l) == t + "\r\n"
    ensures forall m :: WellFormed(m) ==> Render(m) != t + "\r\n"
  {
    forall m | WellFormed(m) ensures Render(m) != t + "\r\n" {
      if Render(m) == t + "\r\n" { LineUnique(l, m); }
    }
  }

  // -------------------------------------------------- any lines, any chunks

  function Wire(texts: seq<string>): string
    decreases |texts|
  {
    if texts == [] then "" else texts[0] + "\r\n" + Wire(texts[1..])
  }

  /** The nodes of lines, each as if it had come alone. */
  function NodesOf(texts: seq<string>): seq<Cmd>
    decreases |texts|
  {
    if texts == [] then [] else Chunk([], texts[0] + "\r\n") + NodesOf(texts[1..])
  }

  lemma {:induction false} NodesMean(texts: seq<string>)
    requires forall i :: 0 <= i < |texts| ==> OneLine(texts[i])
    ensures var nodes := NodesOf(texts);
            |nodes| == |texts| && forall i :: 0 <= i < |texts| ==> Done(nodes[i]) && Means(texts[i], Taken(nodes[i]))
    decreases |texts|
  {
    if texts != [] {
      AnyLine(texts[0]);
      NodesMean(texts[1..]);
    }
  }

  lemma {:induction false} PlainSpaces(k: nat, t: string, rest: string)
    requires Plain(t) && TwoSpacesAtMost(k, t) && TwoSpacesAtMost(0, rest)
    ensures TwoSpacesAtMost(k, t + "\r\n" + rest)
    decreases |t|
  {
    var s := t + "\r\n" + rest;
    if t == "" {
      assert s[0] == '\r' && s[1..] == "\n" + rest && s[1..][1..] == rest;
    } else {
      assert s[0] == t[0] && s[1..] == t[1..] + "\r\n" + rest;
      PlainSpaces(if t[0] == ' ' then k + 1 else k, t[1..], rest);
    }
  }

  lemma {:induction false} WireSpaces(texts: seq<string>)
    requires forall i :: 0 <= i < |texts| ==> OneLine(texts[i])
    ensures TwoSpacesAtMost(0, Wire(texts))
    decreases |texts|
  {
    if texts != [] {
      WireSpaces(texts[1..]);
      PlainSpaces(0, texts[0], Wire(texts[1..]));
    }
  }

  /** A line behind finished nodes is parsed as if it had come alone. */
  lemma {:induction false} LineBehind(list: seq<Cmd>, t: string)
    requires NeedsNode(list) && OneLine(t)
    ensures FeedMany(ParseState(list, false), t + "\r\n") == ParseState(list + Chunk([], t + "\r\n"), false)
  {
    FeedBehind(list, ParseState([], false), t + "\r\n");
    assert list + [] == list;
    PlainSpaces(0, t, "");
    assert t + "\r\n" + "" == t + "\r\n";
    NeverLenient(ParseState([], false), 0, t + "\r\n");
  }

  lemma {:induction false} OneBehind(list: seq<Cmd>, t: string)
    requires NeedsNode(list) && OneLine(t)
    ensures var next := list + Chunk([], t + "\r\n");
            FeedMany(ParseState(list, false), t + "\r\n") == ParseState(next, false) && NeedsNode(next)
  {
    AnyLine(t);
    LineBehind(list, t);
  }

  lemma {:induction false} FeedWire(list: seq<Cmd>, texts: seq<string>)
    requires NeedsNode(list) && forall i :: 0 <= i < |texts| ==> OneLine(texts[i])
    ensures Chunk(list, Wire(texts)) == list + NodesOf(texts)
    decreases |texts|
  {
    if texts == [] {
      assert list + [] == list;
    } else {
      var line, node := texts[0] + "\r\n", Chunk([], texts[0] + "\r\n");
      OneBehind(list, texts[0]);
      FeedManySplit(ParseState(list, false), line, Wire(texts[1..]));
      FeedWire(list + node, texts[1..]);
      assert list + node + NodesOf(texts[1..]) == list + NodesOf(texts);
    }
  }

  /** Whatever lines are received, in whatever chunks, each is dequeued in its
      turn and means what it should. */
  lemma {:induction false} AnyLines(texts: seq<string>, chunks: seq<string>)
    requires forall i :: 0 <= i < |texts| ==> OneLine(texts[i])
    requires Joined(chunks) == Wire(texts)
    ensures var got := TakeAll(Chunks([], chunks));
            |got| == |texts| && forall i :: 0 <= i < |texts| ==> Means(texts[i], got[i])
  {
    WireSpaces(texts);
    SegmentationIndependent(chunks);
    FeedWire([], texts);
    assert [] + NodesOf(texts) == NodesOf(texts);
    NodesMean(texts);
    TakeAllDone(NodesOf(texts));
  }

  // ------------------------------------------------------- a third space

  function NoSpaces(v: string): string
    decreases |v|
  {
    if v == "" then "" else (if v[0] == ' ' then "" else [v[0]]) + NoSpaces(v[1..])
  }

  lemma {:induction false} NoSpacesPlain(v: string)
    requires Plain(v)
    ensures RawWord(NoSpaces(v))
    decreases |v|
  {
    if v != "" { NoSpacesPlain(v[1..]); }
  }

  /** Past a third space the same chunk goes on writing the second argument and
      skips the spaces. */
  lemma {:induction false} SpacesSkipped(c: Cmd, v: string)
    requires c.status == WRITINGARG2 && !c.receivedCR && c.callback == None && Plain(v)
    ensures FeedMany(ParseState([c.(status := INVALID)], true), v + "\r\n") ==
            FeedMany(ParseState([c], false), NoSpaces(v) + "\r\n")
    decreases |v|
  {
    var q := c.(status := INVALID);
    if v == "" {
      assert "" + "\r\n" == "\r\n";
      EndsAlike(c);
    } else if v[0] == ' ' {
      SpacesSkipped(c, v[1..]);
      SkippedSpace(q, v[1..] + "\r\n");
      LineCons(v);
      SpaceSkipped(v);
    } else if |c.arg2| >= MAXARGSIZE || !IsPrintable(v[0]) {
      SkippedRefused(c, v);
    } else {
      SpacesSkipped(Append(c, v[0]), v[1..]);
      SkippedOne(c, v[0], v[1..] + "\r\n", NoSpaces(v[1..]) + "\r\n");
      LineCons(v);
      LineCons([v[0]] + NoSpaces(v[1..]));
    }
  }

  lemma {:induction false} SpaceSkipped(v: string)
    requires v != "" && v[0] == ' '
    ensures NoSpaces(v) == NoSpaces(v[1..])
  {}

  lemma {:induction false} SkippedSpace(q: Cmd, s: string)
    requires q.status == INVALID && !q.receivedCR
    ensures FeedMany(ParseState([q], true), [' '] + s) == FeedMany(ParseState([q], true), s)
  {
    NodeStep(q, true, [' '] + s);
    assert ([' '] + s)[1..] == s;
  }

  lemma {:induction false} SkippedOne(c: Cmd, ch: char, s: string, t: string)
    requires c.status == WRITINGARG2 && !c.receivedCR && ch != ' ' && ch != '\r'
    requires |c.arg2| < MAXARGSIZE && IsPrintable(ch)
    requires FeedMany(ParseState([Append(c, ch).(status := INVALID)], true), s) ==
             FeedMany(ParseState([Append(c, ch)], false), t)
    ensures FeedMany(ParseState([c.(status := INVALID)], true), [ch] + s) == FeedMany(ParseState([c], false), [ch] + t)
  {
    NodeStep(c.(status := INVALID), true, [ch] + s);
    NodeStep(c, false, [ch] + t);
    assert ([ch] + s)[1..] == s && ([ch] + t)[1..] == t;
  }

  lemma {:induction false} SkippedRefused(c: Cmd, v: string)
    requires c.status == WRITINGARG2 && !c.receivedCR && c.callback == None && Plain(v)
    requires v != "" && v[0] != ' ' && (|c.arg2| >= MAXARGSIZE || !IsPrintable(v[0]))
    ensures FeedMany(ParseState([c.(status := INVALID)], true), v + "\r\n") ==
            FeedMany(ParseState([c], false), NoSpaces(v) + "\r\n")
  {
    var q, u := c.(status := INVALID), NoSpaces(v[1..]);
    NoSpacesPlain(v[1..]);
    RefusedFrom(q, true, v[0], v[1..], q);
    RefusedFrom(c, false, v[0], u, q);
    LineCons(v);
    LineCons([v[0]] + u);
  }

  lemma {:induction false} LineCons(v: string)
    requires v != ""
    ensures v + "\r\n" == [v[0]] + (v[1..] + "\r\n")
  {}

  lemma {:induction false} RefusedFrom(c: Cmd, lenient: bool, ch: char, u: string, q: Cmd)
    requires !Done(c) && Feed1(c, lenient, ch) == (q, false) && Refused(q) && Plain(u)
    ensures FeedMany(ParseState([c], lenient), [ch] + (u + "\r\n")) ==
            ParseState([q.(receivedCR := true, status := COMPLETEINVALID)], false)
  {
    var s := u + "\r\n";
    NodeStep(c, lenient, [ch] + s);
    assert ([ch] + s)[1..] == s;
    RefusedNode(q, u);
  }

  lemma {:induction false} RefusedNode(q: Cmd, u: string)
    requires Refused(q) && Plain(u)
    ensures FeedMany(ParseState([q], false), u + "\r\n") ==
            ParseState([q.(receivedCR := true, status := COMPLETEINVALID)], false)
  {
    DiscardToEnd([], q, u);
    var e := q.(receivedCR := true, status := COMPLETEINVALID);
    assert [] + [q] == [q] && [] + [e] == [e];
  }

  lemma {:induction false} EndsBy(c: Cmd, lenient: bool)
    requires !Done(c) && !c.receivedCR && (Writing(c.status) || lenient)
    ensures FeedMany(ParseState([c], lenient), "\r\n") == ParseState([Resolve(c.(receivedCR := true))], false)
  {
    var d := c.(receivedCR := true);
    assert "\r\n"[1..] == "\n" && "\n"[1..] == "";
    NodeStep(c, lenient, "\r\n");
    NodeStep(d, c.status == INVALID, "\n");
  }

  lemma {:induction false} EndsAlike(c: Cmd)
    requires c.status == WRITINGARG2 && !c.receivedCR
    ensures FeedMany(ParseState([c.(status := INVALID)], true), "\r\n") == FeedMany(ParseState([c], false), "\r\n")
  {
    EndsBy(c, false);
    EndsBy(c.(status := INVALID), true);
  }

  /** `c` is what `s` has made of a new line: refused, or its `n`-th word being written. */
  ghost predicate Written(s: string, c: Cmd, n: nat) {
    FeedMany(ParseState([NEWCMD], false), s) == ParseState([c], false) && !c.receivedCR && c.callback == None &&
    (Refused(c) || (Writing(c.status) && Rank(c.status) == n && (n < 1 ==> c.arg1 == "") && (n < 2 ==> c.arg2 == "")))
  }

  lemma {:induction false} WordOn(s: string, c: Cmd, n: nat, w: string) returns (d: Cmd)
    requires Written(s, c, n) && RawWord(w) && (Refused(c) || Field(c) == "")
    ensures Written(s + w, d, n)
    ensures Refused(d) <==> Refused(c) || !Word(w, if n == 0 then MAXCOMMANDSIZE else MAXARGSIZE)
  {
    FeedManySplit(ParseState([NEWCMD], false), s, w);
    assert [] + [c] == [c];
    if Refused(c) {
      DiscardAll([], c, w);
      d := c;
    } else if Visible(w) && |w| <= MaxSize(c.status) {
      FeedWord([], c, w);
      d := AppendAll(c, w);
      assert [] + [d] == [d];
    } else {
      d := BadWord([], c, w);
      assert [] + [d] == [d];
    }
  }

  lemma {:induction false} SpaceOn(s: string, c: Cmd, n: nat) returns (d: Cmd)
    requires Written(s, c, n) && n < 2
    ensures Written(s + " ", d, n + 1) && (Refused(d) || Field(d) == "") && (Refused(d) <==> Refused(c))
  {
    FeedManySplit(ParseState([NEWCMD], false), s, " ");
    FeedOne(ParseState([c], false), ' ');
    assert [] + [c] == [c];
    FeedLast([], c, false, ' ');
    d := if Refused(c) then c else c.(status := AfterSpace(c.status));
    assert [] + [d] == [d];
  }

  /** Arguments, each behind a space. */
  function Tail(args: seq<string>): string
    decreases |args|
  {
    if args == [] then "" else " " + args[0] + Tail(args[1..])
  }

  /** The line without its CRLF. */
  function Text(l: Line): string { l.name + Tail(l.args) }

  lemma {:induction false} TailOn(s: string, c: Cmd, n: nat, args: seq<string>) returns (d: Cmd)
    requires Written(s, c, n) && n + |args| <= 2 && forall i :: 0 <= i < |args| ==> RawWord(args[i])
    ensures Written(s + Tail(args), d, n + |args|)
    ensures Refused(d) <==> Refused(c) || exists i :: 0 <= i < |args| && !Word(args[i], MAXARGSIZE)
    decreases |args|
  {
    if args == [] {
      d := c;
      assert s + "" == s;
    } else {
      var e := SpaceOn(s, c, n);
      var f := WordOn(s + " ", e, n + 1, args[0]);
      d := TailOn(s + " " + args[0], f, n + 1, args[1..]);
      assert s + " " + args[0] + Tail(args[1..]) == s + Tail(args);
      assert forall i :: 0 <= i < |args| - 1 ==> args[1..][i] == args[i + 1];
    }
  }

  /** The node a line has become before its CRLF: refused unless it is well formed. */
  lemma {:induction false} TextOn(l: Line) returns (c: Cmd)
    requires RawLine(l)
    ensures Written(Text(l), c, |l.args|) && (Refused(c) <==> !WellFormed(l))
  {
    var d := WordOn("", NEWCMD, 0, l.name);
    assert "" + l.name == l.name;
    c := TailOn(l.name, d, 0, l.args);
  }

  // ----------------------------------------------------------- a stray CR

  lemma {:induction false} FlagStep(d: Cmd, v: string)
    requires d.status == INVALID && v != "" && v[0] != '\n'
    ensures FeedMany(ParseState([d], false), v) ==
            FeedMany(ParseState([d.(receivedCR := v[0] == '\r')], false), v[1..])
  {
    NodeStep(d, false, v);
  }

  lemma {:induction false} DiscardFlag(d: Cmd, v: string) returns (e: Cmd)
    requires d.status == INVALID && d.callback == None && forall i :: 0 <= i < |v| ==> v[i] != '\n'
    ensures FeedMany(ParseState([d], false), v) == ParseState([e], false) && e.status == INVALID && e.callback == None
    ensures e.receivedCR == if v == "" then d.receivedCR else v[|v| - 1] == '\r'
    decreases |v|
  {
    if v == "" {
      e := d;
    } else {
      FlagStep(d, v);
      e := DiscardFlag(d.(receivedCR := v[0] == '\r'), v[1..]);
    }
  }

  /** A line with a CR that no LF follows at once.  It is never a command.  The
      next LF ends it if it follows a CR; but if the line was well formed up to
      its first CR, it also ends it one character later. */
  lemma {:induction false} StrayCR(l: Line, v: string)
    requires RawLine(l) && v != "" && forall i :: 0 <= i < |v| ==> v[i] != '\n'
    ensures var got := Chunk([], Text(l) + "\r" + v + "\n");
            |got| == 1 && got[0].callback == None && got[0].status != COMPLETE &&
            (Done(got[0]) <==> v[|v| - 1] == '\r' || (|v| == 1 && WellFormed(l)))
  {
    var s, end := Text(l) + "\r" + v + "\n", "\r" + (v + "\n");
    var c := TextOn(l);
    assert s == Text(l) + end;
    AfterText(Text(l), c, |l.args|, end);
    var g := StrayFrom(c, v);
  }

  lemma {:induction false} AfterText(u: string, c: Cmd, n: nat, end: string)
    requires Written(u, c, n) && u + end != ""
    ensures Chunk([], u + end) == FeedMany(ParseState([c], false), end).list
  {
    FeedOpens([], u + end);
    assert [] + [NEWCMD] == [NEWCMD];
    FeedManySplit(ParseState([NEWCMD], false), u, end);
  }

  lemma {:induction false} StrayFrom(c: Cmd, v: string) returns (g: Cmd)
    requires !c.receivedCR && c.callback == None && (Refused(c) || Writing(c.status))
    requires v != "" && forall i :: 0 <= i < |v| ==> v[i] != '\n'
    ensures FeedMany(ParseState([c], false), "\r" + (v + "\n")) == ParseState([g], false)
    ensures g.callback == None && g.status != COMPLETE
    ensures Done(g) <==> v[|v| - 1] == '\r' || (|v| == 1 && !Refused(c))
  {
    var d := c.(receivedCR := true);
    StrayCr(c, v + "\n");
    FeedManySplit(ParseState([d], false), v, "\n");
    var e := StrayRest(c, d, v);
    g := Discard(e, '\n');
    StrayEnd(e, g);
  }

  lemma {:induction false} StrayCr(c: Cmd, s: string)
    requires !c.receivedCR && c.callback == None && (Refused(c) || Writing(c.status))
    ensures FeedMany(ParseState([c], false), "\r" + s) == FeedMany(ParseState([c.(receivedCR := true)], false), s)
  {
    assert ("\r" + s)[1..] == s;
    NodeStep(c, false, "\r" + s);
  }

  lemma {:induction false} StrayEnd(e: Cmd, g: Cmd)
    requires e.status == INVALID && g == Discard(e, '\n')
    ensures FeedMany(ParseState([e], false), "\n") == ParseState([g], false)
  {
    NodeStep(e, false, "\n");
  }

  lemma {:induction false} StrayFirst(d: Cmd, v: string)
    requires Writing(d.status) && d.receivedCR && v != "" && v[0] != '\n'
    ensures FeedMany(ParseState([d], false), v) == FeedMany(ParseState([d.(status := INVALID)], false), v[1..])
  {
    NodeStep(d, false, v);
    assert Feed1(d, false, v[0]) == (d.(status := INVALID), false);
  }

  lemma {:induction false} StrayRest(c: Cmd, d: Cmd, v: string) returns (e: Cmd)
    requires c.callback == None && (Refused(c) || Writing(c.status)) && d == c.(receivedCR := true)
    requires v != "" && forall i :: 0 <= i < |v| ==> v[i] != '\n'
    ensures FeedMany(ParseState([d], false), v) == ParseState([e], false) && e.status == INVALID && e.callback == None
    ensures e.receivedCR <==> v[|v| - 1] == '\r' || (|v| == 1 && !Refused(c))
  {
    if Refused(c) {
      e := DiscardFlag(d, v);
    } else {
      StrayFirst(d, v);
      e := DiscardFlag(d.(status := INVALID), v[1..]);
    }
  }

  // ------------------------------------------------- a third space, concluded

  /** So in one chunk a line may have any number of spaces: it means what the
      line without those behind the second means. */
  lemma {:induction false} ThirdSpace(l: Line, v: string)
    requires RawLine(l) && |l.args| == 2 && Plain(v)
    ensures Chunk([], Text(l) + " " + v + "\r\n") == Chunk([], Text(l) + NoSpaces(v) + "\r\n")
  {
    var u := Text(l);
    assert u + (" " + v + "\r\n") == u + " " + v + "\r\n" && u + (NoSpaces(v) + "\r\n") == u + NoSpaces(v) + "\r\n";
    var c := TextOn(l);
    AfterText(u, c, 2, " " + v + "\r\n");
    AfterText(u, c, 2, NoSpaces(v) + "\r\n");
    ThirdFrom(c, v);
  }

  lemma {:induction false} ThirdFrom(c: Cmd, v: string)
    requires !c.receivedCR && c.callback == None && (Refused(c) || c.status == WRITINGARG2) && Plain(v)
    ensures FeedMany(ParseState([c], false), " " + v + "\r\n") == FeedMany(ParseState([c], false), NoSpaces(v) + "\r\n")
  {
    if Refused(c) {
      NoSpacesPlain(v);
      RefusedNode(c, " " + v);
      RefusedNode(c, NoSpaces(v));
    } else {
      var s := v + "\r\n";
      assert " " + v + "\r\n" == " " + s && (" " + s)[1..] == s;
      NodeStep(c, false, " " + s);
      SpacesSkipped(c, v);
    }
  }
}
