// A standard POP3 client: it reads lines, numbers and whole responses.

module Reading {
  import opened Standards
  import opened Stuffing

  // ------------------------------------------------------------------ lines

  predicate NoBreak(s: string) { forall i :: 0 <= i < |s| ==> s[i] != '\r' && s[i] != '\n' }

  predicate EndsCrlf(s: string) { |s| >= 2 && s[|s| - 2] == '\r' && s[|s| - 1] == '\n' }

  /** The text ends in its only CRLF. */
  predicate IsLine(s: string) {
    EndsCrlf(s) && forall i :: 0 <= i < |s| - 2 ==> s[i] != '\r' && s[i] != '\n'
  }

  predicate StartsCrlf(s: string) { |s| >= 2 && s[0] == '\r' && s[1] == '\n' }

  /** Up to the first CRLF, with it. */
  function FirstLine(s: string): (l: string)
    ensures |l| <= |s| && (s != "" ==> l != "")
    decreases |s|
  {
    if s == "" then "" else if StartsCrlf(s) then "\r\n" else [s[0]] + FirstLine(s[1..])
  }

  function Lines(s: string): seq<string>
    decreases |s|
  {
    if s == "" then [] else [FirstLine(s)] + Lines(s[|FirstLine(s)|..])
  }

  lemma {:induction false} LineFrom(w: string, t: string)
    requires NoBreak(w)
    ensures FirstLine(w + "\r\n" + t) == w + "\r\n"
    decreases |w|
  {
    var s := w + "\r\n" + t;
    if w == "" {
      assert s[..2] == "\r\n" && w + "\r\n" == "\r\n";
    } else {
      assert s[0] == w[0] && s[1..] == w[1..] + "\r\n" + t;
      LineFrom(w[1..], t);
      assert [w[0]] + (w[1..] + "\r\n") == w + "\r\n";
    }
  }

  lemma {:induction false} WordOf(l: string) returns (w: string)
    requires IsLine(l)
    ensures l == w + "\r\n" && NoBreak(w) && (w == "" || w[0] == l[0])
  {
    w := l[..|l| - 2];
  }

  /** The first line of what begins with a line. */
  lemma {:induction false} LineFirst(l: string, t: string)
    requires IsLine(l)
    ensures FirstLine(l + t) == l && (l + t)[|l|..] == t
  {
    var w := WordOf(l);
    LineFrom(w, t);
  }

  lemma {:induction false} ConsFirst(w: string, t: string)
    requires w != ""
    ensures w + t == [w[0]] + (w[1..] + t)
  {}

  lemma {:induction false} CrlfRead(atStart: bool, t: string)
    requires ClientReads(true, false, t).Some?
    ensures var m := ClientReads(true, false, t).value;
            ClientReads(atStart, false, "\r\n" + t) == Some(m.(text := "\r\n" + m.text))
  {
    var m := ClientReads(true, false, t).value;
    ReadChar(false, true, '\n', t);
    ReadChar(atStart, false, '\r', ['\n'] + t);
    assert "\r\n" + t == ['\r'] + (['\n'] + t) && "\r\n" + m.text == ['\r'] + (['\n'] + m.text);
  }

  lemma {:induction false} WordRead(atStart: bool, w: string, t: string)
    requires NoBreak(w) && (atStart ==> w == "" || w[0] != '.') && ClientReads(true, false, t).Some?
    ensures var m := ClientReads(true, false, t).value;
            ClientReads(atStart, false, w + ("\r\n" + t)) == Some(m.(text := w + ("\r\n" + m.text)))
    decreases |w|
  {
    var m := ClientReads(true, false, t).value;
    if w == "" {
      CrlfRead(atStart, t);
      assert "" + ("\r\n" + t) == "\r\n" + t && "" + ("\r\n" + m.text) == "\r\n" + m.text;
    } else {
      WordRead(false, w[1..], t);
      ReadChar(atStart, false, w[0], w[1..] + ("\r\n" + t));
      ConsFirst(w, "\r\n" + t);
      ConsFirst(w, "\r\n" + m.text);
    }
  }

  /** A standard client reads a line that does not begin with a dot as it is. */
  lemma {:induction false} LineRead(l: string, t: string)
    requires IsLine(l) && l[0] != '.' && ClientReads(true, false, t).Some?
    ensures var m := ClientReads(true, false, t).value;
            ClientReads(true, false, l + t) == Some(m.(text := l + m.text))
  {
    var w := WordOf(l);
    WordRead(true, w, t);
    Regroup(w, t);
    Regroup(w, ClientReads(true, false, t).value.text);
  }

  lemma {:induction false} Regroup(w: string, t: string)
    ensures w + ("\r\n" + t) == w + "\r\n" + t
  {}

  // -------------------------------------------------------------- responses

  /** A status line, and the message behind it if the response has one. */
  datatype Response = Response(status: string, message: Option<string>)

  /** A response and what was received behind it. */
  datatype Split = Split(first: Response, rest: string)

  /** Section 3 of RFC 1939, the receiving side: a status line up to a CRLF;
      after a command that asks for several lines and is answered `+OK`, a
      message up to its end marker.  There is none if something is missing. */
  function ReadOne(multi: bool, s: string): Option<Split> {
    var status := FirstLine(s);
    if !EndsCrlf(status) then None
    else if !multi || !("+OK" <= status) then Some(Split(Response(status, None), s[|status|..]))
    else
      match ClientReads(true, false, s[|status|..])
      case None => None
      case Some(m) => Some(Split(Response(status, Some(m.text)), m.behind))
  }

  /** One response for each command asked, and nothing behind the last. */
  function ReadAll(asked: seq<bool>, s: string): Option<seq<Response>>
    decreases |asked|
  {
    if asked == [] then if s == "" then Some([]) else None
    else
      match ReadOne(asked[0], s)
      case None => None
      case Some(x) =>
        match ReadAll(asked[1..], x.rest) case None => None case Some(more) => Some([x.first] + more)
  }

  lemma {:induction false} FirstLineBegins(s: string)
    ensures FirstLine(s) <= s
    decreases |s|
  {
    if s != "" && !StartsCrlf(s) { FirstLineBegins(s[1..]); }
  }

  lemma {:induction false} CompleteTail(c: char, l: string, s: string)
    requires EndsCrlf([c] + l) && l <= s && !StartsCrlf([c] + s)
    ensures EndsCrlf(l)
  {}

  lemma {:induction false} FirstLineStays(s: string, t: string)
    requires EndsCrlf(FirstLine(s))
    ensures FirstLine(s + t) == FirstLine(s)
    decreases |s|
  {
    assert |s| >= 2;
    if !StartsCrlf(s) {
      FirstLineBegins(s[1..]);
      assert s == [s[0]] + s[1..] && (s + t)[1..] == s[1..] + t;
      CompleteTail(s[0], FirstLine(s[1..]), s[1..]);
      FirstLineStays(s[1..], t);
    }
  }

  /** What comes behind a response does not change it. */
  lemma {:induction false} ReadOneStays(multi: bool, s: string, t: string)
    requires ReadOne(multi, s).Some?
    ensures var x := ReadOne(multi, s).value; ReadOne(multi, s + t) == Some(x.(rest := x.rest + t))
  {
    var status := FirstLine(s);
    FirstLineStays(s, t);
    assert (s + t)[|status|..] == s[|status|..] + t;
    if multi && "+OK" <= status { ReadsBefore(true, false, s[|status|..], t); }
  }

  lemma {:induction false} ReadAllStep(multi: bool, asked: seq<bool>, s: string, x: Split, l: seq<Response>)
    requires ReadOne(multi, s) == Some(x) && ReadAll(asked, x.rest) == Some(l)
    ensures ReadAll([multi] + asked, s) == Some([x.first] + l)
  {
    assert ([multi] + asked)[1..] == asked;
  }

  lemma {:induction false} ReadAllFirst(asked: seq<bool>, s: string) returns (x: Split, l: seq<Response>)
    requires asked != [] && ReadAll(asked, s).Some?
    ensures ReadOne(asked[0], s) == Some(x) && ReadAll(asked[1..], x.rest) == Some(l)
    ensures ReadAll(asked, s) == Some([x.first] + l)
  {
    x := ReadOne(asked[0], s).value;
    l := ReadAll(asked[1..], x.rest).value;
  }

  lemma {:induction false} ReadAllLast(multi: bool, t: string, r: Response)
    requires ReadOne(multi, t) == Some(Split(r, ""))
    ensures ReadAll([] + [multi], "" + t) == Some([] + [r])
  {
    assert "" + t == t && [r] + [] == [] + [r] && [] + [multi] == [multi] + [];
    ReadAllStep(multi, [], t, Split(r, ""), []);
  }

  lemma {:induction false} ReadAllOn(m: bool, asked: seq<bool>, s: string, x: Split, multi: bool, t: string,
                                     l: seq<Response>, r: Response)
    requires ReadOne(m, s) == Some(x) && ReadAll(asked + [multi], x.rest + t) == Some(l + [r])
    ensures ReadAll(([m] + asked) + [multi], s + t) == Some(([x.first] + l) + [r])
  {
    ReadOneStays(m, s, t);
    ReadAllStep(m, asked + [multi], s + t, x.(rest := x.rest + t), l + [r]);
    assert ([m] + asked) + [multi] == [m] + (asked + [multi]) && ([x.first] + l) + [r] == [x.first] + (l + [r]);
  }

  /** Another command and its response. */
  lemma {:induction false} ReadAllMore(asked: seq<bool>, s: string, multi: bool, t: string, l: seq<Response>,
                                       r: Response)
    requires ReadAll(asked, s) == Some(l) && ReadOne(multi, t) == Some(Split(r, ""))
    ensures ReadAll(asked + [multi], s + t) == Some(l + [r])
    decreases |asked|
  {
    if asked == [] {
      ReadAllLast(multi, t, r);
    } else {
      var x, more := ReadAllFirst(asked, s);
      ReadAllMore(asked[1..], x.rest, multi, t, more, r);
      ReadAllOn(asked[0], asked[1..], s, x, multi, t, more, r);
      assert [asked[0]] + asked[1..] == asked;
    }
  }

  lemma {:induction false} LineResponse(multi: bool, l: string)
    requires IsLine(l) && !(multi && "+OK" <= l)
    ensures ReadOne(multi, l) == Some(Split(Response(l, None), ""))
  {
    LineFirst(l, "");
    assert l + "" == l;
  }

  lemma {:induction false} MessageResponse(status: string, body: string, text: string)
    requires IsLine(status) && "+OK" <= status && ClientReads(true, false, body) == Some(Message(text, ""))
    ensures ReadOne(true, status + body) == Some(Split(Response(status, Some(text)), ""))
  {
    LineFirst(status, body);
  }

  // ------------------------------------------------------------- end markers

  predicate MarkerAt(s: string, p: nat) {
    p + 5 <= |s| && s[p] == '\r' && s[p + 1] == '\n' && s[p + 2] == '.' && s[p + 3] == '\r' && s[p + 4] == '\n'
  }

  lemma {:induction false} ReadEnd(s: string)
    requires |s| >= 3 && s[0] == '.' && s[1] == '\r' && s[2] == '\n'
    ensures ClientReads(true, false, s) == Some(Message("", s[3..]))
  {
    assert ".\r\n" <= s;
  }

  lemma {:induction false} ReadMarker(atStart: bool, afterCR: bool, s: string)
    requires MarkerAt(s, 0)
    ensures ClientReads(atStart, afterCR, s).Some? && ClientReads(atStart, afterCR, s).value.behind == s[5..]
  {
    ReadEnd(s[2..]);
    ReadChar(false, true, '\n', s[2..]);
    ReadChar(atStart, afterCR, '\r', ['\n'] + s[2..]);
    assert s == ['\r'] + (['\n'] + s[2..]) && s[2..][3..] == s[5..];
  }

  /** A client stops at the first end marker, if not before. */
  lemma {:induction false} StopsByMarker(atStart: bool, afterCR: bool, s: string, p: nat)
    requires ClientReads(atStart, afterCR, s).Some? && MarkerAt(s, p)
    ensures p + 5 + |ClientReads(atStart, afterCR, s).value.behind| >= |s|
    decreases |s|
  {
    if p == 0 {
      ReadMarker(atStart, afterCR, s);
    } else if !(atStart && ".\r\n" <= s) {
      var dot := atStart && s[0] == '.';
      StopsByMarker(!dot && afterCR && s[0] == '\n', !dot && s[0] == '\r', s[1..], p - 1);
    }
  }

  /** The client after one more character. */
  predicate StartsNext(atStart: bool, afterCR: bool, c: char) { !(atStart && c == '.') && afterCR && c == '\n' }

  predicate CrNext(atStart: bool, c: char) { !(atStart && c == '.') && c == '\r' }

  predicate DotLine(s: string) { |s| == 3 && s[0] == '.' && s[1] == '\r' && s[2] == '\n' }

  /** The text ends in an end marker, which may have begun before it. */
  predicate EndsMarked(atStart: bool, afterCR: bool, s: string) {
    (|s| >= 5 && MarkerAt(s, |s| - 5)) || (afterCR && s != "" && s[0] == '\n' && DotLine(s[1..])) ||
    (atStart && DotLine(s))
  }

  lemma {:induction false} MarkedNext(atStart: bool, afterCR: bool, s: string)
    requires s != "" && EndsMarked(StartsNext(atStart, afterCR, s[0]), CrNext(atStart, s[0]), s[1..])
    ensures EndsMarked(atStart, afterCR, s)
  {
    var t := s[1..];
    if |t| >= 5 {
      assert MarkerAt(t, |t| - 5) ==> MarkerAt(s, |s| - 5);
    } else if |t| == 4 {
      assert t[1..][0] == s[2] && t[1..][1] == s[3] && t[1..][2] == s[4];
    }
  }

  lemma {:induction false} ReadNext(atStart: bool, afterCR: bool, s: string)
    requires ClientReads(atStart, afterCR, s).Some? && !(atStart && ".\r\n" <= s)
    ensures var r := ClientReads(StartsNext(atStart, afterCR, s[0]), CrNext(atStart, s[0]), s[1..]);
            r.Some? && r.value.behind == ClientReads(atStart, afterCR, s).value.behind
  {}

  lemma {:induction false} LastMarker(atStart: bool, afterCR: bool, s: string)
    requires ClientReads(atStart, afterCR, s).Some? && ClientReads(atStart, afterCR, s).value.behind == ""
    ensures EndsMarked(atStart, afterCR, s)
    decreases |s|
  {
    if atStart && ".\r\n" <= s {
      assert s == ".\r\n";
    } else {
      ReadNext(atStart, afterCR, s);
      LastMarker(StartsNext(atStart, afterCR, s[0]), CrNext(atStart, s[0]), s[1..]);
      MarkedNext(atStart, afterCR, s);
    }
  }

  /** A response of several lines ends at the first end marker behind its status line. */
  lemma {:induction false} EndsAtMarker(s: string, x: Response)
    requires ReadOne(true, s) == Some(Split(x, "")) && x.message.Some?
    ensures |x.status| + 3 <= |s|
    ensures forall p :: |x.status| - 2 <= p ==> (MarkerAt(s, p) <==> p == |s| - 5)
  {
    var body := s[|x.status|..];
    FirstLineBegins(s);
    LastMarker(true, false, body);
    forall p | |x.status| - 2 <= p ensures MarkerAt(s, p) <==> p == |s| - 5 {
      MarkerInBody(s, x.status, body, p);
    }
  }

  lemma {:induction false} MarkerInBody(s: string, status: string, body: string, p: nat)
    requires EndsCrlf(status) && s == status + body && |status| - 2 <= p
    requires ClientReads(true, false, body).Some? && ClientReads(true, false, body).value.behind == ""
    requires EndsMarked(true, false, body)
    ensures MarkerAt(s, p) <==> p == |s| - 5
  {
    if MarkerAt(s, p) {
      CrlfRead(false, body);
      SameMarker(s, status, body, "\r\n" + body, p);
      StopsByMarker(false, false, "\r\n" + body, p - (|status| - 2));
    }
  }

  lemma {:induction false} SameMarker(s: string, status: string, body: string, t: string, p: nat)
    requires EndsCrlf(status) && s == status + body && t == "\r\n" + body && |status| - 2 <= p && MarkerAt(s, p)
    ensures MarkerAt(t, p - (|status| - 2)) && |t| == |s| - (|status| - 2)
  {
    assert t == s[|status| - 2..];
  }

  // ---------------------------------------------------------------- numbers

  function BeforeBlank(s: string): string
    decreases |s|
  {
    if s == "" || s[0] == ' ' then "" else [s[0]] + BeforeBlank(s[1..])
  }

  function AfterBlank(s: string): string
    decreases |s|
  {
    if s == "" then "" else if s[0] == ' ' then s[1..] else AfterBlank(s[1..])
  }

  /** The number a text begins with, of any width. */
  function Number(s: string): int {
    if s != "" && s[0] == '-' then 0 - DigitsValue(0, s[1..]) else DigitsValue(0, s)
  }

  /** Digits, with a sign for a negative number. */
  predicate Numeral(s: string) {
    var digits := if s != "" && s[0] == '-' then s[1..] else s;
    digits != "" && forall i :: 0 <= i < |digits| ==> IsDigit(digits[i])
  }

  /** The line without its CRLF. */
  function Trimmed(l: string): string { if |l| < 2 then "" else l[..|l| - 2] }

  lemma {:induction false} DecNumeral(n: int)
    ensures Numeral(Dec(n))
  {
    DecNatDigits(if n < 0 then 0 - n else n);
    if n < 0 { assert Dec(n)[1..] == DecNat(0 - n); }
  }

  predicate NoBlank(s: string) { forall i :: 0 <= i < |s| ==> s[i] != ' ' }

  /** A status line that says yes, and one that says no. */
  predicate SaysYes(s: string) { IsLine(s) && "+OK" <= s && s[0] == '+' }

  predicate SaysNo(s: string) { IsLine(s) && "-ERR" <= s && s[0] == '-' }

  lemma {:induction false} BlankBehind(w: string, t: string)
    requires NoBlank(w)
    ensures BeforeBlank(w + (" " + t)) == w && AfterBlank(w + (" " + t)) == t
    decreases |w|
  {
    var s := w + (" " + t);
    if w == "" {
      assert s[0] == ' ' && s[1..] == t;
    } else {
      assert s[0] == w[0] && s[1..] == w[1..] + (" " + t);
      BlankBehind(w[1..], t);
      assert w == [w[0]] + w[1..];
    }
  }

  lemma {:induction false} DigitsStop(acc: nat, w: string, t: string)
    requires (forall i :: 0 <= i < |w| ==> IsDigit(w[i])) && (t == "" || !IsDigit(t[0]))
    ensures DigitsValue(acc, w + t) == DigitsValue(acc, w)
    decreases |w|
  {
    if w == "" {
      assert w + t == t;
    } else {
      assert (w + t)[1..] == w[1..] + t;
      DigitsStop(10 * acc + (w[0] as int - '0' as int), w[1..], t);
    }
  }

  /** A printed number is read back, whatever but a digit follows it. */
  lemma {:induction false} NumberRead(n: int, t: string)
    requires t == "" || !IsDigit(t[0])
    ensures Number(Dec(n) + t) == n && NoBlank(Dec(n)) && NoBreak(Dec(n)) && Dec(n) != "" && Dec(n)[0] != '.'
  {
    var m := if n < 0 then 0 - n else n;
    var w, s := DecNat(m), Dec(n) + t;
    DecNatDigits(m);
    DigitsStop(0, w, t);
    assert IsDigit(w[0]);
    if n < 0 {
      assert s[1..] == w + t;
    } else {
      assert s == w + t && s[0] == w[0];
    }
  }

  /** The server reads the number a line of LIST begins with as that number. */
  lemma {:induction false} ArgumentRead(n: int32, t: string)
    requires n >= 0 && (t == "" || !IsDigit(t[0]))
    ensures Atoi(Dec(n) + t) == n
  {
    var s := Dec(n) + t;
    DecNatDigits(n);
    DigitsStop(0, DecNat(n), t);
    assert IsDigit(DecNat(n)[0]) && s[0] == DecNat(n)[0];
  }
}
