// What byte stuffing means for a whole mail, independently of the streaming
// machine: a line that is a single dot gets a second dot.  Lines are cut at
// LF; a line ends for this purpose at CR or at the end of the mail.

module Stuffing {
  import opened Standards

  /** `s` starts with a dot that is followed by CR or by nothing. */
  predicate LoneDotFirst(s: string) {
    s != "" && s[0] == '.' && (|s| == 1 || s[1] == '\r')
  }

  /** `s` starts with two dots followed by CR or by nothing. */
  predicate TwoDotsFirst(s: string) {
    |s| >= 2 && s[0] == '.' && s[1] == '.' && (|s| == 2 || s[2] == '\r')
  }

  /** Stuffing of the text `s`; `atStart` says whether `s` begins a line. */
  function StuffText(atStart: bool, s: string): string
    decreases |s|
  {
    if s == "" then ""
    else if atStart && LoneDotFirst(s) then ".." + StuffText(false, s[1..])
    else [s[0]] + StuffText(s[0] == '\n', s[1..])
  }

  function Stuff(mail: string): string { StuffText(true, mail) }

  // ------------------------------------------------------- framing safety

  /** A line of `s` that is a single dot before CR or before the end starts at `j`. */
  predicate LoneDotAt(atStart: bool, s: string, j: nat)
    requires j < |s|
  {
    (if j == 0 then atStart else s[j - 1] == '\n') && LoneDotFirst(s[j..])
  }

  /** No line of a stuffed text is a single dot. */
  lemma {:induction false} NoLoneDotLeft(atStart: bool, s: string)
    ensures forall j :: 0 <= j < |StuffText(atStart, s)| ==> !LoneDotAt(atStart, StuffText(atStart, s), j)
    decreases |s|
  {
    if s != "" {
      var lone := atStart && LoneDotFirst(s);
      var next := !lone && s[0] == '\n';
      var rest := StuffText(next, s[1..]);
      var head := if lone then ".." else [s[0]];
      var out := StuffText(atStart, s);
      assert out == head + rest;
      NoLoneDotLeft(next, s[1..]);
      forall j | 0 <= j < |out|
        ensures !LoneDotAt(atStart, out, j)
      {
        if j >= |head| {
          assert out[j..] == rest[j - |head|..];
          assert !LoneDotAt(next, rest, j - |head|);
        }
      }
    }
  }

  const TERMINATOR := "\r\n.\r\n"

  /** In what a client reads after the status line, the multi-line terminator
      occurs once: at the very end. */
  lemma {:induction false} FramingSafe(mail: string, p: nat)
    requires p + 5 <= |"\r\n" + Stuff(mail) + TERMINATOR|
    ensures ("\r\n" + Stuff(mail) + TERMINATOR)[p..p + 5] == TERMINATOR <==> p == 2 + |Stuff(mail)|
  {
    var out := Stuff(mail);
    var wire := "\r\n" + out + TERMINATOR;
    NoLoneDotLeft(true, mail);
    if p == 2 + |out| {
      assert wire[p..p + 5] == TERMINATOR;
    } else if wire[p..p + 5] == TERMINATOR {
      assert wire[p..p + 5][1] == '\n' && wire[p..p + 5][2] == '.' && wire[p..p + 5][3] == '\r';
      assert wire[p + 1] == '\n' && wire[p + 2] == '.' && wire[p + 3] == '\r';
      assert p < |out|;
      assert out[p] == '.';
      assert LoneDotAt(true, out, p);
      assert false;
    }
  }

  // ------------------------------------------------- reversing the stuffing

  /** Removes one dot from each line that is exactly two dots. */
  function UnstuffText(atStart: bool, s: string): string
    decreases |s|
  {
    if s == "" then ""
    else if atStart && TwoDotsFirst(s) then [s[1]] + UnstuffText(false, s[2..])
    else [s[0]] + UnstuffText(s[0] == '\n', s[1..])
  }

  /** Some line of `s` is exactly two dots. */
  predicate HasTwoDotLine(atStart: bool, s: string)
    decreases |s|
  {
    s != "" && ((atStart && TwoDotsFirst(s)) || HasTwoDotLine(s[0] == '\n', s[1..]))
  }

  lemma {:induction false} UnstuffExactly(atStart: bool, s: string)
    ensures UnstuffText(atStart, StuffText(atStart, s)) == s <==> !HasTwoDotLine(atStart, s)
    decreases |s|
  {
    if s != "" {
      var out := StuffText(atStart, s);
      if atStart && LoneDotFirst(s) {
        UnstuffExactly(false, s[1..]);
        var rest := StuffText(false, s[1..]);
        assert out[2..] == rest;
        assert rest == "" || rest[0] == '\r';
        assert UnstuffText(atStart, out) == "." + UnstuffText(false, rest);
        assert s == "." + s[1..];
      } else {
        var rest := StuffText(s[0] == '\n', s[1..]);
        assert out == [s[0]] + rest && out[1..] == rest;
        if atStart && TwoDotsFirst(s) {
          assert s[1..][1..] == s[2..];
          assert rest == "." + StuffText(false, s[2..]);
          assert out[2..] == StuffText(false, s[2..]);
          var un := UnstuffText(atStart, out);
          assert un == "." + UnstuffText(false, out[2..]);
          assert s[1] == '.';
          assert un != s;
        } else {
          UnstuffExactly(s[0] == '\n', s[1..]);
          if atStart && s[0] == '.' {
            assert rest == [s[1]] + StuffText(s[1] == '\n', s[2..]) by { assert s[1..][1..] == s[2..]; }
            assert !TwoDotsFirst(out);
          }
          assert UnstuffText(atStart, out) == [s[0]] + UnstuffText(s[0] == '\n', rest);
          assert s == [s[0]] + s[1..];
        }
      }
    }
  }

  /** The mail is recoverable by undoing the stuffing exactly when it has no
      line of two dots. */
  lemma {:induction false} StuffReversible(mail: string)
    ensures UnstuffText(true, Stuff(mail)) == mail <==> !HasTwoDotLine(true, mail)
  {
    UnstuffExactly(true, mail);
  }

  /** Without that condition two different mails look the same on the wire. */
  lemma {:induction false} StuffCollides()
    ensures Stuff(".") == Stuff("..") && HasTwoDotLine(true, "..")
  {
    assert "."[1..] == "" && ".."[1..] == ".";
    assert StuffText(false, ".") == "." + StuffText(false, "");
    assert Stuff("..") == "." + StuffText(false, ".");
  }

  // ------------------------------------------------ a standard POP3 client

  /** A message, and what was received behind its end marker. */
  datatype Message = Message(text: string, behind: string)

  /** Section 3 of RFC 1939, the receiving side: lines end with CRLF; a line
      that is a lone dot ends the response, and a dot that begins any other line
      is stripped.  The message is its lines, each with its CRLF; there is none
      if the response does not end.  `atStart` says that `s` begins a line,
      `afterCR` that the previous octet was CR. */
  function ClientReads(atStart: bool, afterCR: bool, s: string): Option<Message>
    decreases |s|
  {
    if s == "" then None
    else if atStart && ".\r\n" <= s then Some(Message("", s[3..]))
    else if atStart && s[0] == '.' then ClientReads(false, false, s[1..])
    else Follows(s[0], ClientReads(afterCR && s[0] == '\n', s[0] == '\r', s[1..]))
  }

  function Follows(c: char, r: Option<Message>): Option<Message> {
    match r case None => None case Some(m) => Some(m.(text := [c] + m.text))
  }

  /** What a client makes of the body of a response, after the status line. */
  function ClientMessage(mail: string): Option<Message> { ClientReads(true, false, Stuff(mail) + TERMINATOR) }

  /** The same for a text that has no end in it. */
  function ClientDecode(atStart: bool, afterCR: bool, s: string): string
    decreases |s|
  {
    if s == "" then ""
    else if atStart && s[0] == '.' then ClientDecode(false, false, s[1..])
    else [s[0]] + ClientDecode(afterCR && s[0] == '\n', s[0] == '\r', s[1..])
  }

  lemma {:induction false} EndRead(atStart: bool, afterCR: bool)
    ensures ClientReads(atStart, afterCR, TERMINATOR) == Some(Message("\r\n", ""))
  {
    assert TERMINATOR == ['\r'] + (['\n'] + ".\r\n");
    assert ".\r\n"[3..] == "" && ClientReads(true, false, ".\r\n") == Some(Message("", ""));
    ReadChar(false, true, '\n', ".\r\n");
    ReadChar(atStart, afterCR, '\r', ['\n'] + ".\r\n");
    assert ['\r'] + (['\n'] + "") == "\r\n";
  }

  /** What comes behind the end marker does not change the message. */
  lemma {:induction false} ReadsBefore(atStart: bool, afterCR: bool, s: string, more: string)
    requires ClientReads(atStart, afterCR, s).Some?
    ensures |s| >= 3
    ensures var m := ClientReads(atStart, afterCR, s).value;
            ClientReads(atStart, afterCR, s + more) == Some(m.(behind := m.behind + more))
    decreases |s|
  {
    var t := s + more;
    if atStart && ".\r\n" <= s {
      assert ".\r\n" <= t && t[3..] == s[3..] + more;
    } else {
      var dot := atStart && s[0] == '.';
      ReadsBefore(!dot && afterCR && s[0] == '\n', !dot && s[0] == '\r', s[1..], more);
      assert t[1..] == s[1..] + more && (".\r\n" <= t ==> ".\r\n" <= s);
    }
  }

  lemma {:induction false} ReadChar(atStart: bool, afterCR: bool, c: char, s: string)
    requires !(atStart && c == '.')
    ensures ClientReads(atStart, afterCR, [c] + s) == Follows(c, ClientReads(afterCR && c == '\n', c == '\r', s))
    ensures ClientDecode(atStart, afterCR, [c] + s) == [c] + ClientDecode(afterCR && c == '\n', c == '\r', s)
  {
    assert ([c] + s)[1..] == s;
    assert ".\r\n" <= [c] + s ==> ([c] + s)[0] == ".\r\n"[0];
  }

  lemma {:induction false} ReadDot(afterCR: bool, s: string)
    requires s != "" && s[0] != '\r'
    ensures ClientReads(true, afterCR, "." + s) == ClientReads(false, false, s)
  {
    assert ("." + s)[1..] == s && ("." + s)[1] == s[0];
    assert ".\r\n"[1] == '\r';
  }

  lemma {:induction false} DecodeDot(afterCR: bool, s: string)
    ensures ClientDecode(true, afterCR, "." + s) == ClientDecode(false, false, s)
  {
    assert ("." + s)[1..] == s;
  }

  /** The client, having read up to the text `s`, will read what `s` decodes to. */
  predicate ReadsOn(atCrlf: bool, afterCR: bool, s: string) {
    ClientReads(atCrlf, afterCR, s + TERMINATOR) == Some(Message(ClientDecode(atCrlf, afterCR, s) + "\r\n", ""))
  }

  lemma {:induction false} OneReadsOn(atCrlf: bool, afterCR: bool, c: char, s: string)
    requires !(atCrlf && c == '.') && ReadsOn(afterCR && c == '\n', c == '\r', s)
    ensures ReadsOn(atCrlf, afterCR, [c] + s)
  {
    ReadChar(atCrlf, afterCR, c, s);
    ReadChar(atCrlf, afterCR, c, s + TERMINATOR);
    assert [c] + s + TERMINATOR == [c] + (s + TERMINATOR);
    var rest := ClientDecode(afterCR && c == '\n', c == '\r', s);
    assert [c] + (rest + "\r\n") == [c] + rest + "\r\n";
  }

  lemma {:induction false} DotReadsOn(afterCR: bool, s: string)
    requires s != "" && s[0] != '\r' && ReadsOn(false, false, s)
    ensures ReadsOn(true, afterCR, "." + s)
  {
    DecodeDot(afterCR, s);
    ReadDot(afterCR, s + TERMINATOR);
    assert "." + s + TERMINATOR == "." + (s + TERMINATOR);
  }

  /** A client reads the response to its end: stuffed text never looks like it. */
  lemma {:induction false} ReadsToEnd(atStart: bool, atCrlf: bool, afterCR: bool, s: string)
    requires atCrlf ==> atStart
    ensures ReadsOn(atCrlf, afterCR, StuffText(atStart, s))
    decreases |s|
  {
    if s == "" {
      assert "" + TERMINATOR == TERMINATOR && "" + "\r\n" == "\r\n";
      EndRead(atCrlf, afterCR);
    } else if atStart && LoneDotFirst(s) {
      var rest := StuffText(false, s[1..]);
      ReadsToEnd(false, false, false, s[1..]);
      OneReadsOn(false, false, '.', rest);
      assert StuffText(atStart, s) == "." + ("." + rest);
      if atCrlf { DotReadsOn(afterCR, "." + rest); } else { OneReadsOn(false, afterCR, '.', "." + rest); }
    } else if atCrlf && s[0] == '.' {
      ReadsToEnd(false, false, false, s[1..]);
      DotReadsOn(afterCR, StuffText(false, s[1..]));
    } else {
      ReadsToEnd(s[0] == '\n', afterCR && s[0] == '\n', s[0] == '\r', s[1..]);
      OneReadsOn(atCrlf, afterCR, s[0], StuffText(s[0] == '\n', s[1..]));
    }
  }

  /** Every dot that begins a CRLF line is alone on it, and every dot that is
      alone on an LF line begins a CRLF line. */
  predicate ClientSafe(atStart: bool, atCrlf: bool, afterCR: bool, s: string)
    decreases |s|
  {
    s == "" ||
    (((atStart && LoneDotFirst(s)) <==> (atCrlf && s[0] == '.')) &&
     ClientSafe(s[0] == '\n', afterCR && s[0] == '\n', s[0] == '\r', s[1..]))
  }

  lemma {:induction false} DroppedDotShows(s: string)
    ensures ClientDecode(false, false, StuffText(false, s)) != "." + s
    decreases |s|
  {
    if s != "" {
      var rest := StuffText(s[0] == '\n', s[1..]);
      var out := StuffText(false, s);
      assert out[1..] == rest;
      if s[0] == '.' {
        DroppedDotShows(s[1..]);
        assert ClientDecode(false, false, out) == "." + ClientDecode(false, false, rest);
        assert "." + s == "." + ("." + s[1..]);
        assert ("." + s)[1..] == "." + s[1..];
        assert ClientDecode(false, false, out)[1..] == ClientDecode(false, false, rest);
      } else {
        assert ClientDecode(false, false, out)[0] == s[0];
      }
    }
  }

  lemma {:induction false} ClientDecodeExactly(atStart: bool, atCrlf: bool, afterCR: bool, s: string)
    requires atCrlf ==> atStart && !afterCR
    ensures ClientDecode(atCrlf, afterCR, StuffText(atStart, s)) == s <==> ClientSafe(atStart, atCrlf, afterCR, s)
    decreases |s|
  {
    if s != "" {
      var out := StuffText(atStart, s);
      var lone := atStart && LoneDotFirst(s);
      var rest := StuffText(!lone && s[0] == '\n', s[1..]);
      assert s == [s[0]] + s[1..];
      ClientDecodeExactly(s[0] == '\n', afterCR && s[0] == '\n', s[0] == '\r', s[1..]);
      if lone {
        assert out[1..] == "." + rest && out[1..][1..] == rest;
        assert ClientDecode(false, false, out[1..]) == "." + ClientDecode(false, false, rest);
        if !atCrlf {
          assert ClientDecode(atCrlf, afterCR, out) == "." + ClientDecode(false, false, out[1..]);
          assert ClientDecode(atCrlf, afterCR, out)[1] == '.';
        }
      } else {
        assert out[1..] == rest;
        if atCrlf && s[0] == '.' {
          DroppedDotShows(s[1..]);
        } else {
          assert ClientDecode(atCrlf, afterCR, out)
              == [s[0]] + ClientDecode(afterCR && s[0] == '\n', s[0] == '\r', rest);
        }
      }
    }
  }

  /** What a standard client reads is the mail and the CRLF in front of the end
      marker, exactly when the mail's dot-initial lines are all lone dots after
      a CRLF. */
  lemma {:induction false} ClientRecovers(mail: string)
    ensures ClientMessage(mail) == Some(Message(mail + "\r\n", "")) <==> ClientSafe(true, true, false, mail)
  {
    ReadsToEnd(true, true, false, mail);
    ClientDecodeExactly(true, true, false, mail);
    var read := ClientDecode(true, false, Stuff(mail));
    if read + "\r\n" == mail + "\r\n" {
      assert read == (read + "\r\n")[..|read|] && mail == (mail + "\r\n")[..|mail|];
    }
  }

  /** So a mail whose last line has its CRLF arrives with an empty line more. */
  lemma {:induction false} ClientAddsLine(text: string)
    requires ClientSafe(true, true, false, text + "\r\n")
    ensures ClientMessage(text + "\r\n") == Some(Message(text + "\r\n\r\n", ""))
  {
    ClientRecovers(text + "\r\n");
    assert text + "\r\n" + "\r\n" == text + "\r\n\r\n";
  }

  /** A line with text after its first dot loses that dot. */
  lemma {:induction false} ClientLosesDot()
    ensures ClientMessage(".a") == Some(Message("a\r\n", ""))
  {
    ReadsToEnd(true, true, false, ".a");
    assert ".a"[1..] == "a" && "a"[1..] == "";
    assert Stuff(".a") == "." + StuffText(false, "a");
    assert StuffText(false, "a") == "a" + StuffText(false, "");
    assert Stuff(".a") == "." + "a";
    DecodeDot(false, "a");
    assert "a"[1..] == "" && ClientDecode(false, false, "a") == ['a'] + ClientDecode(false, false, "");
    assert "a" + "\r\n" == "a\r\n";
  }
}
