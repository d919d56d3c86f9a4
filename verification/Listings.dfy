// What a client reads in the replies to LIST and STAT: lines, numbers, totals.

module Listings {
  import opened Standards
  import opened Stuffing
  import opened Reading
  import opened Maildrop
  import opened Session

  // -------------------------------------------------------- a line of LIST

  /** A line that tells of a mail that RETR and DELE accept: its number, as they
      read it, one blank, its size, and nothing more. */
  predicate TellsOf(mails: seq<Mail>, line: string) {
    var n := Atoi(line);
    IsLine(line) && ValidMailNo(mails, n) && Atoi(BeforeBlank(line)) == n &&
    Number(AfterBlank(line)) == mails[n - 1].size && TwoNumerals(line)
  }

  predicate TwoNumerals(line: string) { Numeral(BeforeBlank(line)) && Numeral(Trimmed(AfterBlank(line))) }

  lemma {:induction false} LineParts(no: string, size: string, l: string)
    requires l == no + " " + size + "\r\n" && NoBlank(no) && NoBreak(no) && NoBreak(size)
    ensures IsLine(l) && BeforeBlank(l) == no && AfterBlank(l) == size + "\r\n" && l == no + (" " + (size + "\r\n"))
  {
    assert l == no + (" " + (size + "\r\n"));
    BlankBehind(no, size + "\r\n");
    assert l[|l| - 2..] == "\r\n" && l[..|l| - 2] == no + " " + size;
  }

  lemma {:induction false} ListLineRead(info: MailInfo)
    requires info.mailNo >= 0
    ensures var l := ListLine(info);
            IsLine(l) && l[0] != '.' && Atoi(l) == info.mailNo && Atoi(BeforeBlank(l)) == info.mailNo &&
            Number(AfterBlank(l)) == info.size && TwoNumerals(l)
  {
    var no, size := Dec(info.mailNo), Dec(info.size);
    NumberRead(info.mailNo, "");
    NumberRead(info.size, "\r\n");
    DecNumeral(info.mailNo);
    DecNumeral(info.size);
    assert Trimmed(size + "\r\n") == size;
    LineParts(no, size, ListLine(info));
    ArgumentRead(info.mailNo, "");
    ArgumentRead(info.mailNo, " " + (size + "\r\n"));
    assert no + "" == no;
  }

  /** A list of the mails from position `i` on that are not marked, by number. */
  ghost predicate Lists(mails: seq<Mail>, i: nat, l: seq<MailInfo>)
    requires |mails| < 0x8000_0000
  {
    (forall e :: e in l ==> i < e.mailNo && ValidMailNo(mails, e.mailNo) && e == InfoOf(mails, e.mailNo - 1)) &&
    (forall a, b :: 0 <= a < b < |l| ==> l[a].mailNo < l[b].mailNo) &&
    (forall n :: i < n && ValidMailNo(mails, n) ==> InfoOf(mails, n - 1) in l)
  }

  lemma {:induction false} ListsMore(mails: seq<Mail>, i: nat, l: seq<MailInfo>)
    requires i < |mails| < 0x8000_0000 && Lists(mails, i + 1, l)
    ensures if mails[i].toDelete then Lists(mails, i, l) else Lists(mails, i, [InfoOf(mails, i)] + l)
  {
    if !mails[i].toDelete {
      var more := [InfoOf(mails, i)] + l;
      forall a, b | 0 <= a < b < |more| ensures more[a].mailNo < more[b].mailNo {
        assert more[b] == l[b - 1];
      }
    }
  }

  lemma {:induction false} ListingLists(mails: seq<Mail>, i: nat)
    requires i <= |mails| < 0x8000_0000
    ensures Lists(mails, i, Listing(mails, i))
    decreases |mails| - i
  {
    if i < |mails| {
      ListingLists(mails, i + 1);
      ListsMore(mails, i, Listing(mails, i + 1));
      assert [] + Listing(mails, i + 1) == Listing(mails, i + 1);
    }
  }

  predicate Numbered(l: seq<MailInfo>) { forall k :: 0 <= k < |l| ==> l[k].mailNo >= 0 }

  lemma {:induction false} ListingNumbered(mails: seq<Mail>)
    requires |mails| < 0x8000_0000
    ensures Numbered(Listing(mails, 0))
  {
    ListingLists(mails, 0);
  }

  // ------------------------------------------------------------- all of LIST

  function EntryLines(l: seq<MailInfo>): (lines: seq<string>)
    ensures |lines| == |l| && forall k :: 0 <= k < |l| ==> lines[k] == ListLine(l[k])
    decreases |l|
  {
    if l == [] then [] else [ListLine(l[0])] + EntryLines(l[1..])
  }

  lemma {:induction false} LinesOfList(l: seq<MailInfo>)
    requires Numbered(l)
    ensures Lines(ListLines(l)) == EntryLines(l)
    decreases |l|
  {
    if l != [] {
      LinesOfList(l[1..]);
      ListLineRead(l[0]);
      LineFirst(ListLine(l[0]), ListLines(l[1..]));
    }
  }

  lemma {:induction false} EndLine()
    ensures ClientReads(true, false, LISTEND) == Some(Message("", ""))
  {
    assert LISTEND[3..] == "";
  }

  lemma {:induction false} ListBodyRead(l: seq<MailInfo>)
    requires Numbered(l)
    ensures ClientReads(true, false, ListLines(l) + LISTEND) == Some(Message(ListLines(l), ""))
    decreases |l|
  {
    if l == [] {
      EndLine();
      assert "" + LISTEND == LISTEND;
    } else {
      var line, rest := ListLine(l[0]), ListLines(l[1..]);
      ListBodyRead(l[1..]);
      ListLineRead(l[0]);
      LineRead(line, rest + LISTEND);
      assert line + rest + LISTEND == line + (rest + LISTEND);
    }
  }

  /** What the lines of a whole LIST say: one for every mail that is not marked,
      by increasing number. */
  ghost predicate TellsAll(mails: seq<Mail>, lines: seq<string>) {
    (forall k :: 0 <= k < |lines| ==> TellsOf(mails, lines[k])) &&
    (forall a, b :: 0 <= a < b < |lines| ==> Atoi(lines[a]) < Atoi(lines[b])) &&
    (forall n :: ValidMailNo(mails, n) ==> exists k :: 0 <= k < |lines| && Atoi(lines[k]) == n)
  }

  /** The sizes told, added up. */
  function Total(lines: seq<string>): int
    decreases |lines|
  {
    if lines == [] then 0 else Number(AfterBlank(lines[0])) + Total(lines[1..])
  }

  lemma {:induction false} EntryTells(mails: seq<Mail>, e: MailInfo)
    requires |mails| < 0x8000_0000 && e in Listing(mails, 0)
    ensures TellsOf(mails, ListLine(e)) && Atoi(ListLine(e)) == e.mailNo
  {
    ListingLists(mails, 0);
    ListLineRead(e);
  }

  lemma {:induction false} ListTells(mails: seq<Mail>)
    requires |mails| < 0x8000_0000
    ensures TellsAll(mails, EntryLines(Listing(mails, 0)))
  {
    var l := Listing(mails, 0);
    var lines := EntryLines(l);
    forall k | 0 <= k < |l| ensures TellsOf(mails, lines[k]) && Atoi(lines[k]) == l[k].mailNo {
      EntryTells(mails, l[k]);
    }
    ListingLists(mails, 0);
    NumbersTold(mails, l, lines);
  }

  lemma {:induction false} NumbersTold(mails: seq<Mail>, l: seq<MailInfo>, lines: seq<string>)
    requires |mails| < 0x8000_0000 && Lists(mails, 0, l) && |lines| == |l|
    requires forall k :: 0 <= k < |l| ==> Atoi(lines[k]) == l[k].mailNo
    ensures forall a, b :: 0 <= a < b < |lines| ==> Atoi(lines[a]) < Atoi(lines[b])
    ensures forall n :: ValidMailNo(mails, n) ==> exists k :: 0 <= k < |lines| && Atoi(lines[k]) == n
  {
    forall n | ValidMailNo(mails, n) ensures exists k :: 0 <= k < |lines| && Atoi(lines[k]) == n {
      var k :| 0 <= k < |l| && l[k] == InfoOf(mails, n - 1);
      assert Atoi(lines[k]) == n;
    }
  }

  lemma {:induction false} TotalIs(l: seq<MailInfo>)
    requires Numbered(l)
    ensures Total(EntryLines(l)) == SumSizes(l)
    decreases |l|
  {
    if l != [] {
      ListLineRead(l[0]);
      TotalIs(l[1..]);
    }
  }

  lemma {:induction false} HeaderRead(count: nat)
    ensures var h := ListHeader(count);
            SaysYes(h) && Number(AfterBlank(AfterBlank(AfterBlank(h)))) == count
  {
    var n, t := Dec(count), " messages available\r\n";
    NumberRead(count, t);
    HeaderBlanks(n, t);
    HeaderLine(n);
  }

  lemma {:induction false} HeaderBlanks(n: string, t: string)
    ensures AfterBlank(AfterBlank(AfterBlank("+OK There are " + n + t))) == n + t
  {
    var s := n + t;
    assert "+OK There are " + n + t == "+OK" + (" " + ("There are " + s));
    BlankBehind("+OK", "There are " + s);
    assert "There are " + s == "There" + (" " + ("are " + s));
    BlankBehind("There", "are " + s);
    assert "are " + s == "are" + (" " + s);
    BlankBehind("are", s);
  }

  lemma {:induction false} HeaderLine(n: string)
    requires NoBreak(n)
    ensures var h := "+OK There are " + n + " messages available\r\n"; SaysYes(h)
  {
    var h, w := "+OK There are " + n + " messages available\r\n", "+OK There are " + n + " messages available";
    assert h == w + "\r\n" && h[..|h| - 2] == w;
  }

  /** What a client reads in the reply to LIST without an argument: the number
      of lines, then the lines. */
  ghost predicate SaysLines(reply: string, lines: seq<string>) {
    match ReadOne(true, reply)
    case None => false
    case Some(x) =>
      x.rest == "" && SaysYes(x.first.status) && x.first.message.Some? &&
      Number(AfterBlank(AfterBlank(AfterBlank(x.first.status)))) == |lines| && Lines(x.first.message.value) == lines
  }

  lemma {:induction false} ListRead(mails: seq<Mail>)
    requires |mails| < 0x8000_0000
    ensures SaysLines(ListReply(mails), EntryLines(Listing(mails, 0)))
    ensures TellsAll(mails, EntryLines(Listing(mails, 0)))
  {
    var l := Listing(mails, 0);
    ListingNumbered(mails);
    ReplyRead(l, ListReply(mails));
    ListTells(mails);
  }

  lemma {:induction false} ReplyRead(l: seq<MailInfo>, reply: string)
    requires Numbered(l) && reply == ListHeader(|l|) + ListLines(l) + LISTEND
    ensures SaysLines(reply, EntryLines(l))
  {
    HeaderRead(|l|);
    LinesOfList(l);
    ListBodyRead(l);
    ReplyParts(ListHeader(|l|), ListLines(l), EntryLines(l), reply);
  }

  lemma {:induction false} ReplyParts(status: string, text: string, lines: seq<string>, reply: string)
    requires SaysYes(status) && Number(AfterBlank(AfterBlank(AfterBlank(status)))) == |lines|
    requires Lines(text) == lines && ClientReads(true, false, text + LISTEND) == Some(Message(text, ""))
    requires reply == status + text + LISTEND
    ensures SaysLines(reply, lines)
  {
    MessageResponse(status, text + LISTEND, text);
    assert reply == status + (text + LISTEND);
  }

  // ------------------------------------------------------------------- STAT

  lemma {:induction false} SumBounds(l: seq<MailInfo>)
    ensures -0x8000_0000_0000_0000 * |l| <= SumSizes(l) <= 0x8000_0000_0000_0000 * |l|
    decreases |l|
  {
    if l != [] { SumBounds(l[1..]); }
  }

  lemma {:induction false} LongDecLength(n: int)
    requires -0x8000_0000_0000_0000 * 0x8000_0000 <= n <= 0x8000_0000_0000_0000 * 0x8000_0000
    ensures |Dec(n)| <= 30
  {
    assert Pow10(5) == 100000;
    assert Pow10(10) == 10000000000;
    assert Pow10(15) == 1000000000000000;
    assert Pow10(20) == 100000000000000000000;
    assert Pow10(25) == 10000000000000000000000000;
    assert Pow10(29) == 100000000000000000000000000000;
    DecNatLength(if n < 0 then 0 - n else n, 29);
  }

  lemma {:induction false} StatParts(count: string, size: string, t: string)
    requires |count| <= 20 && |size| <= 30 && NoBlank(count) && NoBreak(count) && NoBreak(size)
    requires t == "+OK " + count + " " + size + "\r\n"
    ensures IsLine(t) && AfterBlank(t) == count + (" " + (size + "\r\n"))
    ensures AfterBlank(AfterBlank(t)) == size + "\r\n" && |t| < MAX_SINGLE_LINE_RESPONSE
  {
    var rest := size + "\r\n";
    assert t == "+OK" + (" " + (count + (" " + rest)));
    BlankBehind("+OK", count + (" " + rest));
    BlankBehind(count, rest);
    assert t[|t| - 2..] == "\r\n" && t[..|t| - 2] == "+OK " + count + " " + size;
  }

  lemma {:induction false} StatTextRead(count: int32, size: int)
    requires -0x8000_0000_0000_0000 * 0x8000_0000 <= size <= 0x8000_0000_0000_0000 * 0x8000_0000
    ensures var t := StatText(count, size);
            SaysYes(t) && Number(AfterBlank(t)) == count && Number(AfterBlank(AfterBlank(t))) == size
  {
    var t := "+OK " + Dec(count) + " " + Dec(size) + "\r\n";
    NumberRead(count, " " + (Dec(size) + "\r\n"));
    NumberRead(size, "\r\n");
    DecLength(count);
    LongDecLength(size);
    StatParts(Dec(count), Dec(size), t);
    assert t[..|t|] == t;
  }

  /** STAT says how many lines LIST has and what their sizes add up to. */
  lemma {:induction false} StatRead(mails: seq<Mail>)
    requires |mails| < 0x8000_0000
    ensures var l := Listing(mails, 0);
            var t := StatText(|l|, SumSizes(l));
            SaysYes(t) && Number(AfterBlank(t)) == |EntryLines(l)| &&
            Number(AfterBlank(AfterBlank(t))) == Total(EntryLines(l))
  {
    var l := Listing(mails, 0);
    ListingNumbered(mails);
    ListingTotals(mails, 0);
    CountBounds(mails);
    assert mails[..0] == [];
    SumBounds(l);
    SumFits(|l|, SumSizes(l));
    TotalIs(l);
    StatTextRead(|l|, SumSizes(l));
  }

  lemma {:induction false} SumFits(n: int, sum: int)
    requires 0 <= n < 0x8000_0000 && -0x8000_0000_0000_0000 * n <= sum <= 0x8000_0000_0000_0000 * n
    ensures -0x8000_0000_0000_0000 * 0x8000_0000 <= sum <= 0x8000_0000_0000_0000 * 0x8000_0000
  {}
}
