// The command handlers on the parts of a slot that they touch: the output
// buffer and the maildrop.

module PopFunctions {
  import opened Standards
  import opened Stuffing
  import opened CircularBuffer
  import opened Maildrop
  import opened MailsCache
  import opened Session
  import opened ClientModel
  import opened Yielding

  function Room(text: string): int { BUFFERSIZE - |text| }

  /** All of `text` or, when it does not fit, nothing. */
  method WriteToOutputBuffer(text: string, out: Buffer) returns (ok: bool)
    requires out.Valid()
    modifies out, out.data
    ensures out.Valid() && out.Contents() == old(out.Contents()) + Put(Room(old(out.Contents())), text)
    ensures ok <==> |text| <= Room(old(out.Contents()))
  {
    var free := out.GetBufferFreeSpace();
    if free >= |text| {
      var fatal := out.WriteDataToBuffer(text);
      assert !fatal;
      return true;
    }
    assert out.Contents() + "" == out.Contents();
    return false;
  }

  /** CRLF.CRLF after a RETR, .CRLF after a LIST. */
  method SendTerminationCRLF(out: Buffer, addInitialCRLF: bool)
    requires out.Valid()
    modifies out, out.data
    ensures out.Valid()
    ensures out.Contents() ==
              old(out.Contents()) + Put(Room(old(out.Contents())), if addInitialCRLF then TERMINATOR else LISTEND)
  {
    var message := if addInitialCRLF then TERMINATOR else LISTEND;
    var _ := WriteToOutputBuffer(message, out);
  }

  // ------------------------------------------------------------------ LIST

  method ContinueListing(cache: MailCache, out: Buffer, junk: MailInfo) returns (status: ExecutionStatus)
    requires cache.Valid() && out.Valid() && out.data !in cache.Repr()
    modifies cache`listIterator, out, out.data
    ensures cache.Valid() && out.Valid()
    ensures var (j, entries) := old(ContinueList(cache.Abs().mails, cache.Abs().it, Room(out.Contents()), junk));
            cache.Abs() == old(cache.Abs()).(it := j) &&
            out.Contents() == old(out.Contents()) + ListLines(entries) &&
            status == if j < cache.mails.Length then NOT_FINISHED else FINISHED
  {
    var info := junk;
    ghost var mails := cache.Abs().mails;
    ghost var goal := ContinueList(mails, cache.listIterator, Room(out.Contents()), junk);
    ghost var said := "";
    assert out.Contents() + "" == out.Contents();
    while out.GetBufferFreeSpace() > MAX_SINGLE_LINE_RESPONSE && cache.HasNext()
      invariant cache.Valid() && out.Valid() && cache.Abs() == old(cache.Abs()).(it := cache.listIterator)
      invariant out.Contents() == old(out.Contents()) + said
      invariant var (j, more) := ContinueList(mails, cache.listIterator, Room(out.Contents()), info);
                goal.0 == j && ListLines(goal.1) == said + ListLines(more)
      decreases cache.mails.Length - cache.listIterator
    {
      ghost var it, room, was := cache.listIterator, Room(out.Contents()), info;
      var found;
      found, info := cache.Next(info);
      // the return value is never negative, so the entry is printed either way
      var _ := WriteToOutputBuffer(ListLine(info), out);
      ListingStep(mails, it, room, was, cache.listIterator, info, Room(out.Contents()), said);
      Regroup(old(out.Contents()), said, ListLine(info));
      said := said + ListLine(info);
    }
    assert said + "" == said;
    var more := cache.HasNext();
    return if more then NOT_FINISHED else FINISHED;
  }

  lemma {:induction false} Regroup(base: string, said: string, line: string)
    ensures base + said + line == base + (said + line)
  {}

  /** One round of the loop, with its text behind `said`. */
  lemma {:induction false} ListingStep(mails: seq<Mail>, it: nat, room: int, info: MailInfo, j: nat, now: MailInfo,
                                       left: int, said: string)
    requires it < |mails| < 0x8000_0000 && room > MAX_SINGLE_LINE_RESPONSE
    requires j == NextFrom(mails, it).0 && now == Printed(NextFrom(mails, it).1, info)
    requires left == room - |Put(room, ListLine(now))|
    ensures Put(room, ListLine(now)) == ListLine(now)
    ensures var (k, more) := ContinueList(mails, j, left, now);
            ContinueList(mails, it, room, info).0 == k &&
            said + ListLines(ContinueList(mails, it, room, info).1) == said + ListLine(now) + ListLines(more)
  {
    LineLengths(now, 0);
    ContinueStep(mails, it, room, info, j, now, left);
    LineBehind(said, now, ContinueList(mails, j, left, now).1);
  }

  lemma {:induction false} LineBehind(said: string, now: MailInfo, more: seq<MailInfo>)
    ensures said + ListLines([now] + more) == said + ListLine(now) + ListLines(more)
  {
    assert ([now] + more)[1..] == more;
    Assoc(said, ListLine(now), ListLines(more));
  }

  lemma {:induction false} Assoc(a: string, b: string, c: string)
    ensures a + b + c == a + (b + c)
  {}

  /** LIST without argument; `first` when it is not being resumed. */
  method ListWithNoArguments(cache: MailCache, out: Buffer, first: bool, junk: MailInfo)
    returns (status: ExecutionStatus)
    requires cache.Valid() && out.Valid() && out.data !in cache.Repr()
    modifies cache`listIterator, out, out.data
    ensures cache.Valid() && out.Valid()
    ensures var (k, text, st) := old(ListAll(cache.Abs(), Room(out.Contents()), first, junk));
            cache.Abs() == k && out.Contents() == old(out.Contents()) + text && status == st
  {
    ghost var base, k := out.Contents(), cache.Abs();
    ghost var head := ListHead(k, Room(base), first);
    if first {
      var _ := WriteToOutputBuffer(ListHeader(cache.AmountOfMails()), out);
      cache.ToBegin();
    } else {
      assert base + "" == base;
    }
    ghost var left := Room(out.Contents());
    ListUnfolds(k, Room(base), first, junk, cache.listIterator, left);
    status := ListOn(cache, out, junk, k, base, head);
  }

  lemma {:induction false} ListUnfolds(k: Cache, room: int, first: bool, junk: MailInfo, it0: nat, left: int)
    requires CacheOk(k) && it0 == ListAt(k, first) && left == ListLeft(k, room, first)
    ensures ListAll(k, room, first, junk) == ListFrom(k, ListHead(k, room, first), it0, left, junk)
  {}

  /** continueList and, when the maildrop is through, the end marker. */
  method ListOn(cache: MailCache, out: Buffer, junk: MailInfo, ghost k: Cache, ghost base: string, ghost head: string)
    returns (status: ExecutionStatus)
    requires cache.Valid() && out.Valid() && out.data !in cache.Repr()
    requires CacheOk(k) && cache.Abs() == k.(it := cache.listIterator) && out.Contents() == base + head
    modifies cache`listIterator, out, out.data
    ensures cache.Valid() && out.Valid()
    ensures var (k1, text, st) := ListFrom(k, head, old(cache.listIterator), Room(base + head), junk);
            cache.Abs() == k1 && out.Contents() == base + text && status == st
  {
    ghost var left := Room(base + head);
    ghost var body := ListLines(ContinueList(k.mails, cache.listIterator, left, junk).1);
    status := ContinueListing(cache, out, junk);
    if status == FINISHED {
      SendTerminationCRLF(out, false);
    }
    ListJoin(base, head, body, Put(left - |body|, LISTEND));
  }

  lemma {:induction false} ListJoin(base: string, head: string, body: string, end: string)
    ensures base + head + body == base + (head + body)
    ensures base + head + body + end == base + (head + body + end)
  {}

  method ListWithArgument(cache: MailCache, out: Buffer, mailNo: string, junk: MailInfo)
    returns (status: ExecutionStatus)
    requires cache.Valid() && out.Valid() && out.data !in cache.Repr()
    modifies out, out.data
    ensures cache.Valid() && out.Valid() && cache.Abs() == old(cache.Abs())
    ensures var mails, n := cache.Abs().mails, Atoi(mailNo);
            status == (if ValidMailNo(mails, n) then FINISHED else FAILED) &&
            out.Contents() == old(out.Contents()) +
              Put(Room(old(out.Contents())),
                  if ValidMailNo(mails, n) then "+OK " + ListLine(InfoOf(mails, n - 1)) else NOSUCHMESSAGE)
  {
    var found, info := cache.GetMailInfo(Atoi(mailNo), junk);
    var text := if found then "+OK " + ListLine(info) else NOSUCHMESSAGE;
    status := if found then FINISHED else FAILED;
    var _ := WriteToOutputBuffer(text, out);
  }

  // ------------------------------------------------------------------ RETR

  /** `dest[..n]` up to its first NUL is all of it when it holds none. */
  lemma {:induction false} NoNul(s: string)
    requires Clean(s)
    ensures NUL !in s
  {
    forall i | 0 <= i < |s| ensures s[i] != NUL { assert 0 < Signed(s[i]); }
  }

  /** continueRetr without its end: the text goes out as a C string. */
  method ContinueRetrieving(cache: MailCache, out: Buffer, ghost k: Cache, ghost base: string)
    returns (status: ExecutionStatus)
    requires cache.Valid() && out.Valid() && out.data !in cache.Repr() && k.retr.current.Some?
    requires cache.Abs() == k && out.Contents() == base
    modifies cache.Repr(), out, out.data
    ensures cache.Valid() && out.Valid()
    ensures var room := Room(base);
            if room > MAX_SINGLE_LINE_RESPONSE then
              var (r, st, text) := GetNChars(k.retr, room);
              cache.Abs() == k.(retr := r) && out.Contents() == base + Put(room, text) && status == st
            else cache.Abs() == k && out.Contents() == base && status == NOT_FINISHED
  {
    var characters := out.GetBufferFreeSpace();
    status := NOT_FINISHED;
    if characters > MAX_SINGLE_LINE_RESPONSE {
      var text;
      status, text := ReadChars(cache, out, characters, k);
      var _ := WriteToOutputBuffer(text, out);
    }
  }

  /** getNCharsFromMail into a buffer of its own. */
  method ReadChars(cache: MailCache, out: Buffer, characters: nat, ghost k: Cache)
    returns (status: ExecutionStatus, text: string)
    requires cache.Valid() && cache.Abs() == k && k.retr.current.Some? && characters > 0
    requires out.Valid() && out.data !in cache.Repr()
    modifies cache.Repr()
    ensures cache.Valid() && out.Valid() && out.Contents() == old(out.Contents())
    ensures var (r, st, t) := GetNChars(k.retr, characters);
            cache.Abs() == k.(retr := r) && status == st && text == t && NUL !in text
  {
    var buffer := new char[characters + 1];
    var copied;
    status, copied := cache.GetNCharsFromMail(characters, buffer);
    text := buffer[..copied];
    GetNCharsClean(k.retr, characters);
    NoNul(text);
  }

  lemma {:induction false} GetNCharsClean(r: RetrState, n: nat)
    requires r.current.Some? && RetrOk(r)
    ensures Clean(GetNChars(r, n).2)
  {
    ByteStuff.OnlyCleanOutput(Refill(r, n).stuffer, n);
  }

  /** retr, fresh or resumed. */
  method Retrieve(cache: MailCache, out: Buffer, first: bool, mailNoString: string) returns (status: ExecutionStatus)
    requires cache.Valid() && out.Valid() && out.data !in cache.Repr() && (!first ==> cache.currentMail.Some?)
    modifies cache.Repr(), out, out.data
    ensures cache.Valid() && out.Valid()
    ensures var (k, text, st) := old(RetrAll(cache.Abs(), Room(out.Contents()), first, Atoi(mailNoString)));
            cache.Abs() == k && out.Contents() == old(out.Contents()) + text && status == st
  {
    if first {
      status := OpenAndRetrieve(cache, out, mailNoString);
    } else {
      status := RetrieveOn(cache, out);
    }
  }

  method OpenAndRetrieve(cache: MailCache, out: Buffer, mailNoString: string) returns (status: ExecutionStatus)
    requires cache.Valid() && out.Valid() && out.data !in cache.Repr()
    modifies cache.Repr(), out, out.data
    ensures cache.Valid() && out.Valid()
    ensures var (k, text, st) := old(RetrAll(cache.Abs(), Room(out.Contents()), true, Atoi(mailNoString)));
            cache.Abs() == k && out.Contents() == old(out.Contents()) + text && status == st
  {
    ghost var base, k := out.Contents(), cache.Abs();
    var openStatus := cache.OpenMailFile(Atoi(mailNoString));
    if openStatus == FAILED {
      var _ := WriteToOutputBuffer(NOSUCHMAIL, out);
      return FAILED;
    }
    var _ := WriteToOutputBuffer(RETRFOLLOWS, out);
    ghost var k0, left := cache.Abs(), Room(out.Contents());
    ghost var head := Put(Room(base), RETRFOLLOWS);
    RetrUnfolds(k, Room(base), Atoi(mailNoString), k0, left);
    status := RetrieveOn(cache, out);
    Regroup(base, head, ContinueRetr(k0, left).1);
  }

  /** continueRetr and, when the mail is through, the end marker. */
  method RetrieveOn(cache: MailCache, out: Buffer) returns (status: ExecutionStatus)
    requires cache.Valid() && out.Valid() && out.data !in cache.Repr() && cache.currentMail.Some?
    modifies cache.Repr(), out, out.data
    ensures cache.Valid() && out.Valid()
    ensures var (k, text, st) := old(ContinueRetr(cache.Abs(), Room(out.Contents())));
            cache.Abs() == k && out.Contents() == old(out.Contents()) + text && status == st
  {
    ghost var base, k, room := out.Contents(), cache.Abs(), Room(out.Contents());
    status := ContinueRetrieving(cache, out, k, base);
    ghost var body := out.Contents()[|base|..];
    assert out.Contents() == base + body;
    if status == FINISHED {
      SendTerminationCRLF(out, true);
      var _ := cache.CloseMailFile();
      Regroup(base, body, Put(room - |body|, TERMINATOR));
    } else {
      assert base + "" == base;
    }
  }
}
