// When the end of a RETR or of a LIST goes wrong, said of the state before the
// call, and an input for each.

module EndMarker {
  import opened Standards
  import opened Stuffing
  import opened ByteStuff
  import opened Maildrop
  import opened Session
  import opened ClientModel
  import opened Yielding

  /** The state of the machine once it has seen all of `s`. */
  function StateAfter(state: ReadState, s: string): ReadState
    decreases |s|
  {
    if s == "" then state else StateAfter(After(state, s[0]), s[1..])
  }

  lemma {:induction false} NothingPending(s: Stuffer, n: nat)
    requires s.pending == ""
    ensures GetN(s, n).0.pending == ""
    decreases n
  {
    if n > 0 && ReadOne(s).1 > 0 { NothingPending(ReadOne(s).0, n - 1); }
  }

  /** The dot of a last line that is a lone dot is doubled at the end of the file. */
  lemma {:induction false} LastDot(state: ReadState, s: string)
    ensures StateAfter(state, s) == DOT ==> |StuffFrom(state, s)| >= |s| + 1
    decreases |s|
  {
    if s != "" { LastDot(After(state, s[0]), s[1..]); }
  }

  function Unread(r: RetrState): string
    requires r.current.Some? && r.current.value.offset <= |r.current.value.content|
  {
    r.current.value.content[r.current.value.offset..]
  }

  /** A call for `n` characters meets the end of the file. */
  predicate MeetsEnd(r: RetrState, n: nat)
    requires r.current.Some? && r.current.value.offset <= |r.current.value.content|
  {
    r.current.value.eof || |r.stuffer.pending| + |Unread(r)| < n
  }

  /** What is owed ends in a dot that no character of the file causes. */
  predicate OwesLastDot(r: RetrState)
    requires r.current.Some? && r.current.value.offset <= |r.current.value.content|
  {
    StateAfter(r.stuffer.state, r.stuffer.pending + Unread(r)) == DOT
  }

  lemma {:induction false} RefillMeetsEnd(r: RetrState, n: nat)
    requires CleanRetr(r) && RetrOk(r) && 0 < n <= BUFFERSIZE
    ensures var r0 := Refill(r, n);
            r0.current.value.eof == MeetsEnd(r, n) &&
            (MeetsEnd(r, n) ==> r0.stuffer.pending == r.stuffer.pending + Unread(r))
  {
    if n > |r.stuffer.pending| {
      var (f, data) := Fread(r.current.value, n - |r.stuffer.pending|);
      FreadSplits(r.current.value, n - |r.stuffer.pending|);
      AddKeepsRemaining(r.stuffer, data, "", f.eof);
      assert f.offset == |f.content| ==> f.content[f.offset..] == "";
    } else if r.current.value.eof {
      assert Unread(r) == "";
    }
  }

  /** A call reports the end exactly when it meets the end of the file and there
      is room for all that is owed, a last dot not counted. */
  lemma {:induction false} FinishedExactly(r: RetrState, n: nat)
    requires CleanRetr(r) && RetrOk(r) && 0 < n <= BUFFERSIZE
    ensures GetNChars(r, n).1 == FINISHED <==>
            MeetsEnd(r, n) && |Owed(r)| <= n + if OwesLastDot(r) then 1 else 0
  {
    var r0 := Refill(r, n);
    RefillMeetsEnd(r, n);
    RefillKeepsOwed(r, n);
    if MeetsEnd(r, n) {
      AllSeen(r0.stuffer, n);
      assert r0.stuffer.pending + "" == r0.stuffer.pending;
    }
  }

  lemma {:induction false} AllSeen(s: Stuffer, n: nat)
    requires Clean(s.pending) && s.eof
    ensures GetN(s, n).0.pending == "" <==>
            |StuffFrom(s.state, s.pending)| <= n + if StateAfter(s.state, s.pending) == DOT then 1 else 0
    decreases n
  {
    AtLeastPending(s.state, s.pending);
    LastDot(s.state, s.pending);
    if s.pending == "" {
      NothingPending(s, n);
    } else if n > 0 {
      var (s1, r) := ReadOne(s);
      OneSeen(s);
      AllSeen(s1, n - 1);
    }
  }

  lemma {:induction false} OneSeen(s: Stuffer)
    requires Clean(s.pending) && s.eof && s.pending != ""
    ensures var (s1, r) := ReadOne(s);
            r > 0 && Clean(s1.pending) && s1.eof &&
              StateAfter(s1.state, s1.pending) == StateAfter(s.state, s.pending) &&
            |StuffFrom(s.state, s.pending)| == 1 + |StuffFrom(s1.state, s1.pending)|
  {
    ReadOneEmits(s, "");
    assert s.pending + "" == s.pending;
    var s1 := ReadOne(s).0;
    assert s1.pending + "" == s1.pending;
    assert After(DOT, '\r') == After(NORMAL, '\r');
  }

  // ------------------------------------------------------------------ RETR

  /** The call that finishes a RETR loses the end marker exactly when it meets
      the end of the file with room for the mail but not for the five bytes. */
  lemma {:induction false} TightExactly(k: Cache, room: int)
    requires CacheOk(k) && CleanRetr(k.retr) && MAX_SINGLE_LINE_RESPONSE < room <= BUFFERSIZE
    ensures Tight(k, room) <==>
            MeetsEnd(k.retr, room) &&
              room - |TERMINATOR| < |Owed(k.retr)| <= room + if OwesLastDot(k.retr) then 1 else 0
  {
    TightMeans(k, room);
    FinishedExactly(k.retr, room);
  }

  /** A mail of `n` letters. */
  function Letters(n: nat): string {
    if n == 0 then "" else "a" + Letters(n - 1)
  }

  lemma {:induction false} LettersPlain(n: nat)
    ensures |Letters(n)| == n && Clean(Letters(n)) && StuffFrom(NORMAL, Letters(n)) == Letters(n)
  {
    if n > 0 {
      LettersPlain(n - 1);
      assert Letters(n)[1..] == Letters(n - 1) && Letters(n)[0] == 'a';
    }
  }

  /** A maildrop with one mail of `n` letters, opened for a RETR. */
  function OneMail(n: nat, marked: bool): Cache
    requires n < 0x8000_0000
  {
    Cache([Mail("mail", Letters(n), n, marked)], if marked then 1 else 0, 0, RetrState(None, FRESH))
  }

  /** With an empty output buffer, a mail of 487 to 490 letters is lost its end marker. */
  lemma {:induction false} LostEndMarker(n: nat)
    requires 487 <= n <= 490
    ensures var k := OneMail(n, false);
            CacheOk(k) && var (k1, text, status) := RetrAll(k, BUFFERSIZE, true, 1);
            status == FINISHED && text != RetrReply(Letters(n))
  {
    var k := OneMail(n, false);
    var content := Letters(n);
    LettersPlain(n);
    assert CountMarked(k.mails[..0]) == 0;
    RetrStarts(k, 1);
    var k0 := OpenMail(k, 1).0;
    var left := RetrLeft(BUFFERSIZE);
    RetrUnfolds(k, BUFFERSIZE, 1, k0, left);
    LettersOwed(k0, n);
    TightExactly(k0, left);
    RetrCall(k0, left, RETRFOLLOWS, content);
  }

  lemma {:induction false} LettersStuffed(n: nat)
    requires 0 < n
    ensures StuffFrom(NEWLINE, Letters(n)) == Letters(n)
  {
    LettersPlain(n - 1);
    assert Letters(n)[0] == 'a' && Letters(n)[1..] == Letters(n - 1);
    assert After(NEWLINE, 'a') == NORMAL;
  }

  lemma {:induction false} LettersOwed(k: Cache, n: nat)
    requires 0 < n < 491 && k.retr == RetrState(Some(File(Letters(n), 0, false)), FRESH)
    ensures |Owed(k.retr)| == n && MeetsEnd(k.retr, 491) && CleanRetr(k.retr)
  {
    LettersPlain(n);
    LettersStuffed(n);
    assert Unread(k.retr) == Letters(n) && "" + Letters(n) == Letters(n);
  }

  // ------------------------------------------------------------------ LIST

  /** With its only mail marked, LIST prints an entry that is not in the list. */
  lemma {:induction false} StaleEntry(junk: MailInfo)
    ensures var k := OneMail(3, true);
            CacheOk(k) && var (k1, text, status) := ListAll(k, BUFFERSIZE, true, junk);
            status == FINISHED && text != ListReply(k.mails)
  {
    var k := OneMail(3, true);
    assert CountMarked(k.mails[..0]) == 0;
    StaleRun(k.mails, ListLeft(k, BUFFERSIZE, true), junk);
    HeadFits(k, BUFFERSIZE, true);
    ListCall(k, BUFFERSIZE, true, junk, "");
    var text := ListAll(k, BUFFERSIZE, true, junk).1;
    assert "" + text == text;
  }

  lemma {:induction false} StaleRun(mails: seq<Mail>, room: int, junk: MailInfo)
    requires |mails| == 1 && mails[0].toDelete && room > 400
    ensures ContinueList(mails, 0, room, junk).0 == 1
  {
    LineLengths(junk, 0);
    assert NextFrom(mails, 1) == (1, None);
    assert NextFrom(mails, 0) == (1, None);
    assert ContinueList(mails, 1, room - |ListLine(junk)|, junk) == (1, []);
  }
}
