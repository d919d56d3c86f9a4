// LIST and RETR cut into calls: what one call adds, what is left, and when the
// pieces make up the whole reply.

module Yielding {
  import opened Standards
  import opened Stuffing
  import opened ByteStuff
  import opened Maildrop
  import opened Session
  import opened ClientModel

  // ------------------------------------------------------------------ LIST

  lemma {:induction false} LineLengths(info: MailInfo, count: int64)
    ensures |ListLine(info)| <= 43 && 0 < |ListLine(info)|
    ensures |ListHeader(count)| <= 55
  {
    DecLength(info.mailNo);
    DecLength(info.size);
    DecLength(count);
  }

  /** No mail at all, or the last one is not marked. */
  predicate LastUnmarked(mails: seq<Mail>) { mails == [] || !mails[|mails| - 1].toDelete }

  lemma {:induction false} LinesOf(l: seq<MailInfo>, m: seq<MailInfo>)
    ensures ListLines(l + m) == ListLines(l) + ListLines(m)
    decreases |l|
  {
    if l == [] {
      assert l + m == m;
    } else {
      assert (l + m)[1..] == l[1..] + m;
      LinesOf(l[1..], m);
    }
  }

  lemma {:induction false} LinesFirst(now: MailInfo, more: seq<MailInfo>)
    ensures |ListLines([now] + more)| == |ListLine(now)| + |ListLines(more)|
  {
    assert ([now] + more)[1..] == more;
  }

  /** `next` fails early only when the last mail is marked, and what it finds
      last is the last mail. */
  lemma {:induction false} NextAtEnd(mails: seq<Mail>, it: nat)
    requires it < |mails| < 0x8000_0000
    ensures var (j, found) := NextFrom(mails, it);
            if found == None then j == |mails| && !LastUnmarked(mails)
            else j == |mails| ==> LastUnmarked(mails)
    decreases |mails| - it
  {
    if mails[it].toDelete && it + 1 < |mails| { NextAtEnd(mails, it + 1); }
  }

  /** One round: `now` is printed, `left` is the room after it. */
  ghost predicate Round(mails: seq<Mail>, it: nat, room: int, info: MailInfo, j: nat, now: MailInfo, left: int) {
    it < |mails| < 0x8000_0000 && room > MAX_SINGLE_LINE_RESPONSE &&
    j == NextFrom(mails, it).0 && now == Printed(NextFrom(mails, it).1, info) &&
    left == room - |ListLine(now)|
  }

  lemma {:induction false} ContinueStep(mails: seq<Mail>, it: nat, room: int, info: MailInfo, j: nat, now: MailInfo,
                                        left: int)
    requires Round(mails, it, room, info, j, now, left)
    ensures var (k, more) := ContinueList(mails, j, left, now);
            it < j <= |mails| && |ListLine(now)| <= 43 &&
            ContinueList(mails, it, room, info) == (k, [now] + more)
  {
    LineLengths(now, 0);
  }

  /** What bounds one run of the loop of continueList. */
  ghost predicate RunFits(mails: seq<Mail>, it: nat, room: int, j: nat, used: nat) {
    it <= j <= |mails| && room - used >= Min(room, 86) &&
    (j < |mails| ==> room - used <= MAX_SINGLE_LINE_RESPONSE) &&
    (it < |mails| && room > MAX_SINGLE_LINE_RESPONSE ==> it < j)
  }

  /** The loop of continueList stops at the end of the maildrop or when little
      room is left, and never drops a line. */
  lemma {:induction false} ContinueListFits(mails: seq<Mail>, it: nat, room: int, info: MailInfo)
    requires it <= |mails| < 0x8000_0000
    ensures var (j, entries) := ContinueList(mails, it, room, info);
            RunFits(mails, it, room, j, |ListLines(entries)|)
    decreases |mails| - it, 1
  {
    if room > MAX_SINGLE_LINE_RESPONSE && it < |mails| {
      var (j, found) := NextFrom(mails, it);
      var now := Printed(found, info);
      FitsRound(mails, it, room, info, j, now, room - |ListLine(now)|);
    }
  }

  lemma {:induction false} FitsRound(mails: seq<Mail>, it: nat, room: int, info: MailInfo, j: nat, now: MailInfo,
                                     left: int)
    requires Round(mails, it, room, info, j, now, left)
    ensures var (k, entries) := ContinueList(mails, it, room, info);
            RunFits(mails, it, room, k, |ListLines(entries)|)
    decreases |mails| - it, 0
  {
    ContinueStep(mails, it, room, info, j, now, left);
    ContinueListFits(mails, j, left, now);
    var (k, more) := ContinueList(mails, j, left, now);
    LinesFirst(now, more);
    FitsStep(mails, it, room, j, k, left, |ListLines(more)|);
  }

  lemma {:induction false} FitsStep(mails: seq<Mail>, it: nat, room: int, j: nat, k: nat, left: int, used: nat)
    requires it < j <= |mails| && room > MAX_SINGLE_LINE_RESPONSE && room - 43 <= left <= room
    requires RunFits(mails, j, left, k, used)
    ensures RunFits(mails, it, room, k, room - left + used)
  {}

  /** The entry that is printed once more, if any, by the loop from `it` on. */
  function Extra(mails: seq<Mail>, it: nat, j: nat, stale: MailInfo): seq<MailInfo> {
    if j == |mails| && it < |mails| && !LastUnmarked(mails) then [stale] else []
  }

  /** What the loop adds is the next entries, each once, in order.  When the
      last mail is marked, the call that reaches the end adds one too many. */
  lemma {:induction false} ContinueListIs(mails: seq<Mail>, it: nat, room: int, info: MailInfo)
    returns (stale: MailInfo)
    requires it <= |mails| < 0x8000_0000
    ensures var (j, entries) := ContinueList(mails, it, room, info);
            it <= j <= |mails| &&
            entries + Listing(mails, j) == Listing(mails, it) + Extra(mails, it, j, stale)
    decreases |mails| - it, 1
  {
    stale := info;
    if room > MAX_SINGLE_LINE_RESPONSE && it < |mails| {
      var (j, found) := NextFrom(mails, it);
      var now := Printed(found, info);
      stale := RoundIs(mails, it, room, info, j, now, room - |ListLine(now)|);
    }
  }

  lemma {:induction false} RoundIs(mails: seq<Mail>, it: nat, room: int, info: MailInfo, j: nat, now: MailInfo,
                                   left: int) returns (stale: MailInfo)
    requires Round(mails, it, room, info, j, now, left)
    ensures var (k, entries) := ContinueList(mails, it, room, info);
            it <= k <= |mails| &&
            entries + Listing(mails, k) == Listing(mails, it) + Extra(mails, it, k, stale)
    decreases |mails| - it, 0
  {
    ContinueStep(mails, it, room, info, j, now, left);
    NextIsListing(mails, it);
    NextAtEnd(mails, it);
    stale := ContinueListIs(mails, j, left, now);
    if j == |mails| { stale := now; }
    var (k, more) := ContinueList(mails, j, left, now);
    if NextFrom(mails, it).1.Some? {
      EntriesStep(now, more, Listing(mails, k), Listing(mails, j), Extra(mails, j, k, stale));
    }
  }

  lemma {:induction false} EntriesStep(now: MailInfo, more: seq<MailInfo>, rest: seq<MailInfo>, mid: seq<MailInfo>,
                                       extra: seq<MailInfo>)
    requires more + rest == mid + extra
    ensures ([now] + more) + rest == ([now] + mid) + extra
  {
    assert ([now] + more) + rest == [now] + (more + rest);
    assert ([now] + mid) + extra == [now] + (mid + extra);
  }

  /** What has been said of a LIST that has yielded, together with what is left. */
  ghost predicate ListSaid(k: Cache, said: string)
    requires CacheOk(k)
  {
    said + ListLines(Listing(k.mails, k.it)) ==
      ListHeader(|Listing(k.mails, 0)|) + ListLines(Listing(k.mails, 0))
  }

  lemma {:induction false} HeadFits(k: Cache, room: int, first: bool)
    requires CacheOk(k) && room > MAX_SINGLE_LINE_RESPONSE
    ensures |ListHead(k, room, first)| <= 55
    ensures ListHead(k, room, first) == if first then ListHeader(|Listing(k.mails, 0)|) else ""
  {
    AccountingAgrees(k);
    DrainIsListing(k.mails, 0);
    LineLengths(MailInfo("", 0, 0), GetAmountOfMails(k));
  }

  /** The parts of one call of LIST. */
  ghost predicate ListParts(k: Cache, room: int, first: bool, head: string, it0: nat, left: int) {
    CacheOk(k) && room > MAX_SINGLE_LINE_RESPONSE &&
    head == ListHead(k, room, first) && it0 == (if first then 0 else k.it) && left == room - |head|
  }

  lemma {:induction false} ListAllIs(k: Cache, room: int, first: bool, junk: MailInfo, head: string, it0: nat,
                                     left: int)
    requires ListParts(k, room, first, head, it0, left)
    ensures var (it, entries) := ContinueList(k.mails, it0, left, junk);
            var body := head + ListLines(entries);
            |body| + 3 <= room && RunFits(k.mails, it0, left, it, |ListLines(entries)|) && left > 73 &&
            ListFrom(k, head, it0, left, junk) ==
              if it < |k.mails| then (k.(it := it), body, NOT_FINISHED) else (k.(it := it), body + LISTEND, FINISHED)
  {
    HeadFits(k, room, first);
    ContinueListFits(k.mails, it0, left, junk);
  }

  /** One call of LIST fits: header, lines and end marker are all queued, and it
      yields only with entries left and the iterator advanced. */
  lemma {:induction false} ListCallFits(k: Cache, room: int, first: bool, junk: MailInfo)
    requires CacheOk(k) && room > MAX_SINGLE_LINE_RESPONSE
    ensures var (k1, text, status) := ListAll(k, room, first, junk);
            |text| <= room && CacheOk(k1) && k1 == k.(it := k1.it) &&
            (status == FINISHED || status == NOT_FINISHED) &&
            (status == NOT_FINISHED ==> k1.it < |k1.mails| && (!first ==> k.it < k1.it))
  {
    var head := ListHead(k, room, first);
    var it0 := ListAt(k, first);
    var left := ListLeft(k, room, first);
    ListFromFits(k, room, first, junk, head, it0, left);
  }

  lemma {:induction false} ListFromFits(k: Cache, room: int, first: bool, junk: MailInfo, head: string, it0: nat,
                                        left: int)
    requires ListParts(k, room, first, head, it0, left)
    ensures var (k1, text, status) := ListFrom(k, head, it0, left, junk);
            |text| <= room && CacheOk(k1) && k1 == k.(it := k1.it) &&
            (status == FINISHED || status == NOT_FINISHED) &&
            (status == NOT_FINISHED ==> k1.it < |k1.mails| && (!first ==> k.it < k1.it))
  {
    ListAllIs(k, room, first, junk, head, it0, left);
  }

  /** One call of LIST, fresh or resumed.  When it finishes, the whole reply is
      what a client should get exactly if there is no mail or the last one is
      unmarked. */
  lemma {:induction false} ListCall(k: Cache, room: int, first: bool, junk: MailInfo, said: string)
    requires CacheOk(k) && room > MAX_SINGLE_LINE_RESPONSE
    requires if first then said == "" else ListSaid(k, said) && k.it < |k.mails|
    ensures var (k1, text, status) := ListAll(k, room, first, junk);
            CacheOk(k1) &&
            (status == NOT_FINISHED ==> ListSaid(k1, said + text)) &&
            (status == FINISHED ==> (said + text == ListReply(k.mails) <==> LastUnmarked(k.mails)))
  {
    var head := ListHead(k, room, first);
    var it0 := ListAt(k, first);
    var left := ListLeft(k, room, first);
    ListCallParts(k, room, first, junk, said, head, it0, left);
  }

  lemma {:induction false} ListCallParts(k: Cache, room: int, first: bool, junk: MailInfo, said: string,
                                         head: string, it0: nat, left: int)
    requires ListParts(k, room, first, head, it0, left)
    requires if first then said == "" else ListSaid(k, said) && k.it < |k.mails|
    ensures var (k1, text, status) := ListFrom(k, head, it0, left, junk);
            CacheOk(k1) &&
            (status == NOT_FINISHED ==> ListSaid(k1, said + text)) &&
            (status == FINISHED ==> (said + text == ListReply(k.mails) <==> LastUnmarked(k.mails)))
  {
    HeadFits(k, room, first);
    ListAllIs(k, room, first, junk, head, it0, left);
    var header, all := ListHeader(|Listing(k.mails, 0)|), ListLines(Listing(k.mails, 0));
    var from := ListLines(Listing(k.mails, it0));
    var stale := ContinueListIs(k.mails, it0, left, junk);
    var (j, entries) := ContinueList(k.mails, it0, left, junk);
    var extra := Extra(k.mails, it0, j, stale);
    LinesOf(entries, Listing(k.mails, j));
    LinesOf(Listing(k.mails, it0), extra);
    SaidFirst(said, head, from, header, all, first);
    Pieces(said, head, ListLines(entries), ListLines(Listing(k.mails, j)), from, ListLines(extra), header, all);
    if j == |k.mails| {
      Finish(said, head, ListLines(entries), header, all, ListLines(extra));
      ExtraShows(k.mails, it0, j, stale);
    }
  }

  lemma {:induction false} ExtraShows(mails: seq<Mail>, it: nat, j: nat, stale: MailInfo)
    ensures ListLines(Extra(mails, it, j, stale)) == "" <==> Extra(mails, it, j, stale) == []
  {
    LineLengths(stale, 0);
  }

  lemma {:induction false} SaidFirst(said: string, head: string, from: string, header: string, all: string, first: bool)
    requires if first then said == "" && head == header && from == all else head == "" && said + from == header + all
    ensures said + head + from == header + all
  {
    assert "" + head == head && said + "" == said;
  }

  lemma {:induction false} Pieces(said: string, head: string, body: string, rest: string, from: string, extra: string,
                                  header: string, all: string)
    requires body + rest == from + extra && said + head + from == header + all
    ensures said + (head + body) + rest == header + all + extra
    ensures extra == "" ==> said + (head + body) + rest == header + all
  {
    assert said + (head + body) + rest == said + head + (body + rest);
    assert said + head + (from + extra) == said + head + from + extra;
  }

  lemma {:induction false} Finish(said: string, head: string, body: string, header: string, all: string, extra: string)
    requires said + (head + body) + "" == header + all + extra
    ensures said + (head + body + LISTEND) == header + all + LISTEND <==> extra == ""
  {
    assert said + (head + body + LISTEND) == said + (head + body) + LISTEND;
    assert said + (head + body) + "" == said + (head + body);
    if extra == "" {
      assert header + all + "" == header + all;
    } else {
      assert |said + (head + body + LISTEND)| > |header + all + LISTEND|;
    }
  }

  // ------------------------------------------------------------------ RETR

  /** One call of a RETR fits the output buffer, emits only bytes 1..127, leaves
      the rest of the maildrop alone, and does some work unless it finishes. */
  lemma {:induction false} RetrCallFits(k: Cache, room: int)
    requires CacheOk(k) && k.retr.current.Some? && room <= BUFFERSIZE
    ensures var (k1, text, status) := ContinueRetr(k, room);
            (0 <= room ==> |text| <= room) && Clean(text) && CacheOk(k1) && k1 == k.(retr := k1.retr) &&
            (status == FINISHED || status == NOT_FINISHED) &&
            (status == NOT_FINISHED ==>
               k1.retr.current.Some? && k1.retr.current.value.content == k.retr.current.value.content &&
               (room > MAX_SINGLE_LINE_RESPONSE ==> RetrWork(k1.retr) < RetrWork(k.retr)) &&
               (room <= MAX_SINGLE_LINE_RESPONSE ==> k1 == k))
  {
    if room > MAX_SINGLE_LINE_RESPONSE {
      GetNCharsWorks(k.retr, room);
      var (r, status, text) := GetNChars(k.retr, room);
      CleanJoin(text, Put(room - |text|, TERMINATOR));
    }
  }

  lemma {:induction false} CleanJoin(a: string, b: string)
    requires Clean(a) && (Clean(b) || b == TERMINATOR)
    ensures Clean(a + b)
  {
    forall i | 0 <= i < |a + b| ensures 0 < Signed((a + b)[i]) {
      assert i >= |a| ==> (a + b)[i] == b[i - |a|];
    }
  }

  /** This call reports the end of the mail and leaves no room for the end marker. */
  predicate Tight(k: Cache, room: int)
    requires CacheOk(k) && k.retr.current.Some?
  {
    room > MAX_SINGLE_LINE_RESPONSE &&
    GetNChars(k.retr, room).1 == FINISHED && |GetNChars(k.retr, room).2| + |TERMINATOR| > room
  }

  /** What has been said of a RETR that has yielded, together with what it still owes. */
  ghost predicate RetrSaid(k: Cache, said: string, content: string)
    requires CacheOk(k)
  {
    CleanRetr(k.retr) && k.retr.current.value.content == content &&
    said + Owed(k.retr) == RETRFOLLOWS + Stuff(content)
  }

  /** One call of a RETR on a clean mail.  When it finishes, the whole reply is
      status line, stuffed mail and end marker exactly if the call is not tight. */
  lemma {:induction false} RetrCall(k: Cache, room: int, said: string, content: string)
    requires CacheOk(k) && RetrSaid(k, said, content) && room <= BUFFERSIZE
    ensures var (k1, text, status) := ContinueRetr(k, room);
            CacheOk(k1) &&
            (status == NOT_FINISHED ==> RetrSaid(k1, said + text, content)) &&
            (status == FINISHED ==> (said + text == RetrReply(content) <==> !Tight(k, room)))
  {
    RetrCallFits(k, room);
    if room > MAX_SINGLE_LINE_RESPONSE {
      GetNCharsEmits(k.retr, room);
      var (r, status, out) := GetNChars(k.retr, room);
      assert said + (out + Owed(r)) == (said + out) + Owed(r);
      if status == FINISHED {
        RetrEnd(said, out, Owed(r), content, room);
      }
    } else {
      assert said + "" == said;
    }
  }

  lemma {:induction false} RetrEnd(said: string, out: string, owed: string, content: string, room: int)
    requires (said + out) + owed == RETRFOLLOWS + Stuff(content) && |out| <= room
    requires owed == "" || (owed == "." && |out| == room)
    ensures said + (out + Put(room - |out|, TERMINATOR)) == RetrReply(content) <==> |out| + |TERMINATOR| <= room
  {
    var end := Put(room - |out|, TERMINATOR);
    assert said + (out + end) == (said + out) + end;
    assert |RetrReply(content)| == |said + out| + |owed| + |TERMINATOR|;
    if end == TERMINATOR {
      assert (said + out) + "" == said + out;
    }
  }

  /** For a clean mail, in terms of what is owed before the call. */
  lemma {:induction false} TightMeans(k: Cache, room: int)
    requires CacheOk(k) && CleanRetr(k.retr) && MAX_SINGLE_LINE_RESPONSE < room <= BUFFERSIZE
    ensures Tight(k, room) <==> GetNChars(k.retr, room).1 == FINISHED && |Owed(k.retr)| + |TERMINATOR| > room
    ensures |Owed(k.retr)| + |TERMINATOR| <= room ==> GetNChars(k.retr, room).1 == FINISHED
  {
    FinishesWithRoom(k.retr, room);
  }

  lemma {:induction false} StuffKeepsDirt(atStart: bool, s: string)
    requires !Clean(s)
    ensures !Clean(StuffText(atStart, s))
    decreases |s|
  {
    var i :| 0 <= i < |s| && Signed(s[i]) <= 0;
    var lone := atStart && LoneDotFirst(s);
    var head := if lone then ".." else [s[0]];
    var rest := StuffText(!lone && s[0] == '\n', s[1..]);
    assert StuffText(atStart, s) == head + rest;
    if i == 0 {
      assert StuffText(atStart, s)[0] == s[0];
    } else {
      assert s[1..][i - 1] == s[i];
      StuffKeepsDirt(!lone && s[0] == '\n', s[1..]);
      var j :| 0 <= j < |rest| && Signed(rest[j]) <= 0;
      assert (head + rest)[|head| + j] == rest[j];
    }
  }

  /** A mail with a byte outside 1..127 is never delivered as it should be. */
  lemma {:induction false} DirtyMailLost(content: string, reply: string)
    requires !Clean(content) && Clean(reply)
    ensures reply != RetrReply(content)
  {
    StuffKeepsDirt(true, content);
    var s := Stuff(content);
    var j :| 0 <= j < |s| && Signed(s[j]) <= 0;
    assert RetrReply(content)[|RETRFOLLOWS| + j] == s[j];
  }

  lemma {:induction false} RetrUnfolds(k: Cache, room: int, n: int, k0: Cache, left: int)
    requires CacheOk(k) && OpenMail(k, n) == (k0, true) && left == RetrLeft(room) && CacheOk(k0)
    ensures k0.retr.current.Some?
    ensures var (k1, body, status) := ContinueRetr(k0, left);
            RetrAll(k, room, true, n) == (k1, Put(room, RETRFOLLOWS) + body, status)
  {}

  /** A RETR that has just opened its mail owes all of it. */
  lemma {:induction false} RetrStarts(k: Cache, n: int)
    requires CacheOk(k) && ValidMailNo(k.mails, n)
    ensures var (k0, ok) := OpenMail(k, n);
            ok && CacheOk(k0) && k0.retr.current.Some? && k0.retr.current.value.content == k.mails[n - 1].content &&
            k0 == k.(retr := k0.retr) &&
            (Clean(k.mails[n - 1].content) ==> RetrSaid(k0, RETRFOLLOWS, k.mails[n - 1].content))
  {
    var content := k.mails[n - 1].content;
    assert content[0..] == content && "" + content == content;
    MachineIsLineRule(NEWLINE, content);
  }
}
