// The maildrop of one session, as values: deletion marks with their counter,
// the LIST iterator that skips marked mails, and the state of a RETR.

module Maildrop {
  import opened Standards
  import opened ByteStuff

  datatype ExecutionStatus = FINISHED | NOT_FINISHED | FAILED

  datatype Mail = Mail(filename: string, content: string, size: int64, toDelete: bool)

  datatype MailInfo = MailInfo(filename: string, mailNo: int32, size: int64)

  /** An open file: a read offset and the end-of-file indicator. */
  datatype File = File(content: string, offset: nat, eof: bool)

  datatype RetrState = RetrState(current: Option<File>, stuffer: Stuffer)

  /** `marked` is the explicit counter, `it` the LIST iterator. */
  datatype Cache = Cache(mails: seq<Mail>, marked: int, it: nat, retr: RetrState)

  // ------------------------------------------------------- deletion marks

  predicate ValidMailNo(mails: seq<Mail>, n: int) {
    0 < n <= |mails| && !mails[n - 1].toDelete
  }

  function CountMarked(mails: seq<Mail>): nat {
    if mails == [] then 0
    else CountMarked(mails[..|mails| - 1]) + (if mails[|mails| - 1].toDelete then 1 else 0)
  }

  function Mark(mails: seq<Mail>, n: int): seq<Mail>
    requires 0 < n <= |mails|
  {
    mails[n - 1 := mails[n - 1].(toDelete := true)]
  }

  function UnmarkAll(mails: seq<Mail>): (r: seq<Mail>)
    ensures |r| == |mails|
  {
    seq(|mails|, i requires 0 <= i < |mails| => mails[i].(toDelete := false))
  }

  /** The paths handed to unlink, in order. */
  function MarkedNames(mails: seq<Mail>): seq<string> {
    if mails == [] then []
    else MarkedNames(mails[..|mails| - 1]) +
         (if mails[|mails| - 1].toDelete then [mails[|mails| - 1].filename] else [])
  }

  /** `names` are those of the mails at the positions `idx`, in order. */
  ghost predicate Selects(names: seq<string>, mails: seq<Mail>, idx: seq<nat>) {
    |idx| == |names| && (forall a, b :: 0 <= a < b < |idx| ==> idx[a] < idx[b]) &&
    forall k :: 0 <= k < |idx| ==> idx[k] < |mails| && names[k] == mails[idx[k]].filename
  }

  /** `names` are those of the marked mails and of no others, in order, each once. */
  ghost predicate AreMarked(names: seq<string>, mails: seq<Mail>) {
    exists idx :: Selects(names, mails, idx) && forall i :: 0 <= i < |mails| ==> (i in idx <==> mails[i].toDelete)
  }

  function MarkedAt(mails: seq<Mail>): seq<nat> {
    if mails == [] then []
    else MarkedAt(mails[..|mails| - 1]) + (if mails[|mails| - 1].toDelete then [|mails| - 1] else [])
  }

  lemma {:induction false} SelectsMore(names: seq<string>, mails: seq<Mail>, idx: seq<nat>)
    requires mails != [] && Selects(names, mails[..|mails| - 1], idx)
    ensures Selects(names, mails, idx)
    ensures Selects(names + [mails[|mails| - 1].filename], mails, idx + [|mails| - 1])
  {}

  lemma {:induction false} MarkedSelects(mails: seq<Mail>)
    ensures Selects(MarkedNames(mails), mails, MarkedAt(mails)) && |MarkedNames(mails)| == CountMarked(mails)
    decreases |mails|
  {
    if mails == [] {
      assert Selects([], mails, []);
    } else {
      var k := |mails| - 1;
      MarkedSelects(mails[..k]);
      SelectsMore(MarkedNames(mails[..k]), mails, MarkedAt(mails[..k]));
      assert MarkedAt(mails[..k]) + [] == MarkedAt(mails[..k]);
      assert MarkedNames(mails[..k]) + [] == MarkedNames(mails[..k]);
    }
  }

  lemma {:induction false} MarkedPositions(mails: seq<Mail>)
    ensures forall i: nat :: i in MarkedAt(mails) <==> i < |mails| && mails[i].toDelete
    decreases |mails|
  {
    if mails != [] {
      var k := |mails| - 1;
      MarkedPositions(mails[..k]);
      forall i: nat ensures i in MarkedAt(mails) <==> i < |mails| && mails[i].toDelete {
        assert i < k ==> mails[..k][i] == mails[i];
      }
    }
  }

  /** What is unlinked is what is marked. */
  lemma {:induction false} MarkedNamesAre(mails: seq<Mail>)
    ensures AreMarked(MarkedNames(mails), mails) && |MarkedNames(mails)| == CountMarked(mails)
    ensures Selects(MarkedNames(mails), mails, MarkedAt(mails))
    ensures forall i :: 0 <= i < |mails| ==> (i in MarkedAt(mails) <==> mails[i].toDelete)
  {
    MarkedSelects(mails);
    MarkedPositions(mails);
  }

  function MarkMailToDelete(c: Cache, n: int): (Cache, bool) {
    if ValidMailNo(c.mails, n) then (c.(mails := Mark(c.mails, n), marked := c.marked + 1), true)
    else (c, false)
  }

  function ResetToDelete(c: Cache): Cache {
    c.(mails := UnmarkAll(c.mails), marked := 0)
  }

  function GetAmountOfMails(c: Cache): int { |c.mails| - c.marked }

  function SizeOfMails(mails: seq<Mail>): int {
    if mails == [] then 0
    else SizeOfMails(mails[..|mails| - 1]) +
         (if mails[|mails| - 1].toDelete then 0 else mails[|mails| - 1].size)
  }

  /** What every reachable cache satisfies. */
  ghost predicate CacheOk(c: Cache) {
    c.marked == CountMarked(c.mails) && |c.mails| < 0x8000_0000 && c.it <= |c.mails| && RetrOk(c.retr)
  }

  lemma {:induction false} CountAfterMark(mails: seq<Mail>, n: int)
    requires ValidMailNo(mails, n)
    ensures CountMarked(Mark(mails, n)) == CountMarked(mails) + 1
    decreases |mails|
  {
    var k := |mails| - 1;
    var marked := Mark(mails, n);
    if n - 1 == k {
      assert marked[..k] == mails[..k];
    } else {
      CountAfterMark(mails[..k], n);
      assert marked[..k] == Mark(mails[..k], n);
    }
  }

  lemma {:induction false} CountAfterReset(mails: seq<Mail>)
    ensures CountMarked(UnmarkAll(mails)) == 0
    decreases |mails|
  {
    if mails != [] {
      var k := |mails| - 1;
      assert UnmarkAll(mails)[..k] == UnmarkAll(mails[..k]);
      CountAfterReset(mails[..k]);
    }
  }

  lemma {:induction false} NoneMarked(mails: seq<Mail>)
    requires forall i :: 0 <= i < |mails| ==> !mails[i].toDelete
    ensures CountMarked(mails) == 0
    decreases |mails|
  {
    if mails != [] { NoneMarked(mails[..|mails| - 1]); }
  }

  lemma {:induction false} CountBounds(mails: seq<Mail>)
    ensures 0 <= CountMarked(mails) <= |mails|
    decreases |mails|
  {
    if mails != [] { CountBounds(mails[..|mails| - 1]); }
  }

  // ------------------------------------------- which mails are marked when

  datatype MarkOp = Dele(n: int) | Rset

  function ApplyOp(c: Cache, op: MarkOp): Cache {
    match op
    case Dele(n) => MarkMailToDelete(c, n).0
    case Rset => ResetToDelete(c)
  }

  function ApplyOps(c: Cache, ops: seq<MarkOp>): Cache {
    if ops == [] then c else ApplyOp(ApplyOps(c, ops[..|ops| - 1]), ops[|ops| - 1])
  }

  /** Mail `n` was asked to be deleted and no reset came later. */
  ghost predicate DeletedSinceReset(ops: seq<MarkOp>, n: int) {
    exists j :: 0 <= j < |ops| && ops[j] == Dele(n) && Rset !in ops[j..]
  }

  lemma {:induction false} MarksFollowOps(c: Cache, ops: seq<MarkOp>)
    requires CacheOk(c) && c.marked == 0
    requires forall i :: 0 <= i < |c.mails| ==> !c.mails[i].toDelete
    ensures var d := ApplyOps(c, ops);
            CacheOk(d) && |d.mails| == |c.mails| && d.retr == c.retr && d.it == c.it &&
            forall i :: 0 <= i < |c.mails| ==>
              d.mails[i] == c.mails[i].(toDelete := DeletedSinceReset(ops, i + 1))
    decreases |ops|
  {
    if ops == [] {
      forall i | 0 <= i < |c.mails| ensures c.mails[i] == c.mails[i].(toDelete := DeletedSinceReset(ops, i + 1)) {}
    } else {
      var k := |ops| - 1;
      var op := ops[k];
      MarksFollowOps(c, ops[..k]);
      var before := ApplyOps(c, ops[..k]);
      if op.Dele? && ValidMailNo(before.mails, op.n) {
        CountAfterMark(before.mails, op.n);
      }
      if op.Rset? {
        CountAfterReset(before.mails);
      }
      forall i | 0 <= i < |c.mails|
        ensures ApplyOps(c, ops).mails[i] == c.mails[i].(toDelete := DeletedSinceReset(ops, i + 1))
      {
        LastOp(ops, i + 1);
      }
    }
  }

  lemma {:induction false} LastOp(ops: seq<MarkOp>, n: int)
    requires ops != []
    ensures var k := |ops| - 1;
            DeletedSinceReset(ops, n) <==>
              ops[k] == Dele(n) || (ops[k] != Rset && DeletedSinceReset(ops[..k], n))
  {
    var k := |ops| - 1;
    assert ops[k..] == [ops[k]];
    if ops[k] != Rset && DeletedSinceReset(ops[..k], n) {
      var j :| 0 <= j < k && ops[..k][j] == Dele(n) && Rset !in ops[..k][j..];
      assert ops[j..] == ops[..k][j..] + [ops[k]];
    }
    if DeletedSinceReset(ops, n) {
      var j :| 0 <= j < |ops| && ops[j] == Dele(n) && Rset !in ops[j..];
      assert ops[k] in ops[j..];
      if j < k {
        assert ops[j..] == ops[..k][j..] + [ops[k]];
        assert ops[..k][j] == Dele(n);
      }
    }
  }

  // ------------------------------------------------------------- iteration

  function InfoOf(mails: seq<Mail>, i: nat): MailInfo
    requires i < |mails| < 0x8000_0000
  {
    MailInfo(mails[i].filename, i + 1, mails[i].size)
  }

  /** The unmarked mails from index `i` on. */
  function Listing(mails: seq<Mail>, i: nat): seq<MailInfo>
    requires i <= |mails| < 0x8000_0000
    decreases |mails| - i
  {
    if i == |mails| then []
    else (if mails[i].toDelete then [] else [InfoOf(mails, i)]) + Listing(mails, i + 1)
  }

  /** One call of `next`: the iterator after it and the entry, if there was one. */
  function NextFrom(mails: seq<Mail>, i: nat): (r: (nat, Option<MailInfo>))
    requires i <= |mails| < 0x8000_0000
    ensures i <= r.0 <= |mails| && (i < |mails| ==> i < r.0)
    decreases |mails| - i
  {
    if i == |mails| then (i, None)
    else if mails[i].toDelete then NextFrom(mails, i + 1)
    else (i + 1, Some(InfoOf(mails, i)))
  }

  lemma {:induction false} NextIsListing(mails: seq<Mail>, i: nat)
    requires i <= |mails| < 0x8000_0000
    ensures var (j, info) := NextFrom(mails, i);
            Listing(mails, i) == (if info.Some? then [info.value] else []) + Listing(mails, j) &&
            (info.None? ==> j == |mails|)
    decreases |mails| - i
  {
    if i < |mails| && mails[i].toDelete {
      NextIsListing(mails, i + 1);
    }
  }

  /** While there is an unmarked mail at the end, `next` cannot fail early. */
  lemma {:induction false} NextSucceeds(mails: seq<Mail>, i: nat)
    requires i < |mails| < 0x8000_0000 && !mails[|mails| - 1].toDelete
    ensures NextFrom(mails, i).1.Some?
    decreases |mails| - i
  {
    if mails[i].toDelete {
      NextSucceeds(mails, i + 1);
    }
  }

  /** Calling `next` until it fails. */
  function Drain(mails: seq<Mail>, i: nat): seq<MailInfo>
    requires i <= |mails| < 0x8000_0000
    decreases |mails| - i
  {
    var (j, info) := NextFrom(mails, i);
    if i == |mails| || info.None? then [] else [info.value] + Drain(mails, j)
  }

  function SumSizes(l: seq<MailInfo>): int {
    if l == [] then 0 else l[0].size + SumSizes(l[1..])
  }

  lemma {:induction false} DrainIsListing(mails: seq<Mail>, i: nat)
    requires i <= |mails| < 0x8000_0000
    ensures Drain(mails, i) == Listing(mails, i)
    decreases |mails| - i
  {
    var (j, info) := NextFrom(mails, i);
    NextIsListing(mails, i);
    if i < |mails| && info.Some? {
      DrainIsListing(mails, j);
    }
  }

  lemma {:induction false} ListingTotals(mails: seq<Mail>, i: nat)
    requires i <= |mails| < 0x8000_0000
    ensures |Listing(mails, i)| == |mails| - i - (CountMarked(mails) - CountMarked(mails[..i]))
    ensures SumSizes(Listing(mails, i)) == SizeOfMails(mails) - SizeOfMails(mails[..i])
    decreases |mails| - i
  {
    if i == |mails| {
      assert mails[..i] == mails;
    } else {
      ListingTotals(mails, i + 1);
      assert mails[..i + 1][..i] == mails[..i];
      var l := Listing(mails, i);
      if mails[i].toDelete {
        assert l == Listing(mails, i + 1);
      } else {
        assert l[1..] == Listing(mails, i + 1);
      }
    }
  }

  /** The counter, the iterator and the two totals agree: walking the maildrop
      yields as many entries as STAT counts, with the total size STAT reports. */
  lemma {:induction false} AccountingAgrees(c: Cache)
    requires CacheOk(c)
    ensures |Drain(c.mails, 0)| == GetAmountOfMails(c)
    ensures SumSizes(Drain(c.mails, 0)) == SizeOfMails(c.mails)
    ensures 0 <= GetAmountOfMails(c) <= |c.mails|
  {
    DrainIsListing(c.mails, 0);
    ListingTotals(c.mails, 0);
    CountBounds(c.mails);
    assert c.mails[..0] == [];
  }

  // ------------------------------------------------------------------ RETR

  function Fread(f: File, k: nat): (File, string)
    requires f.offset <= |f.content|
  {
    var n := Min(k, |f.content| - f.offset);
    (f.(offset := f.offset + n, eof := f.eof || n < k), f.content[f.offset..f.offset + n])
  }

  ghost predicate RetrOk(r: RetrState) {
    |r.stuffer.pending| <= BUFFERSIZE &&
    (r.current.Some? ==>
       var f := r.current.value;
       f.offset <= |f.content| && (f.eof ==> f.offset == |f.content|) && r.stuffer.eof == f.eof)
  }

  function OpenMail(c: Cache, n: int): (Cache, bool) {
    if ValidMailNo(c.mails, n)
    then (c.(retr := RetrState(Some(File(c.mails[n - 1].content, 0, false)), FRESH)), true)
    else (c, false)
  }

  function CloseMail(c: Cache): Cache { c.(retr := c.retr.(current := None)) }

  /** The refill of one call: ask the file for what is missing up to `n`. */
  function Refill(r: RetrState, n: nat): RetrState
    requires r.current.Some? && r.current.value.offset <= |r.current.value.content|
  {
    if n > |r.stuffer.pending| then
      var (f, data) := Fread(r.current.value, n - |r.stuffer.pending|);
      RetrState(Some(f), Add(r.stuffer, data, f.eof))
    else r
  }

  function GetNChars(r: RetrState, n: nat): (RetrState, ExecutionStatus, string)
    requires r.current.Some? && r.current.value.offset <= |r.current.value.content|
  {
    var r1 := Refill(r, n);
    var (s2, out) := GetN(r1.stuffer, n);
    (r1.(stuffer := s2), if r1.current.value.eof && s2.pending == "" then FINISHED else NOT_FINISHED, out)
  }

  ghost predicate CleanRetr(r: RetrState) {
    r.current.Some? && Clean(r.current.value.content) && Clean(r.stuffer.pending)
  }

  /** The stuffed text a RETR in state `r` still owes. */
  function Owed(r: RetrState): string
    requires r.current.Some? && r.current.value.offset <= |r.current.value.content|
  {
    Remaining(r.stuffer, r.current.value.content[r.current.value.offset..])
  }

  /** What is read always fits: nothing the file gave is dropped. */
  lemma {:induction false} ReadFits(r: RetrState, n: nat)
    requires r.current.Some? && RetrOk(r) && |r.stuffer.pending| < n <= BUFFERSIZE
    ensures var data := Fread(r.current.value, n - |r.stuffer.pending|).1;
            |r.stuffer.pending| + |data| <= BUFFERSIZE &&
            |Refill(r, n).stuffer.pending| == |r.stuffer.pending| + |data|
  {}

  lemma {:induction false} FreadSplits(f: File, k: nat)
    requires f.offset <= |f.content|
    ensures var (f1, data) := Fread(f, k);
            f.content[f.offset..] == data + f.content[f1.offset..] && (Clean(f.content) ==> Clean(data))
  {}

  lemma {:induction false} RefillKeepsOwed(r: RetrState, n: nat)
    requires CleanRetr(r) && RetrOk(r) && 0 < n <= BUFFERSIZE
    ensures var r1 := Refill(r, n);
            CleanRetr(r1) && RetrOk(r1) && Owed(r1) == Owed(r) && r1.stuffer.state == r.stuffer.state &&
            (r1.current.value.eof || |r1.stuffer.pending| >= n)
  {
    if n > |r.stuffer.pending| {
      var f0 := r.current.value;
      var (f, data) := Fread(f0, n - |r.stuffer.pending|);
      FreadSplits(f0, n - |r.stuffer.pending|);
      AddKeepsRemaining(r.stuffer, data, f0.content[f.offset..], f.eof);
    }
  }

  lemma {:induction false} AtLeastPending(state: ReadState, s: string)
    ensures |StuffFrom(state, s)| >= |s|
    decreases |s|
  {
    if s != "" { AtLeastPending(After(state, s[0]), s[1..]); }
  }

  /** One call on a clean mail emits the next characters owed.  If less than
      `n` was owed the call finishes the mail; and if it reports the end, then
      all was emitted, except perhaps a dot still pending when no room is left. */
  lemma {:induction false} GetNCharsEmits(r: RetrState, n: nat)
    requires CleanRetr(r) && RetrOk(r) && 0 < n <= BUFFERSIZE
    ensures var (r1, status, out) := GetNChars(r, n);
            CleanRetr(r1) && RetrOk(r1) && r1.current.value.content == r.current.value.content &&
            Owed(r) == out + Owed(r1) && |out| <= n && Clean(out) && status != FAILED &&
            (|Owed(r)| < n ==> status == FINISHED && Owed(r1) == "") &&
            (status == FINISHED ==> Owed(r1) == "" || (Owed(r1) == "." && |out| == n))
  {
    RefillKeepsOwed(r, n);
    var r0 := Refill(r, n);
    var unread := r0.current.value.content[r0.current.value.offset..];
    GetNEmits(r0.stuffer, n, unread);
    var (s1, out) := GetN(r0.stuffer, n);
    AtLeastPending(r0.stuffer.state, r0.stuffer.pending + unread);
    AtLeastPending(s1.state, s1.pending + unread);
    if r0.current.value.eof && s1.pending == "" {
      assert unread == "" && s1.pending + unread == "";
    }
  }

  /** The end marker of a RETR is CRLF.CRLF, five bytes: a call given `n` free
      bytes finishes with room for it exactly when what is owed leaves room. */
  lemma {:induction false} FinishesWithRoom(r: RetrState, n: nat)
    requires CleanRetr(r) && RetrOk(r) && 0 < n <= BUFFERSIZE
    ensures var (r1, status, out) := GetNChars(r, n);
            (status == FINISHED && |out| + 5 <= n) <==> |Owed(r)| + 5 <= n
    ensures |Owed(r)| + 5 <= n ==> GetNChars(r, n).2 == Owed(r)
  {
    GetNCharsEmits(r, n);
  }

  /** Work left in a RETR, for any bytes; a call that does not finish lowers it. */
  function RetrWork(r: RetrState): nat {
    Work(r.stuffer) +
    (if r.current.Some? && r.current.value.offset <= |r.current.value.content|
     then 2 * (|r.current.value.content| - r.current.value.offset) + (if r.current.value.eof then 0 else 1)
     else 0)
  }

  lemma {:induction false} GetNCharsWorks(r: RetrState, n: nat)
    requires r.current.Some? && RetrOk(r) && 0 < n <= BUFFERSIZE
    ensures var (r1, status, out) := GetNChars(r, n);
            RetrOk(r1) && r1.current.Some? && |out| <= n && Clean(out) && status != FAILED &&
            (status == NOT_FINISHED ==> RetrWork(r1) < RetrWork(r))
  {
    var r0 := Refill(r, n);
    GetNWorks(r0.stuffer, n);
    OnlyCleanOutput(r0.stuffer, n);
  }
}
