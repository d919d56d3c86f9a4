// The streaming byte stuffer: a four-state machine over a bounded buffer that
// can emit a character without consuming one, and that flushes a pending dot
// at the end of the file.

module ByteStuff {
  import opened Standards
  import opened Stuffing

  datatype ReadState = NEWLINE | DOT | NORMAL | CR

  /** The value of a charactersProcessor: `pending` is buffer[idx..len]. */
  datatype Stuffer = Stuffer(state: ReadState, pending: string, eof: bool)

  const FRESH := Stuffer(NEWLINE, "", false)

  function After(state: ReadState, c: char): ReadState {
    if c == '\r' then CR
    else if c == '\n' then NEWLINE
    else if c == '.' && state == NEWLINE then DOT
    else NORMAL
  }

  /** One read: the new value and the `int` that is returned. */
  function ReadOne(s: Stuffer): (Stuffer, int) {
    if s.pending == "" then
      if s.eof && s.state == DOT then (s.(state := NORMAL), '.' as int) else (s, 0)
    else
      var c := s.pending[0];
      if s.state == DOT && c == '\r' then (s.(state := NORMAL), '.' as int)
      else (s.(state := After(s.state, c), pending := s.pending[1..]), Signed(c))
  }

  /** Up to `n` reads, stopping at the first value that is not positive. */
  function GetN(s: Stuffer, n: nat): (Stuffer, string)
    decreases n
  {
    if n == 0 then (s, "")
    else
      var (s1, r) := ReadOne(s);
      if r <= 0 then (s1, "")
      else
        var (s2, out) := GetN(s1, n - 1);
        (s2, [r as char] + out)
  }

  /** `strncpy`: once a NUL was copied the rest is filled with NULs. */
  function StrNCpy(s: string): (t: string)
    ensures |t| == |s|
  {
    seq(|s|, i requires 0 <= i < |s| => if NUL in s[..i] then NUL else s[i])
  }

  lemma {:induction false} StrNCpyClean(s: string)
    requires Clean(s)
    ensures StrNCpy(s) == s
  {
    forall i | 0 <= i < |s| ensures StrNCpy(s)[i] == s[i] {
      assert NUL !in s[..i];
    }
  }

  function Add(s: Stuffer, data: string, eof: bool): Stuffer {
    var room := BUFFERSIZE - |s.pending|;
    var toAdd := if room < 0 then 0 else Min(room, |data|);
    s.(pending := s.pending + StrNCpy(data[..toAdd]), eof := eof)
  }

  // ------------------------------------------------------- one-shot meaning

  /** Everything the machine will still emit when it has yet to see `s`. */
  function StuffFrom(state: ReadState, s: string): string
    decreases |s|
  {
    if s == "" then (if state == DOT then "." else "")
    else (if state == DOT && s[0] == '\r' then "." else "") + [s[0]] + StuffFrom(After(state, s[0]), s[1..])
  }

  /** The text that is still to come, `unread` being what was never added. */
  function Remaining(s: Stuffer, unread: string): string { StuffFrom(s.state, s.pending + unread) }

  /** The machine computes the line rule. */
  lemma {:induction false} MachineIsLineRule(state: ReadState, s: string)
    requires state != DOT
    ensures StuffFrom(state, s) == StuffText(state == NEWLINE, s)
    decreases |s|
  {
    if s != "" {
      var next := After(state, s[0]);
      if next != DOT {
        MachineIsLineRule(next, s[1..]);
      } else if s[1..] != "" {
        var t := s[1..];
        assert s[1] == t[0] && t[1..] == s[2..];
        MachineIsLineRule(After(DOT, t[0]), t[1..]);
        assert StuffText(false, t) == [t[0]] + StuffText(t[0] == '\n', t[1..]);
      }
    }
  }

  lemma {:induction false} ReadOneEmits(s: Stuffer, unread: string)
    requires Clean(s.pending) && (s.eof ==> unread == "")
    ensures var (s1, r) := ReadOne(s);
            Clean(s1.pending) && s1.eof == s.eof && |s1.pending| <= |s.pending| &&
            (if r > 0 then r < 128 && Remaining(s, unread) == [r as char] + Remaining(s1, unread)
             else s1 == s && s.pending == "" && (s.eof ==> Remaining(s, unread) == ""))
  {
    var (s1, r) := ReadOne(s);
    if s.pending != "" {
      var whole := s.pending + unread;
      assert Signed(s.pending[0]) > 0;
      assert whole[0] == s.pending[0] && whole[1..] == s.pending[1..] + unread;
      forall i | 0 <= i < |s1.pending| ensures 0 < Signed(s1.pending[i]) {
        assert s1.pending[i] == s.pending[i + |s.pending| - |s1.pending|];
      }
      if s.state == DOT && whole[0] == '\r' {
        assert StuffFrom(DOT, whole) == "." + ([whole[0]] + StuffFrom(CR, whole[1..]));
        assert StuffFrom(NORMAL, whole) == [whole[0]] + StuffFrom(CR, whole[1..]);
      } else {
        assert StuffFrom(s.state, whole) == [whole[0]] + StuffFrom(After(s.state, whole[0]), whole[1..]);
      }
    } else {
      assert s.pending + unread == unread;
      if s.eof && s.state == DOT {
        assert Remaining(s, unread) == "." + "";
      }
    }
  }

  lemma {:induction false} EmittedFirst(c: char, out: string, rest: string)
    ensures [c] + (out + rest) == ([c] + out) + rest
    ensures 0 < Signed(c) && Clean(out) ==> Clean([c] + out)
  {}

  /** However the work is cut into calls, nothing is lost, repeated or
      reordered: what a call emits is the next part of what was to come. */
  lemma {:induction false} GetNEmits(s: Stuffer, n: nat, unread: string)
    requires Clean(s.pending) && (s.eof ==> unread == "")
    ensures var (s1, out) := GetN(s, n);
            Clean(s1.pending) && s1.eof == s.eof && |s1.pending| <= |s.pending| && Clean(out) &&
            Remaining(s, unread) == out + Remaining(s1, unread) &&
            |out| <= n &&
            (|out| < n ==> s1.pending == "" && (s.eof ==> Remaining(s1, unread) == ""))
    decreases n
  {
    if n > 0 {
      var (s1, r) := ReadOne(s);
      ReadOneEmits(s, unread);
      if r > 0 {
        GetNEmits(s1, n - 1, unread);
        var (s2, out) := GetN(s1, n - 1);
        EmittedFirst(r as char, out, Remaining(s2, unread));
      }
    }
  }

  /** Adding clean characters that fit moves them from unread to pending. */
  lemma {:induction false} AddKeepsRemaining(s: Stuffer, data: string, unread: string, eof: bool)
    requires Clean(data) && |s.pending| + |data| <= BUFFERSIZE
    ensures Add(s, data, eof) == Stuffer(s.state, s.pending + data, eof)
    ensures Remaining(Add(s, data, eof), unread) == Remaining(s, data + unread)
  {
    assert data[..|data|] == data;
    StrNCpyClean(data);
    assert s.pending + data + unread == s.pending + (data + unread);
  }

  // ----------------------------------------------- any interleaving of calls

  datatype Call = AddCall(n: nat) | GetCall(n: nat)

  /** A run of calls against a file: `unread` is the part of the file not yet
      added, `out` what was emitted.  An add takes the next characters that fit
      and announces the end when none are left. */
  datatype StuffRun = StuffRun(stuffer: Stuffer, unread: string, out: string)

  function DoCall(r: StuffRun, c: Call): StuffRun {
    match c
    case AddCall(n) =>
      if |r.stuffer.pending| <= BUFFERSIZE then
        var k := Min(Min(n, |r.unread|), BUFFERSIZE - |r.stuffer.pending|);
        StuffRun(Add(r.stuffer, r.unread[..k], k == |r.unread|), r.unread[k..], r.out)
      else r
    case GetCall(n) =>
      var (s1, out) := GetN(r.stuffer, n);
      StuffRun(s1, r.unread, r.out + out)
  }

  function DoCalls(r: StuffRun, cs: seq<Call>): StuffRun
    decreases |cs|
  {
    if cs == [] then r else DoCalls(DoCall(r, cs[0]), cs[1..])
  }

  ghost predicate RunOf(mail: string, r: StuffRun) {
    Clean(r.stuffer.pending) && Clean(r.unread) && |r.stuffer.pending| <= BUFFERSIZE &&
    (r.stuffer.eof ==> r.unread == "") &&
    r.out + Remaining(r.stuffer, r.unread) == Stuff(mail)
  }

  lemma {:induction false} CallKeepsRun(mail: string, r: StuffRun, c: Call)
    requires RunOf(mail, r)
    ensures RunOf(mail, DoCall(r, c))
  {
    match c {
      case AddCall(n) =>
        var k := Min(Min(n, |r.unread|), BUFFERSIZE - |r.stuffer.pending|);
        assert r.unread == r.unread[..k] + r.unread[k..];
        AddKeepsRemaining(r.stuffer, r.unread[..k], r.unread[k..], k == |r.unread|);
      case GetCall(n) =>
        GetNEmits(r.stuffer, n, r.unread);
        var (s1, out) := GetN(r.stuffer, n);
        assert r.out + (out + Remaining(s1, r.unread)) == (r.out + out) + Remaining(s1, r.unread);
    }
  }

  /** For every mail of bytes 1..127 and every interleaving of adds and gets of
      any sizes: emitted so far ++ still to come is the stuffed mail. */
  lemma {:induction false} AnyInterleaving(mail: string, r: StuffRun, cs: seq<Call>)
    requires RunOf(mail, r)
    ensures RunOf(mail, DoCalls(r, cs))
    decreases |cs|
  {
    if cs != [] {
      CallKeepsRun(mail, r, cs[0]);
      AnyInterleaving(mail, DoCall(r, cs[0]), cs[1..]);
    }
  }

  lemma {:induction false} FreshRun(mail: string)
    requires Clean(mail)
    ensures RunOf(mail, StuffRun(FRESH, mail, ""))
  {
    MachineIsLineRule(NEWLINE, mail);
    assert "" + mail == mail;
  }

  /** A call that gives less than it was asked for after the end of the file
      completes the stuffed mail, whatever calls there were before. */
  lemma {:induction false} StuffedWhole(mail: string, cs: seq<Call>, n: nat)
    requires Clean(mail)
    ensures var r := DoCalls(StuffRun(FRESH, mail, ""), cs);
            var t := DoCall(r, GetCall(n));
            r.stuffer.eof && |t.out| < |r.out| + n ==> t.out == Stuff(mail)
  {
    var r := DoCalls(StuffRun(FRESH, mail, ""), cs);
    FreshRun(mail);
    AnyInterleaving(mail, StuffRun(FRESH, mail, ""), cs);
    CallKeepsRun(mail, r, GetCall(n));
    GetNEmits(r.stuffer, n, r.unread);
    var t := DoCall(r, GetCall(n));
    assert t.out + "" == t.out;
  }

  // -------------------------------------------------------- every byte value

  /** Whatever the input, only bytes 1..127 are ever emitted. */
  lemma {:induction false} OnlyCleanOutput(s: Stuffer, n: nat)
    ensures Clean(GetN(s, n).1)
    decreases n
  {
    if n > 0 {
      var (s1, r) := ReadOne(s);
      if r > 0 {
        OnlyCleanOutput(s1, n - 1);
      }
    }
  }

  /** Characters and flushes left to handle; each read that does anything lowers it. */
  function Work(s: Stuffer): nat { 2 * |s.pending| + (if s.state == DOT then 1 else 0) }

  lemma {:induction false} GetNWorks(s: Stuffer, n: nat)
    ensures var (s1, out) := GetN(s, n);
            |out| <= n && s1.eof == s.eof && |s1.pending| <= |s.pending| && Work(s1) <= Work(s) &&
            (n > 0 && Work(s1) == Work(s) ==> s1 == s && s.pending == "" && out == "")
    decreases n
  {
    if n > 0 {
      var (s1, r) := ReadOne(s);
      if r > 0 {
        GetNWorks(s1, n - 1);
      }
    }
  }

  // ------------------------------------------------------------- the object

  class CharactersProcessor {
    const buffer: array<char>
    var idx: nat
    var len: nat
    var eofReached: bool
    var state: ReadState

    /** Indices in range; `idx` may be past the start in the middle of a call. */
    ghost predicate Shape()
      reads this
    {
      buffer.Length == BUFFERSIZE && idx <= len <= BUFFERSIZE
    }

    ghost predicate Valid()
      reads this
    {
      Shape() && idx == 0
    }

    ghost function Abs(): Stuffer
      requires Shape()
      reads this, buffer
    {
      Stuffer(state, buffer[idx..len], eofReached)
    }

    constructor ()
      ensures Valid() && fresh(buffer) && Abs() == FRESH
    {
      buffer := new char[BUFFERSIZE];
      idx, len, eofReached, state := 0, 0, false, NEWLINE;
    }

    method ResetCharactersProcessor()
      requires Shape()
      modifies this
      ensures Valid() && Abs() == FRESH
    {
      idx, len := 0, 0;
      state := NEWLINE;
      eofReached := false;
    }

    function AvailableCharacters(): (k: nat)
      requires Shape()
      reads this, buffer
      ensures k == |Abs().pending|
    {
      len - idx
    }

    function AvailableSpace(): (k: nat)
      requires Shape()
      reads this, buffer
      ensures k + |Abs().pending| == BUFFERSIZE
    {
      BUFFERSIZE - AvailableCharacters()
    }

    method ReadFromBuffer() returns (r: int)
      requires Shape()
      modifies this
      ensures Shape()
      ensures (Abs(), r) == old(ReadOne(Abs()))
      ensures r < 128
    {
      if idx >= len {
        if eofReached && state == DOT {
          state := NORMAL;
          return '.' as int;
        }
        return 0;
      }
      var c := buffer[idx];
      if state == DOT && c == '\r' {
        state := NORMAL;
        return '.' as int;
      }
      if c == '\r' {
        state := CR;
      } else if c == '\n' {
        state := NEWLINE;
      } else if c == '.' && state == NEWLINE {
        state := DOT;
      } else {
        state := NORMAL;
      }
      idx := idx + 1;
      return Signed(c);
    }

    method RebaseBuffer()
      requires Shape()
      modifies this, buffer
      ensures Valid() && Abs() == old(Abs())
    {
      var bytesToMove := AvailableCharacters();
      forall i | 0 <= i < bytesToMove {
        buffer[i] := buffer[idx + i];
      }
      idx := 0;
      len := bytesToMove;
    }

    /** Fills `dest` from its start. */
    method GetNProcessedCharacters(dest: array<char>, n: nat) returns (copied: nat)
      requires Valid() && n <= dest.Length && dest != buffer
      modifies this, buffer, dest
      ensures Valid() && copied <= n
      ensures (Abs(), dest[..copied]) == old(GetN(Abs(), n))
    {
      copied := 0;
      ghost var whole := GetN(Abs(), n);
      while copied < n
        invariant Shape() && copied <= n
        invariant whole.0 == GetN(Abs(), n - copied).0
        invariant whole.1 == dest[..copied] + GetN(Abs(), n - copied).1
      {
        ghost var later := GetN(Abs(), n - copied);
        ghost var sofar := dest[..copied];
        var charRetrieved := ReadFromBuffer();
        if charRetrieved > 0 {
          assert later.1 == [charRetrieved as char] + GetN(Abs(), n - copied - 1).1;
          dest[copied] := charRetrieved as char;
          copied := copied + 1;
          assert dest[..copied] == sofar + [charRetrieved as char];
        } else {
          break;
        }
      }
      assert dest[..copied] + "" == dest[..copied];
      RebaseBuffer();
    }

    /** Adds what fits; the rest of `data` is dropped, which `added` reports. */
    method AddCharactersToProcess(data: array<char>, n: nat, eof: bool) returns (added: nat)
      requires Valid() && n <= data.Length && data != buffer
      modifies this, buffer
      ensures Valid()
      ensures Abs() == old(Add(Abs(), data[..n], eof))
      ensures added == |Abs().pending| - old(|Abs().pending|)
    {
      eofReached := eof;
      var freeSpace := AvailableSpace();
      var toAdd := if freeSpace < n then freeSpace else n;
      CopyString(buffer, len, data, toAdd);
      assert data[..n][..toAdd] == data[..toAdd];
      ghost var was := old(Abs());
      assert buffer[idx..len] == buffer[..len][idx..] == was.pending;
      assert buffer[idx..len + toAdd] == was.pending + buffer[len..len + toAdd];
      len := len + toAdd;
      return toAdd;
    }
  }

  /** `strncpy(dest + at, src, n)` */
  method CopyString(dest: array<char>, at: nat, src: array<char>, n: nat)
    requires at + n <= dest.Length && n <= src.Length && src != dest
    modifies dest
    ensures dest[..at] == old(dest[..at]) && dest[at + n..] == old(dest[at + n..])
    ensures dest[at..at + n] == StrNCpy(src[..n])
  {
    var padding := false;
    for i := 0 to n
      invariant padding <==> NUL in src[..i]
      invariant dest[..at] == old(dest[..at]) && dest[at + n..] == old(dest[at + n..])
      invariant forall k :: 0 <= k < i ==> dest[at + k] == if NUL in src[..k] then NUL else src[k]
    {
      if src[i] == NUL {
        padding := true;
      }
      dest[at + i] := if padding then NUL else src[i];
      assert src[..i + 1] == src[..i] + [src[i]];
    }
    forall k | 0 <= k < n ensures dest[at + k] == StrNCpy(src[..n])[k] {
      assert src[..n][..k] == src[..k];
    }
  }
}
