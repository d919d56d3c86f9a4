// Sizes, character classes and number formats shared by the whole server.

module Standards {

  datatype Option<+T> = None | Some(value: T)

  type int32 = x: int | -0x8000_0000 <= x < 0x8000_0000
  type int64 = x: int | -0x8000_0000_0000_0000 <= x < 0x8000_0000_0000_0000

  const BUFFERSIZE: nat := 512
  const MAXCOMMANDSIZE: nat := 4
  const MAXARGSIZE: nat := 40
  const MAXCOMMANDLENGTH: nat := 255
  const MAX_SINGLE_LINE_RESPONSE: nat := 128

  const NUL: char := '\0'

  /** The value of a C `char`: eight bits, signed. */
  function Signed(c: char): int {
    if c as int < 128 then c as int else c as int % 256 - 256
  }

  /** Bytes 1..127 only. */
  predicate Clean(s: string) {
    forall i :: 0 <= i < |s| ==> 0 < Signed(s[i])
  }

  function Min(a: int, b: int): (m: int)
    ensures m <= a && m <= b && (m == a || m == b)
  {
    if a <= b then a else b
  }

  // ---------------------------------------------------------------- numbers

  function Digit(d: nat): char
    requires d < 10
  {
    '0' + d as char
  }

  /** `%d`, `%ld` and `%lld` of a non-negative number. */
  function DecNat(n: nat): string {
    if n < 10 then [Digit(n)] else DecNat(n / 10) + [Digit(n % 10)]
  }

  function Dec(n: int): string {
    if n < 0 then "-" + DecNat(-n) else DecNat(n)
  }

  function Pow10(k: nat): nat {
    if k == 0 then 1 else 10 * Pow10(k - 1)
  }

  lemma {:induction false} DecNatLength(n: nat, k: nat)
    requires 1 <= k && n < Pow10(k)
    ensures 1 <= |DecNat(n)| <= k
  {
    if n >= 10 {
      assert Pow10(1) == 10;
      DecNatLength(n / 10, k - 1);
    }
  }

  lemma {:induction false} DecLength(n: int64)
    ensures 1 <= |Dec(n)| <= 20
  {
    assert Pow10(4) == 10000;
    assert Pow10(8) == 100000000;
    assert Pow10(12) == 1000000000000;
    assert Pow10(16) == 10000000000000000;
    assert Pow10(19) == 10000000000000000000;
    var m: int := n;
    DecNatLength(if m < 0 then 0 - m else m, 19);
  }

  predicate IsDigit(c: char) { '0' <= c <= '9' }

  /** The value of the leading digits of `s`, read after `acc`. */
  function DigitsValue(acc: nat, s: string): nat
    decreases |s|
  {
    if s != "" && IsDigit(s[0])
    then DigitsValue(10 * acc + (s[0] as int - '0' as int), s[1..])
    else acc
  }

  function Saturate64(n: int): int64 {
    if n < -0x8000_0000_0000_0000 then -0x8000_0000_0000_0000
    else if n >= 0x8000_0000_0000_0000 then 0x7fff_ffff_ffff_ffff
    else n
  }

  function Truncate32(n: int): int32 {
    var low := n % 0x1_0000_0000;
    if low < 0x8000_0000 then low else low - 0x1_0000_0000
  }

  /** `atoi` on a text without leading blanks: `strtol`, then a conversion to `int`. */
  function Atoi(s: string): int32 {
    if s != "" && s[0] == '-' then Truncate32(Saturate64(0 - DigitsValue(0, s[1..])))
    else if s != "" && s[0] == '+' then Truncate32(Saturate64(DigitsValue(0, s[1..])))
    else Truncate32(Saturate64(DigitsValue(0, s)))
  }

  lemma {:induction false} DigitsValueSplit(acc: nat, s: string, d: char)
    requires forall i :: 0 <= i < |s| ==> IsDigit(s[i])
    requires IsDigit(d)
    ensures DigitsValue(acc, s + [d]) == 10 * DigitsValue(acc, s) + (d as int - '0' as int)
    decreases |s|
  {
    var t := s + [d];
    if s == "" {
      assert t[1..] == "";
    } else {
      assert t[1..] == s[1..] + [d];
      DigitsValueSplit(10 * acc + (s[0] as int - '0' as int), s[1..], d);
    }
  }

  lemma {:induction false} DecNatDigits(n: nat)
    ensures |DecNat(n)| >= 1
    ensures forall i :: 0 <= i < |DecNat(n)| ==> IsDigit(DecNat(n)[i])
    ensures DigitsValue(0, DecNat(n)) == n
  {
    if n < 10 {
      var s := [Digit(n)];
      assert s[1..] == "";
    } else {
      DecNatDigits(n / 10);
      DigitsValueSplit(0, DecNat(n / 10), Digit(n % 10));
    }
  }

  /** A message number printed by LIST is read back by RETR and DELE. */
  lemma {:induction false} AtoiReadsDec(n: int32)
    ensures Atoi(Dec(n)) == n
  {
    var m: int := n;
    DecNatDigits(if m < 0 then 0 - m else m);
    var s := Dec(n);
    if n < 0 {
      assert s[1..] == DecNat(-m);
    } else {
      assert IsDigit(s[0]);
    }
  }

  lemma {:induction false} AtoiOfDec(n: nat)
    ensures Atoi(Dec(n)) == Truncate32(Saturate64(n))
  {
    DecNatDigits(n);
    assert IsDigit(Dec(n)[0]);
  }

  lemma {:induction false} CutTo32(n: nat)
    ensures Truncate32(Saturate64(n)) == n <==> n < 0x8000_0000
    ensures if n < 0x8000_0000_0000_0000 then (Truncate32(Saturate64(n)) - n) % 0x1_0000_0000 == 0
            else Truncate32(Saturate64(n)) == -1
  {}

  /** A printed number is read back exactly if it is below 2^31; above, it is cut
      to 32 bits, and from 2^63 on it is read as -1. */
  lemma {:induction false} AtoiWraps(n: nat)
    ensures Atoi(Dec(n)) == n <==> n < 0x8000_0000
    ensures if n < 0x8000_0000_0000_0000 then (Atoi(Dec(n)) - n) % 0x1_0000_0000 == 0 else Atoi(Dec(n)) == -1
  {
    AtoiOfDec(n);
    CutTo32(n);
  }
}
