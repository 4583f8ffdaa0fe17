/**
 * Decimal text and the C library conversions the core relies on: `printf`'s
 * `%d`/`%llu`, and `atoi`, `strtol` and `strtoull` reading a number back.
 */
module Decimal {

  const U64_MAX: nat := 0xFFFF_FFFF_FFFF_FFFF
  const INT_MIN: int := -0x8000_0000
  const INT_MAX: int := 0x7FFF_FFFF

  predicate IsDigit(c: char) { '0' <= c <= '9' }

  predicate AllDigits(s: string) { forall i :: 0 <= i < |s| ==> IsDigit(s[i]) }

  /** White space as C's `isspace` classifies it in the "C" locale. */
  predicate IsSpace(c: char)
  {
    c == ' ' || c == '\t' || c == '\n' || c == '\U{B}' || c == '\U{C}' || c == '\r'
  }

  function DigitChar(d: nat): (c: char)
    requires d < 10
    ensures IsDigit(c) && c as int - '0' as int == d
  {
    ('0' as int + d) as char
  }

  /** The number a string of decimal digits denotes. */
  function Value(s: string): nat
    requires AllDigits(s)
    decreases |s|
  {
    if s == [] then 0 else Value(s[..|s| - 1]) * 10 + (s[|s| - 1] as int - '0' as int)
  }

  /** Decimal text of `n` without leading zeros, as `%llu` prints it. */
  function NatToString(n: nat): (r: string)
    ensures r != [] && AllDigits(r)
    ensures |r| > 1 ==> r[0] != '0'
    decreases n
  {
    if n < 10 then [DigitChar(n)] else NatToString(n / 10) + [DigitChar(n % 10)]
  }

  /** Decimal text of `i`, with a leading `-` when negative, as `%d` prints it. */
  function IntToString(i: int): (r: string)
    ensures r != [] && (r[0] == '-' <==> i < 0)
    ensures i < 0 ==> |r| > 1 && AllDigits(r[1..])
    ensures i >= 0 ==> AllDigits(r)
  {
    if i < 0 then "-" + NatToString(-i) else NatToString(i)
  }

  /** Printing then reading back the digits gives the number. */
  lemma {:induction false} ValueOfNatToString(n: nat)
    ensures Value(NatToString(n)) == n
    decreases n
  {
    if n >= 10 {
      var r := NatToString(n);
      ValueOfNatToString(n / 10);
      assert r[..|r| - 1] == NatToString(n / 10);
    }
  }

  /** Length of the longest all-digit prefix of `s`. */
  function DigitRun(s: string): (k: nat)
    ensures k <= |s| && AllDigits(s[..k])
    ensures k < |s| ==> !IsDigit(s[k])
    decreases |s|
  {
    if s == [] || !IsDigit(s[0]) then 0
    else
      var k := 1 + DigitRun(s[1..]);
      assert forall i :: 1 <= i < k ==> s[..k][i] == s[1..][..k - 1][i - 1];
      k
  }

  /** Length of the leading white space of `s`. */
  function SpaceRun(s: string): (k: nat)
    ensures k <= |s|
    ensures forall i :: 0 <= i < k ==> IsSpace(s[i])
    ensures k < |s| ==> !IsSpace(s[k])
    decreases |s|
  {
    if s == [] || !IsSpace(s[0]) then 0 else 1 + SpaceRun(s[1..])
  }

  /**
   * What C's number conversions read from `s`: leading white space, an optional
   * sign, then the longest run of digits. `end` is where reading stopped (the
   * `endptr`), which is 0 when no digit was found.
   */
  datatype Scan = Scan(negative: bool, magnitude: nat, digits: nat, end: nat)

  function ScanNumber(s: string): (r: Scan)
    ensures r.end <= |s|
    ensures r.digits == 0 <==> r.end == 0
    ensures r.digits == 0 ==> r.magnitude == 0
  {
    var w := SpaceRun(s);
    var t := s[w..];
    var signed := t != [] && (t[0] == '-' || t[0] == '+');
    var u := if signed then t[1..] else t;
    var k := DigitRun(u);
    var mag := Value(u[..k]);
    if k == 0 then Scan(false, 0, 0, 0)
    else Scan(signed && t[0] == '-', mag, k, w + (if signed then 1 else 0) + k)
  }

  /** `atoi`: the signed value read (C leaves an out-of-range result undefined; see README). */
  function Atoi(s: string): (v: int)
    ensures ScanNumber(s).digits == 0 ==> v == 0
    ensures v < 0 ==> ScanNumber(s).negative
  {
    var r := ScanNumber(s);
    if r.negative then -(r.magnitude as int) else r.magnitude as int
  }

  /** `strtoull(s, NULL, 10)`: saturates at `ULLONG_MAX`, negates modulo 2^64 after a `-`. */
  function Strtoull(s: string): (v: nat)
    ensures v <= U64_MAX
  {
    var r := ScanNumber(s);
    if r.magnitude > U64_MAX then U64_MAX
    else if r.negative && r.magnitude > 0 then U64_MAX + 1 - r.magnitude
    else r.magnitude
  }

  lemma ScanOfDigits(s: string)
    requires s != [] && AllDigits(s)
    ensures ScanNumber(s) == Scan(false, Value(s), |s|, |s|)
  {
    assert !IsSpace(s[0]);
    assert s[0..] == s;
    DigitRunAll(s);
    assert s[..|s|] == s;
  }

  lemma {:induction false} DigitRunAll(s: string)
    requires AllDigits(s)
    ensures DigitRun(s) == |s|
    decreases |s|
  {
    if s != [] {
      DigitRunAll(s[1..]);
    }
  }

  /** `%llu` then `strtoull` is the identity on unsigned 64-bit values. */
  lemma StrtoullOfNatToString(n: nat)
    requires n <= U64_MAX
    ensures Strtoull(NatToString(n)) == n
  {
    ScanOfDigits(NatToString(n));
    ValueOfNatToString(n);
  }

  /** `%d` then `atoi` is the identity. */
  lemma AtoiOfIntToString(i: int)
    ensures Atoi(IntToString(i)) == i
    ensures ScanNumber(IntToString(i)).end == |IntToString(i)|
  {
    var d := NatToString(if i < 0 then -i else i);
    ValueOfNatToString(if i < 0 then -i else i);
    DigitRunAll(d);
    assert d[..|d|] == d;
    if i < 0 {
      var s := "-" + d;
      assert !IsSpace(s[0]);
      assert s[0..] == s && s[1..] == d;
    } else {
      ScanOfDigits(d);
    }
  }

  /** `strtoull` of a number above 2^64 - 1 saturates at `ULLONG_MAX`. */
  lemma StrtoullSaturates(n: nat)
    requires n > U64_MAX
    ensures Strtoull(NatToString(n)) == U64_MAX
  {
    ScanOfDigits(NatToString(n));
    ValueOfNatToString(n);
  }

  /** `strtoull` of `-n` within range is `n` negated modulo 2^64. */
  lemma StrtoullOfNegative(n: nat)
    requires 0 < n <= U64_MAX
    ensures Strtoull("-" + NatToString(n)) == U64_MAX + 1 - n
    ensures (Strtoull("-" + NatToString(n)) + n) % (U64_MAX + 1) == 0
  {
    var d := NatToString(n);
    var s := "-" + d;
    ValueOfNatToString(n);
    DigitRunAll(d);
    assert d[..|d|] == d;
    assert !IsSpace(s[0]);
    assert s[0..] == s && s[1..] == d;
  }
}
