/** Decimal text of integers as JavaScript produces and reads it:
    `String(n)`, `padStart(width, '0')` and `parseInt(s)` (no radix given).
    Each rendering comes with its reading, and the two are proved inverse. */
module Decimal {
  import opened Common

  predicate IsDigit(c: char) {
    '0' <= c <= '9'
  }

  predicate AllDigits(s: string) {
    forall i :: 0 <= i < |s| ==> IsDigit(s[i])
  }

  function DigitChar(d: int): (c: char)
    requires 0 <= d < 10
    ensures IsDigit(c) && c as int - '0' as int == d
  {
    ('0' as int + d) as char
  }

  function DigitValue(c: char): (d: int)
    requires IsDigit(c)
    ensures 0 <= d < 10 && DigitChar(d) == c
  {
    c as int - '0' as int
  }

  /** Value of a string of decimal digits, most significant digit first. */
  function Value(s: string): nat
    requires AllDigits(s)
  {
    if s == [] then 0 else Value(s[..|s| - 1]) * 10 + DigitValue(s[|s| - 1])
  }

  function Pow10(k: nat): (p: nat)
    ensures p >= 1
  {
    if k == 0 then 1 else 10 * Pow10(k - 1)
  }

  lemma AllDigitsAppend(a: string, b: string)
    requires AllDigits(a) && AllDigits(b)
    ensures AllDigits(a + b)
  {
    var ab := a + b;
    forall i | 0 <= i < |ab| ensures IsDigit(ab[i]) {
      if i < |a| { assert ab[i] == a[i]; } else { assert ab[i] == b[i - |a|]; }
    }
  }

  /** Appending one digit shifts the value by one place. */
  lemma ValueSnoc(s: string, c: char)
    requires AllDigits(s) && IsDigit(c)
    ensures AllDigits(s + [c]) && Value(s + [c]) == Value(s) * 10 + DigitValue(c)
  {
    AllDigitsAppend(s, [c]);
    assert (s + [c])[..|s|] == s;
  }

  lemma ShiftArith(va: int, vb: int, p: int, d: int)
    ensures (va * p + vb) * 10 + d == va * (p * 10) + (vb * 10 + d)
  {
  }

  /** Reading a concatenation: the left part is shifted by the length of the right. */
  lemma {:induction false} ValueAppend(a: string, b: string)
    requires AllDigits(a) && AllDigits(b)
    ensures AllDigits(a + b) && Value(a + b) == Value(a) * Pow10(|b|) + Value(b)
    decreases |b|
  {
    AllDigitsAppend(a, b);
    if b == [] {
      assert a + b == a;
    } else {
      var b', c := b[..|b| - 1], b[|b| - 1];
      assert b == b' + [c];
      assert a + b == (a + b') + [c];
      ValueAppend(a, b');
      ValueSnoc(a + b', c);
      ValueSnoc(b', c);
      ShiftArith(Value(a), Value(b'), Pow10(|b'|), DigitValue(c));
    }
  }

  /** `String(n)` for a non-negative integer: no sign, no leading zero. */
  function NatText(n: nat): (r: string)
    ensures 1 <= |r| && AllDigits(r)
    ensures |r| > 1 ==> r[0] != '0'
  {
    if n < 10 then [DigitChar(n)] else NatText(n / 10) + [DigitChar(n % 10)]
  }

  /** Reading back `String(n)` gives `n`. */
  lemma {:induction false} NatTextRoundTrip(n: nat)
    ensures Value(NatText(n)) == n
  {
    if n >= 10 {
      var s := NatText(n);
      assert s[..|s| - 1] == NatText(n / 10);
      NatTextRoundTrip(n / 10);
    }
  }

  /** A number below 10^k has at most k digits. */
  lemma {:induction false} NatTextLength(n: nat, k: nat)
    requires k >= 1 && n < Pow10(k)
    ensures |NatText(n)| <= k
  {
    if n >= 10 {
      assert k >= 2;
      NatTextLength(n / 10, k - 1);
    }
  }

  /** `String(i)` for any integer: a minus sign before the magnitude when negative. */
  function IntText(i: int): (r: string)
    ensures i >= 0 ==> r == NatText(i)
    ensures i < 0 ==> r == "-" + NatText(-i)
  {
    if i < 0 then "-" + NatText(-i) else NatText(i)
  }

  /** `String(c / 100)` for an amount of `c` whole cents, as JavaScript
      prints a number with at most two decimals: the sign, the whole
      units, then a point and the cents without a trailing zero when there
      are any. */
  function CentsText(c: int): (r: string)
    ensures c % 100 == 0 ==> r == IntText(c / 100)
    ensures c % 100 != 0 ==> '.' in r
  {
    var a := if c < 0 then -c else c;
    var f := Fraction(a % 100);
    assert c % 100 != 0 ==> a % 100 != 0 && f[0] == '.';
    (if c < 0 then "-" else "") + NatText(a / 100) + f
  }

  /** The decimals of `f` hundredths: nothing for none, otherwise a point
      and the digits with no trailing zero, which read back as `f`. */
  function Fraction(f: nat): (r: string)
    requires f < 100
    ensures f == 0 ==> r == ""
    ensures f != 0 ==> 2 <= |r| <= 3 && r[0] == '.' && AllDigits(r[1..]) && r[|r| - 1] != '0'
    ensures f != 0 ==> Value(r[1..]) * (if |r| == 2 then 10 else 1) == f
  {
    if f == 0 then ""
    else if f % 10 == 0 then
      var r := ['.', DigitChar(f / 10)];
      assert r[1..][..0] == [];
      r
    else
      var r := ['.', DigitChar(f / 10), DigitChar(f % 10)];
      var t := r[1..];
      assert t[..1] == [r[1]] && [r[1]][..0] == [];
      assert Value([r[1]]) == f / 10;
      assert Value(t) == Value(t[..1]) * 10 + DigitValue(t[1]);
      r
  }

  function Repeat(c: char, k: nat): (r: string)
    ensures |r| == k
    ensures forall i :: 0 <= i < k ==> r[i] == c
  {
    if k == 0 then [] else [c] + Repeat(c, k - 1)
  }

  /** `s.padStart(width, fill)`: `s` itself when already wide enough,
      otherwise `fill` repeated on the left up to `width` characters. */
  function PadStart(s: string, width: nat, fill: char): (r: string)
    ensures |r| == if |s| >= width then |s| else width
    ensures r[|r| - |s|..] == s
    ensures forall i :: 0 <= i < |r| - |s| ==> r[i] == fill
  {
    if |s| >= width then s else Repeat(fill, width - |s|) + s
  }

  /** Leading zeros do not change the value of a digit string. */
  lemma ZeroPadValue(s: string, k: nat)
    requires AllDigits(s)
    ensures AllDigits(Repeat('0', k) + s) && Value(Repeat('0', k) + s) == Value(s)
  {
    ZerosValue(k);
    ValueAppend(Repeat('0', k), s);
  }

  lemma {:induction false} ZerosValue(k: nat)
    ensures AllDigits(Repeat('0', k)) && Value(Repeat('0', k)) == 0
  {
    if k > 0 {
      var z := Repeat('0', k);
      assert z[..k - 1] == Repeat('0', k - 1);
      ZerosValue(k - 1);
    }
  }

  /** Zero-padding to `width` keeps the digits and the value of `String(n)`. */
  lemma ZeroPaddedNat(n: nat, width: nat)
    ensures AllDigits(PadStart(NatText(n), width, '0'))
    ensures Value(PadStart(NatText(n), width, '0')) == n
  {
    NatTextRoundTrip(n);
    var s := NatText(n);
    if |s| < width {
      ZeroPadValue(s, width - |s|);
    }
  }

  /** `String(n).padStart(2, '0')`, used for months, days, hours and minutes. */
  function Pad2(n: nat): string {
    PadStart(NatText(n), 2, '0')
  }

  /** Below 100 the two-character field is exact and reads back as `n`. */
  lemma Pad2RoundTrip(n: nat)
    requires n < 100
    ensures |Pad2(n)| == 2 && AllDigits(Pad2(n)) && Value(Pad2(n)) == n
  {
    NatTextLength(n, 2);
    ZeroPaddedNat(n, 2);
  }

  // ---- parseInt ---------------------------------------------------------

  /** Number of leading characters of `s` that satisfy `ok`. */
  function Run(s: string, ok: char -> bool): (k: nat)
    ensures k <= |s|
    ensures forall i :: 0 <= i < k ==> ok(s[i])
    ensures k < |s| ==> !ok(s[k])
  {
    if s == [] || !ok(s[0]) then 0 else 1 + Run(s[1..], ok)
  }

  predicate IsHexDigit(c: char) {
    IsDigit(c) || 'a' <= c <= 'f' || 'A' <= c <= 'F'
  }

  function HexDigitValue(c: char): (d: int)
    requires IsHexDigit(c)
    ensures 0 <= d < 16
  {
    if IsDigit(c) then DigitValue(c)
    else if 'a' <= c <= 'f' then c as int - 'a' as int + 10
    else c as int - 'A' as int + 10
  }

  function HexValue(s: string): nat
    requires forall i :: 0 <= i < |s| ==> IsHexDigit(s[i])
  {
    if s == [] then 0 else HexValue(s[..|s| - 1]) * 16 + HexDigitValue(s[|s| - 1])
  }

  /** The magnitude `parseInt` reads after the sign: hexadecimal after a
      "0x"/"0X" prefix, decimal otherwise; `None` (NaN) when no digit follows. */
  function ParseMagnitude(t: string): Option<nat> {
    if |t| >= 2 && t[0] == '0' && (t[1] == 'x' || t[1] == 'X') then
      var h := t[2..];
      var k := Run(h, IsHexDigit);
      if k == 0 then None else Some(HexValue(h[..k]))
    else
      var k := Run(t, IsDigit);
      if k == 0 then None else Some(Value(t[..k]))
  }

  /** `parseInt(s)`: leading white space is skipped, then the text is read
      as `ParseSigned` does. `None` stands for NaN. */
  function ParseInt(s: string): (r: Option<int>)
    ensures s == [] ==> r == None
  {
    ParseSigned(TrimStart(s))
  }

  /** An optional sign, then the longest run of digits; trailing text is
      ignored. */
  function ParseSigned(t: string): Option<int> {
    if |t| >= 1 && t[0] == '-' then
      match ParseMagnitude(t[1..])
      case None => None
      case Some(m) => Some(0 - m)
    else if |t| >= 1 && t[0] == '+' then
      match ParseMagnitude(t[1..])
      case None => None
      case Some(m) => Some(m)
    else
      match ParseMagnitude(t)
      case None => None
      case Some(m) => Some(m)
  }

  lemma ParseMagnitudeOfNatText(n: nat)
    ensures ParseMagnitude(NatText(n)) == Some(n)
  {
    var t := NatText(n);
    var k := Run(t, IsDigit);
    assert k == |t|;
    assert t[..k] == t;
    NatTextRoundTrip(n);
  }

  /** `parseInt(String(i)) == i` for every integer `i`. */
  lemma ParseIntRoundTrip(i: int)
    ensures ParseInt(IntText(i)) == Some(i)
  {
    var s := IntText(i);
    if i < 0 {
      TrimStartVisible(s);
      ParseSignedNegative(-i);
    } else {
      assert IsDigit(s[0]);
      TrimStartVisible(s);
      ParseMagnitudeOfNatText(i);
    }
  }

  lemma ParseSignedNegative(n: nat)
    ensures ParseSigned("-" + NatText(n)) == Some(-(n as int))
  {
    assert ("-" + NatText(n))[1..] == NatText(n);
    ParseMagnitudeOfNatText(n);
  }

  /** Different integers have different decimal texts. */
  lemma IntTextInjective(i: int, j: int)
    requires IntText(i) == IntText(j)
    ensures i == j
  {
    ParseIntRoundTrip(i);
    ParseIntRoundTrip(j);
  }
}
