/** Positional numerals as printf writes them: the shortest digit string of a
    natural number in base 10 or 16 (upper-case letters, as `%X` prints), its
    value when read back, and the signed decimal of `%d`/`%ld`. */
module Numerals {
  import opened Wrappers

  type Base = b: nat | 2 <= b <= 16 witness 10

  /** The value a digit character names: '0'..'9' and 'A'..'F'; 16 for any other character. */
  function DigitValue(c: char): nat {
    if '0' <= c <= '9' then c as nat - '0' as nat
    else if 'A' <= c <= 'F' then c as nat - 'A' as nat + 10
    else 16
  }

  predicate IsDigit(c: char, base: Base) {
    DigitValue(c) < base
  }

  predicate AllDigits(s: string, base: Base) {
    forall i :: 0 <= i < |s| ==> IsDigit(s[i], base)
  }

  /** The character printf uses for digit value `d`. */
  function DigitChar(d: nat): (c: char)
    requires d < 16
    ensures DigitValue(c) == d
  {
    if d < 10 then ('0' as int + d) as char else ('A' as int + d - 10) as char
  }

  function Pow(b: nat, k: nat): nat {
    if k == 0 then 1 else b * Pow(b, k - 1)
  }

  /** The shortest digit string of `n` (no leading zero unless `n` is zero itself). */
  function Digits(n: nat, base: Base): (s: string)
    ensures |s| >= 1
    ensures AllDigits(s, base)
    ensures |s| > 1 ==> s[0] != '0'
    ensures s[0] == '0' <==> n == 0
    decreases n
  {
    if n < base then [DigitChar(n)]
    else
      DivStep(n, base);
      Digits(n / base, base) + [DigitChar(n % base)]
  }

  /** The value of a digit string read most significant digit first; the empty string reads as 0. */
  function Value(s: string, base: Base): nat
    requires AllDigits(s, base)
    decreases |s|
  {
    if s == [] then 0 else Value(s[..|s| - 1], base) * base + DigitValue(s[|s| - 1])
  }

  /** Reads a non-empty digit string. */
  function ParseNat(s: string, base: Base): (r: Option<nat>)
    ensures r.Some? <==> |s| > 0 && AllDigits(s, base)
  {
    if |s| > 0 && AllDigits(s, base) then Some(Value(s, base)) else None
  }

  /** Decimal text of an integer: a '-' followed by the digits of its magnitude when negative. */
  function SignedDecimal(x: int): (s: string)
    ensures |s| >= 1
    ensures s[0] == '-' <==> x < 0
    ensures forall i :: 1 <= i < |s| ==> IsDigit(s[i], 10)
    ensures x >= 0 ==> IsDigit(s[0], 10)
    ensures x >= 0 && |s| > 1 ==> s[0] != '0'
    ensures x < 0 ==> |s| >= 2 && s[1] != '0'
  {
    if x < 0 then "-" + Digits(-x, 10) else Digits(x, 10)
  }

  /** Reads an optional '-' followed by a non-empty decimal digit string. */
  function ParseSigned(s: string): Option<int> {
    if |s| > 0 && s[0] == '-' then
      var m :- ParseNat(s[1..], 10);
      var x: int := -(m as int);
      Some(x)
    else
      ParseNat(s, 10)
  }

  /** Appending a digit multiplies the value by the base and adds the digit. */
  lemma ValueSnoc(t: string, c: char, base: Base)
    requires AllDigits(t, base) && IsDigit(c, base)
    ensures AllDigits(t + [c], base)
    ensures Value(t + [c], base) == Value(t, base) * base + DigitValue(c)
  {
    assert (t + [c])[..|t + [c]| - 1] == t;
  }

  /** Reading the digits back gives the number. */
  lemma {:induction false} ValueOfDigits(n: nat, base: Base)
    ensures Value(Digits(n, base), base) == n
    decreases n
  {
    if n < base {
      ValueOfOneDigit(n, base);
    } else {
      DivStep(n, base);
      ValueOfDigits(n / base, base);
      ValueOfDigitsStep(n, base);
    }
  }

  lemma ValueOfOneDigit(n: nat, base: Base)
    requires n < base
    ensures Value(Digits(n, base), base) == n
  {
    assert Digits(n, base) == [] + [DigitChar(n)];
    ValueSnoc([], DigitChar(n), base);
  }

  lemma DivStep(n: nat, b: nat)
    requires 2 <= b <= n
    ensures 1 <= n / b < n
    ensures n % b < b
  {
    DivLess(n, b);
    DivMod(n, b);
  }

  lemma DivLess(n: nat, b: nat)
    requires 2 <= b <= n
    ensures n / b < n
  {
    var q := n / b;
    DivMod(n, b);
    assert q * (b - 2) >= 0;
    assert q * b == q * (b - 2) + 2 * q;
  }

  lemma ValueOfDigitsStep(n: nat, base: Base)
    requires n >= base
    requires Value(Digits(n / base, base), base) == n / base
    ensures Value(Digits(n, base), base) == n
  {
    var q, d := n / base, n % base;
    var t := Digits(q, base);
    assert Digits(n, base) == t + [DigitChar(d)];
    ValueSnoc(t, DigitChar(d), base);
    DivMod(n, base);
  }

  lemma DivMod(n: nat, b: nat)
    requires b > 0
    ensures (n / b) * b + n % b == n
  {
  }

  lemma ParseNatOfDigits(n: nat, base: Base)
    ensures ParseNat(Digits(n, base), base) == Some(n)
  {
    ValueOfDigits(n, base);
  }

  /** Reading a signed decimal back gives the integer. */
  lemma SignedDecimalRoundTrip(x: int)
    ensures ParseSigned(SignedDecimal(x)) == Some(x)
  {
    var s := SignedDecimal(x);
    if x < 0 {
      assert s[1..] == Digits(-x, 10);
      ParseNatOfDigits(-x, 10);
    } else {
      ParseNatOfDigits(x, 10);
    }
  }

  /** A string of zero digits reads as 0. */
  lemma {:induction false} ValueOfZeros(z: string, base: Base)
    requires forall i :: 0 <= i < |z| ==> z[i] == '0'
    ensures AllDigits(z, base) && Value(z, base) == 0
    decreases |z|
  {
    if z != [] {
      ValueOfZeros(z[..|z| - 1], base);
    }
  }

  /** Leading zeros do not change the value of a digit string. */
  lemma {:induction false} ValueIgnoresLeadingZeros(z: string, s: string, base: Base)
    requires forall i :: 0 <= i < |z| ==> z[i] == '0'
    requires AllDigits(s, base)
    ensures AllDigits(z + s, base)
    ensures Value(z + s, base) == Value(s, base)
    decreases |s|
  {
    ValueOfZeros(z, base);
    if s == [] {
      assert z + s == z;
    } else {
      assert (z + s)[..|z + s| - 1] == z + s[..|s| - 1];
      ValueIgnoresLeadingZeros(z, s[..|s| - 1], base);
    }
  }

  /** A number below base^k has at most k digits: printing it never needs more than k characters. */
  lemma {:induction false} DigitsLength(n: nat, base: Base, k: nat)
    requires 1 <= k
    requires n < Pow(base, k)
    ensures |Digits(n, base)| <= k
    decreases k
  {
    if n >= base {
      assert Pow(base, 1) == base;
      assert k >= 2;
      DivBelow(n, base, Pow(base, k - 1));
      DivStep(n, base);
      DigitsLength(n / base, base, k - 1);
      assert |Digits(n, base)| == |Digits(n / base, base)| + 1;
    }
  }

  lemma DivBelow(n: nat, b: nat, p: nat)
    requires b > 0 && n < b * p
    ensures n / b < p
  {
    DivMod(n, b);
  }

  /** A signed decimal of an integer of magnitude below 10^k takes at most k digits and a sign. */
  lemma SignedDecimalLength(x: int, k: nat)
    requires 1 <= k
    requires -(Pow(10, k) as int) < x < Pow(10, k)
    ensures |SignedDecimal(x)| <= k + 1
    ensures x >= 0 ==> |SignedDecimal(x)| <= k
  {
    if x < 0 {
      DigitsLength(-x, 10, k);
    } else {
      DigitsLength(x, 10, k);
    }
  }

  /** The powers that bound the widths of the C integer types in print. */
  lemma PowBounds()
    ensures Pow(10, 5) == 100_000
    ensures Pow(10, 10) == 10_000_000_000
    ensures Pow(10, 19) == 10_000_000_000_000_000_000
    ensures Pow(10, 20) == 100_000_000_000_000_000_000
    ensures Pow(16, 16) == 0x1_0000_0000_0000_0000
  {
    assert Pow(16, 8) == 0x1_0000_0000;
  }
}
