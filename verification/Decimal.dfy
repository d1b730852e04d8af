/// Decimal rendering of Java `int` values, as done by string concatenation
/// (`"mov eax, " + value`, `"debut_while_" + label`), and Java's 32-bit
/// integer arithmetic as used by the label counter.
module Decimal {

  const TWO32: int := 0x1_0000_0000
  const MinInt32: int := -0x8000_0000
  const MaxInt32: int := 0x7fff_ffff

  /// Values of Java's `int` type.
  type Int32 = x: int | -0x8000_0000 <= x <= 0x7fff_ffff

  /// Two's-complement reduction of an unbounded integer into the `int` range:
  /// what a Java `int` holds after an arithmetic result overflows.
  function Wrap32(x: int): (r: Int32)
    ensures (r - x) % TWO32 == 0
    ensures MinInt32 <= x <= MaxInt32 ==> r == x
  {
    (x - MinInt32) % TWO32 + MinInt32
  }

  /// Wrapping twice is wrapping once: adding one to a wrapped value and
  /// wrapping again gives the wrap of the exact successor.
  lemma WrapSucc(k: int)
    ensures Wrap32(Wrap32(k) + 1) == Wrap32(k + 1)
  {
  }

  /// Fewer than 2^32 steps apart, two integers never wrap to the same `int`.
  lemma WrapDistinct(i: int, j: int)
    requires i < j < i + TWO32
    ensures Wrap32(i) != Wrap32(j)
  {
  }

  function DigitChar(d: int): (c: char)
    requires 0 <= d < 10
    ensures '0' <= c <= '9'
  {
    ('0' as int + d) as char
  }

  predicate AllDigits(s: string)
  {
    forall i :: 0 <= i < |s| ==> '0' <= s[i] <= '9'
  }

  /// Decimal digits of a natural number, most significant first, without
  /// leading zeros.
  function NatToString(n: nat): (s: string)
    ensures 1 <= |s|
    ensures |s| == 1 <==> n < 10
    ensures '0' <= s[0] <= '9'
    ensures s[0] == '0' ==> n == 0
  {
    if n < 10 then [DigitChar(n)] else NatToString(n / 10) + [DigitChar(n % 10)]
  }

  /// `Integer.toString`: a minus sign in front of the digits of the absolute
  /// value for negative numbers.
  function IntToString(i: int): (s: string)
    ensures 1 <= |s|
    ensures s[0] == '-' <==> i < 0
  {
    if i < 0 then "-" + NatToString(-i) else NatToString(i)
  }

  /// The rendering holds only decimal digits after an optional minus sign.
  lemma {:induction false} NatToStringDigits(n: nat)
    ensures AllDigits(NatToString(n))
  {
    if n >= 10 {
      NatToStringDigits(n / 10);
    }
  }

  lemma IntToStringDigits(i: int)
    ensures var s := IntToString(i); (s[0] == '-' <==> i < 0) && AllDigits(if i < 0 then s[1..] else s)
  {
    NatToStringDigits(if i < 0 then -i else i);
    if i < 0 {
      assert IntToString(i)[1..] == NatToString(-i);
    }
  }

  lemma {:induction false} NatToStringInjective(a: nat, b: nat)
    requires NatToString(a) == NatToString(b)
    ensures a == b
  {
    if a >= 10 && b >= 10 {
      var sa, sb := NatToString(a), NatToString(b);
      assert sa[..|sa| - 1] == NatToString(a / 10);
      assert sb[..|sb| - 1] == NatToString(b / 10);
      NatToStringInjective(a / 10, b / 10);
      assert sa[|sa| - 1] == DigitChar(a % 10);
      assert sb[|sb| - 1] == DigitChar(b % 10);
    }
  }

  /// Distinct integers render as distinct texts, so labels built from
  /// distinct indices never collide.
  lemma IntToStringInjective(a: int, b: int)
    ensures IntToString(a) == IntToString(b) <==> a == b
  {
    if IntToString(a) == IntToString(b) {
      var s := IntToString(a);
      if a < 0 {
        assert s[1..] == NatToString(-a) == NatToString(-b);
        NatToStringInjective(-a, -b);
      } else {
        NatToStringInjective(a, b);
      }
    }
  }
}
