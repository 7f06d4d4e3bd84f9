/**
 The small part of `java.lang` text handling the library relies on:
 `String.startsWith`, substring containment, the decimal rendering of an
 `int` in string concatenation, and 32-bit two's-complement addition.
 */
module JavaText {

  /** Java `int`: 32-bit two's complement. */
  type int32 = x: int | -0x8000_0000 <= x < 0x8000_0000

  /** `s.startsWith(p)`. */
  predicate StartsWith(s: string, p: string) {
    |p| <= |s| && s[..|p|] == p
  }

  /** `t.contains(s)`: `s` occurs in `t` as a contiguous block. */
  ghost predicate IsInfix(s: string, t: string) {
    exists i :: 0 <= i <= |t| && StartsWith(t[i..], s)
  }

  lemma InfixLeft(x: string, y: string)
    ensures IsInfix(x, x + y)
  {
    assert (x + y)[0..] == x + y;
  }

  lemma InfixRight(x: string, y: string)
    ensures IsInfix(y, x + y)
  {
    assert (x + y)[|x|..] == y;
  }

  lemma InfixTransitive(s: string, t: string, u: string)
    requires IsInfix(s, t) && IsInfix(t, u)
    ensures IsInfix(s, u)
  {
    var i :| 0 <= i <= |t| && StartsWith(t[i..], s);
    var j :| 0 <= j <= |u| && StartsWith(u[j..], t);
    forall k | 0 <= k < |s|
      ensures u[j + i + k] == s[k]
    {
      assert t[i..][..|s|][k] == s[k];
      assert u[j..][..|t|][i + k] == t[i + k];
    }
    assert u[j + i..][..|s|] == s;
  }

  /** `a + b` evaluated in Java `int` arithmetic, wrapping on overflow. */
  function AddInt32(a: int32, b: int32): (r: int32)
    ensures (r - (a + b)) % 0x1_0000_0000 == 0
    ensures -0x8000_0000 <= a + b < 0x8000_0000 ==> r == a + b
  {
    var s := a as int + b as int;
    if s >= 0x8000_0000 then s - 0x1_0000_0000
    else if s < -0x8000_0000 then s + 0x1_0000_0000
    else s
  }

  predicate IsDigit(c: char) {
    '0' <= c <= '9'
  }

  predicate AllDigits(s: string) {
    forall k :: 0 <= k < |s| ==> IsDigit(s[k])
  }

  function DigitChar(d: nat): (c: char)
    requires d < 10
    ensures IsDigit(c)
  {
    (('0' as int) + d) as char
  }

  function DigitValue(c: char): (d: nat)
    requires IsDigit(c)
    ensures d < 10
  {
    (c as int) - ('0' as int)
  }

  /** Decimal digits of `n` without leading zeros. */
  function NatToString(n: nat): (s: string)
    ensures |s| >= 1 && AllDigits(s)
    ensures |s| > 1 ==> s[0] != '0'
    decreases n
  {
    if n < 10 then [DigitChar(n)]
    else NatToString(n / 10) + [DigitChar(n % 10)]
  }

  /** `Integer.toString(n)`, which string concatenation with an `int` uses. */
  function IntToString(n: int): string {
    if n < 0 then "-" + NatToString(-n) else NatToString(n)
  }

  /** Reads a string of decimal digits back as a number. */
  function ParseNat(s: string): nat
    requires AllDigits(s)
  {
    if s == [] then 0
    else ParseNat(s[..|s| - 1]) * 10 + DigitValue(s[|s| - 1])
  }

  /** An optional minus sign followed by at least one digit. */
  predicate IsIntLiteral(s: string) {
    if |s| > 0 && s[0] == '-' then |s| > 1 && AllDigits(s[1..])
    else |s| > 0 && AllDigits(s)
  }

  /** `Integer.parseInt` on a well-formed literal. */
  function ParseInt(s: string): int
    requires IsIntLiteral(s)
  {
    if s[0] == '-' then -(ParseNat(s[1..]) as int) else ParseNat(s)
  }

  lemma {:induction false} NatToStringRoundTrip(n: nat)
    ensures ParseNat(NatToString(n)) == n
    decreases n
  {
    if n >= 10 {
      var s := NatToString(n);
      NatToStringRoundTrip(n / 10);
      assert s[..|s| - 1] == NatToString(n / 10);
      assert DigitValue(s[|s| - 1]) == n % 10;
    }
  }

  /** The decimal text of an `int` determines the `int`. */
  lemma IntToStringRoundTrip(n: int)
    ensures IsIntLiteral(IntToString(n))
    ensures ParseInt(IntToString(n)) == n
  {
    var s := IntToString(n);
    if n < 0 {
      NatToStringRoundTrip(-n);
      assert s[1..] == NatToString(-n);
    } else {
      NatToStringRoundTrip(n);
    }
  }

}
