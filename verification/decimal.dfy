/**
 * Decimal rendering of integers, as JavaScript's `String(n)` and template
 * literals print them. Used by the credit catalog, whose selector values are
 * the decimal form of their index, and by the relative-date labels.
 */
module Decimal {

  predicate IsDigit(c: char) {
    '0' <= c <= '9'
  }

  function DigitChar(d: nat): (c: char)
    requires d < 10
    ensures IsDigit(c) && c as int - '0' as int == d
  {
    (d + '0' as int) as char
  }

  /** Shortest decimal rendering of `n`, most significant digit first. */
  function NatToString(n: nat): string {
    if n < 10 then [DigitChar(n)] else NatToString(n / 10) + [DigitChar(n % 10)]
  }


  /** A rendering is a non-empty string of digits; only numbers below ten take one digit. */
  lemma {:induction false} RenderingShape(n: nat)
    ensures 1 <= |NatToString(n)|
    ensures n < 10 <==> |NatToString(n)| == 1
    ensures forall i :: 0 <= i < |NatToString(n)| ==> IsDigit(NatToString(n)[i])
  {
    if n >= 10 {
      RenderingShape(n / 10);
    }
  }

  /** Reads a string of digits as a number: the inverse of NatToString. */
  function ParseNat(s: string): nat
    requires forall i :: 0 <= i < |s| ==> IsDigit(s[i])
  {
    if s == [] then 0
    else
      assert IsDigit(s[|s| - 1]);
      10 * ParseNat(s[..|s| - 1]) + (s[|s| - 1] as int - '0' as int)
  }

  /** Rendering then parsing gives the number back. */
  lemma {:induction false} ParseRendered(n: nat)
    ensures forall i :: 0 <= i < |NatToString(n)| ==> IsDigit(NatToString(n)[i])
    ensures ParseNat(NatToString(n)) == n
  {
    RenderingShape(n);
    var s := NatToString(n);
    if n >= 10 {
      ParseRendered(n / 10);
      assert s[..|s| - 1] == NatToString(n / 10);
    }
  }

  /** A positive number's rendering does not start with a zero, so it is the shortest one. */
  lemma {:induction false} NoLeadingZero(n: nat)
    ensures 1 <= |NatToString(n)| && (n > 0 ==> NatToString(n)[0] != '0')
  {
    RenderingShape(n);
    if n >= 10 {
      NoLeadingZero(n / 10);
      RenderingShape(n / 10);
      assert NatToString(n)[0] == NatToString(n / 10)[0];
    }
  }

  /**
   * `String(n)` for any integer: the digits of `n`, read back by ParseNat,
   * with no leading zero, after a minus sign when `n` is negative.
   */
  function IntToString(n: int): (s: string)
    ensures n >= 0 ==> (forall i :: 0 <= i < |s| ==> IsDigit(s[i])) && ParseNat(s) == n
    ensures n < 0 ==> && |s| >= 2 && s[0] == '-'
                      && (forall i :: 1 <= i < |s| ==> IsDigit(s[i]))
                      && ParseNat(s[1..]) == -n
    ensures n >= 0 ==> |s| >= 1 && (|s| > 1 ==> s[0] != '0')
    ensures n < 0 ==> s[1] != '0'
  {
    var m: nat := if n < 0 then -n else n;
    RenderingShape(m);
    ParseRendered(m);
    NoLeadingZero(m);
    if n < 0 then
      assert ("-" + NatToString(m))[1..] == NatToString(m);
      assert ("-" + NatToString(m))[1] == NatToString(m)[0];
      "-" + NatToString(m)
    else
      NatToString(m)
  }

  /** Different numbers render differently, so a rendering identifies its number. */
  lemma RenderingInjective(a: nat, b: nat)
    requires NatToString(a) == NatToString(b)
    ensures a == b
  {
    ParseRendered(a);
    ParseRendered(b);
  }
}
