/** How a template literal such as `${exam.id}` writes an integer: decimal
    digits, a leading '-' for negatives, no leading zeros. */
module Decimal {

  function DigitChar(d: nat): (c: char)
    requires d < 10
    ensures '0' <= c <= '9'
  {
    "0123456789"[d]
  }

  function NatToString(n: nat): (s: string)
    ensures |s| >= 1
    ensures n < 10 <==> |s| == 1
    ensures forall k :: 0 <= k < |s| ==> '0' <= s[k] <= '9'
  {
    if n < 10 then [DigitChar(n)] else NatToString(n / 10) + [DigitChar(n % 10)]
  }

  function IntToString(i: int): (s: string)
    ensures |s| >= 1
  {
    if i < 0 then "-" + NatToString(-i) else NatToString(i)
  }

  lemma DigitCharInjective(a: nat, b: nat)
    requires a < 10 && b < 10 && DigitChar(a) == DigitChar(b)
    ensures a == b
  {
  }

  /** Different naturals are written differently. */
  lemma {:induction false} NatToStringInjective(a: nat, b: nat)
    requires NatToString(a) == NatToString(b)
    ensures a == b
    decreases a
  {
    var s := NatToString(a);
    if a >= 10 && b >= 10 {
      var pa, pb := NatToString(a / 10), NatToString(b / 10);
      assert s == pa + [DigitChar(a % 10)] && s == pb + [DigitChar(b % 10)];
      assert pa == s[..|s| - 1] == pb;
      NatToStringInjective(a / 10, b / 10);
      DigitCharInjective(a % 10, b % 10);
    } else if a < 10 && b < 10 {
      DigitCharInjective(a, b);
    }
  }

  /** Only negative numbers start with '-'. */
  lemma SignMark(i: int)
    ensures IntToString(i)[0] == '-' <==> i < 0
  {
  }

  /** Different integers are written differently. */
  lemma IntToStringInjective(a: int, b: int)
    requires IntToString(a) == IntToString(b)
    ensures a == b
  {
    SignMark(a);
    SignMark(b);
    if a < 0 && b < 0 {
      var x, y := NatToString(-a), NatToString(-b);
      assert x == ("-" + x)[1..];
      assert y == ("-" + y)[1..];
      NatToStringInjective(-a, -b);
    } else if a >= 0 && b >= 0 {
      NatToStringInjective(a, b);
    }
  }
}
