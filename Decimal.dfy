/**
 * The `%d` conversion of `sprintf` for the non-negative values the server
 * formats (the body length), and the reading of such a rendering back to
 * its value, which is what a client does with a `Content-Length` header.
 */
module Decimal {

  /** The largest value of a C `int` on the platforms the server targets. */
  const MaxCInt: nat := 0x7fff_ffff

  predicate IsDigit(c: char) {
    '0' <= c <= '9'
  }

  function DigitChar(d: nat): (c: char)
    requires d < 10
    ensures IsDigit(c)
  {
    ('0' as int + d) as char
  }

  function DigitValue(c: char): (d: nat)
    requires IsDigit(c)
    ensures d < 10
  {
    c as int - '0' as int
  }

  /** The text `%d` produces for `n`: digits only, at least one, no leading zero. */
  function Render(n: nat): (r: string)
    ensures 1 <= |r|
    ensures forall i :: 0 <= i < |r| ==> IsDigit(r[i])
    ensures r[0] == '0' ==> n == 0
    decreases n
  {
    if n < 10 then [DigitChar(n)] else Render(n / 10) + [DigitChar(n % 10)]
  }

  /** The value of a string of decimal digits, most significant first. */
  function ValueOf(s: string): nat
    requires forall i :: 0 <= i < |s| ==> IsDigit(s[i])
    decreases |s|
  {
    if s == [] then 0 else ValueOf(s[..|s| - 1]) * 10 + DigitValue(s[|s| - 1])
  }

  function Pow10(k: nat): (p: nat)
    ensures 1 <= p
  {
    if k == 0 then 1 else 10 * Pow10(k - 1)
  }

  /** Reading the rendering back yields the value rendered. */
  lemma {:induction false} RenderRoundTrip(n: nat)
    ensures ValueOf(Render(n)) == n
    decreases n
  {
    if n >= 10 {
      var s := Render(n);
      assert s[..|s| - 1] == Render(n / 10);
      RenderRoundTrip(n / 10);
    }
  }

  /** A value below 10^k renders in at most k digits. */
  lemma {:induction false} RenderWidth(n: nat, k: nat)
    requires 1 <= k && n < Pow10(k)
    ensures |Render(n)| <= k
    decreases n
  {
    if n >= 10 {
      assert Pow10(1) == 10;
      assert n / 10 < Pow10(k - 1);
      RenderWidth(n / 10, k - 1);
    }
  }

  /** Every non-negative value a C `int` can hold renders in at most ten characters. */
  lemma RenderWidthCInt(n: nat)
    requires n <= MaxCInt
    ensures |Render(n)| <= 10
  {
    assert Pow10(10) == 10_000_000_000 by {
      assert Pow10(5) == 100_000;
    }
    RenderWidth(n, 10);
  }

  /**
   * Rendering is the only canonical spelling: a digit string with no
   * leading zero is the rendering of its value.
   */
  lemma {:induction false} RenderOfValue(s: string)
    requires 1 <= |s|
    requires forall i :: 0 <= i < |s| ==> IsDigit(s[i])
    requires s[0] == '0' ==> |s| == 1
    ensures Render(ValueOf(s)) == s
    decreases |s|
  {
    var init := s[..|s| - 1];
    if |s| == 1 {
      assert init == [];
      assert DigitChar(DigitValue(s[0])) == s[0];
    } else {
      RenderOfValue(init);
      assert init[0] != '0';
      assert Render(0) == "0";
      var n := ValueOf(s);
      assert n / 10 == ValueOf(init) && n % 10 == DigitValue(s[|s| - 1]);
      assert DigitChar(DigitValue(s[|s| - 1])) == s[|s| - 1];
      assert s == init + [s[|s| - 1]];
    }
  }
}
