/** Decimal numbers and the joined identifiers built from them. */
module Decimal {

  function Digit(d: nat): char
    requires d < 10
  {
    "0123456789"[d]
  }

  /** `str(n)` for a non-negative integer. */
  function Dec(n: nat): string
  {
    if n < 10 then [Digit(n)] else Dec(n / 10) + [Digit(n % 10)]
  }

  lemma DigitInjective(a: nat, b: nat)
    requires a < 10 && b < 10
    ensures Digit(a) == Digit(b) ==> a == b
    ensures Digit(a) != '-'
  {
  }

  lemma {:induction false} DecHasNoDash(n: nat)
    ensures |Dec(n)| > 0 && '-' !in Dec(n)
  {
    DigitInjective(n % 10, 0);
    if n >= 10 {
      DecHasNoDash(n / 10);
    }
  }

  lemma SameEnds<T>(a: seq<T>, b: seq<T>, x: T, y: T)
    requires a + [x] == b + [y]
    ensures a == b && x == y
  {
    var n := |a|;
    assert (a + [x])[n] == x && (b + [y])[n] == y;
    assert a == (a + [x])[..n] && b == (b + [y])[..n];
  }

  lemma {:induction false} DecInjective(a: nat, b: nat)
    requires Dec(a) == Dec(b)
    ensures a == b
    decreases a
  {
    var a', b' := if a < 10 then "" else Dec(a / 10), if b < 10 then "" else Dec(b / 10);
    assert Dec(a) == a' + [Digit(a % 10)] && Dec(b) == b' + [Digit(b % 10)];
    SameEnds(a', b', Digit(a % 10), Digit(b % 10));
    DigitInjective(a % 10, b % 10);
    DecHasNoDash(a / 10);
    DecHasNoDash(b / 10);
    if a >= 10 && b >= 10 {
      DecInjective(a / 10, b / 10);
    }
  }

  /** The last dash of a string splits it in one way only. */
  lemma {:induction false} LastDashSplits(a: string, x: string, b: string, y: string)
    requires a + "-" + x == b + "-" + y && '-' !in x && '-' !in y
    ensures a == b && x == y
    decreases |x| + |y|
  {
    var s, t := a + "-" + x, b + "-" + y;
    if |x| < |y| {
      DashPosition(a, x, b, y);
    } else if |y| < |x| {
      DashPosition(b, y, a, x);
    } else {
      assert |a| == |b|;
      assert a == s[..|a|] && b == t[..|b|];
      assert x == s[|a| + 1..] && y == t[|b| + 1..];
    }
  }

  lemma DashPosition(a: string, x: string, b: string, y: string)
    requires a + "-" + x == b + "-" + y && |x| < |y|
    ensures '-' in y
  {
    var s, t := a + "-" + x, b + "-" + y;
    assert s[|a|] == '-';
    assert t[|a|] == y[|a| - |b| - 1];
  }
}
