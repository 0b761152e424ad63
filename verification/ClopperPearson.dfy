/**
  * The one-sided Clopper-Pearson lower bound found by bisection (src/pccf.py), over exact reals and in
  * probability space instead of log space, and the coverage guarantee it is used for.
  */
module ClopperPearson {

  function Pow(x: real, n: nat): (r: real)
    ensures x > 0.0 ==> r > 0.0
  {
    if n == 0 then 1.0 else x * Pow(x, n - 1)
  }

  function Fact(n: nat): nat
  {
    if n == 0 then 1 else n * Fact(n - 1)
  }

  function Choose(n: nat, k: nat): nat
  {
    if k == 0 then 1
    else if n == 0 then 0
    else Choose(n - 1, k - 1) + Choose(n - 1, k)
  }

  lemma {:induction false} ChooseBeyond(n: nat, k: nat)
    requires k > n
    ensures Choose(n, k) == 0
  {
    if n > 0 {
      ChooseBeyond(n - 1, k - 1);
      ChooseBeyond(n - 1, k);
    }
  }

  /** The coefficient is the lgamma expression of the source: n! / (k! (n-k)!). */
  lemma {:induction false} ChooseIsFactorialRatio(n: nat, k: nat)
    requires k <= n
    ensures Choose(n, k) * Fact(k) * Fact(n - k) == Fact(n)
    decreases n
  {
    if k == 0 {
    } else if k == n {
      ChooseBeyond(n - 1, n);
      ChooseIsFactorialRatio(n - 1, n - 1);
      assert Choose(n, n) == Choose(n - 1, n - 1);
      FactorOut(Choose(n - 1, n - 1), Fact(n - 1), n);
    } else {
      ChooseIsFactorialRatio(n - 1, k - 1);
      ChooseIsFactorialRatio(n - 1, k);
      var a, b := Choose(n - 1, k - 1), Choose(n - 1, k);
      var f, g := Fact(k - 1), Fact(n - k - 1);
      assert Fact(k) == k * f && Fact(n - k) == (n - k) * g;
      PascalArithmetic(a, b, f, g, k, n - k, Fact(n - 1));
      assert Fact(n) == n * Fact(n - 1);
    }
  }

  lemma FactorOut(c: int, f: int, n: int)
    requires c * f * 1 == f
    ensures c * (n * f) * 1 == n * f
  {
    assert c * (n * f) == n * (c * f);
  }

  lemma PascalArithmetic(a: int, b: int, f: int, g: int, k: int, m: int, total: int)
    requires a * f * (m * g) == total && b * (k * f) * g == total
    ensures (a + b) * (k * f) * (m * g) == (k + m) * total
  {
    assert a * (k * f) * (m * g) == k * (a * f * (m * g));
    assert b * (k * f) * (m * g) == m * (b * (k * f) * g);
    assert (a + b) * (k * f) * (m * g) == a * (k * f) * (m * g) + b * (k * f) * (m * g);
  }

  /** P(X == i) for X ~ Binomial(n, p). */
  function Pmf(n: nat, i: nat, p: real): real
  {
    if i > n then 0.0 else Choose(n, i) as real * Pow(p, i) * Pow(1.0 - p, n - i)
  }

  function PmfOf(n: nat, p: real): nat -> real
  {
    (i: nat) => Pmf(n, i, p)
  }

  function Sum(f: nat -> real, k: nat, n: nat): real
    decreases n + 1 - k
  {
    if k > n then 0.0 else f(k) + Sum(f, k + 1, n)
  }

  /** P(X >= k). */
  function Tail(k: nat, n: nat, p: real): real
  {
    Sum(PmfOf(n, p), k, n)
  }

  // --------------------------------------------------------------- the binomial recurrence

  /** One more trial: success from i - 1, or failure from i. */
  lemma PmfStep(n: nat, i: nat, p: real, q: real)
    requires q == 1.0 - p
    ensures i > 0 ==> Pmf(n + 1, i, p) == p * Pmf(n, i - 1, p) + q * Pmf(n, i, p)
    ensures Pmf(n + 1, 0, p) == q * Pmf(n, 0, p)
  {
    assert Pow(q, n + 1) == q * Pow(q, n);
    if 0 < i <= n {
      PmfInner(n, i, p, q);
    } else if i == n + 1 {
      ChooseBeyond(n, n + 1);
      assert Choose(n + 1, n + 1) == Choose(n, n);
      Reorder(Choose(n, n) as real, p, Pow(p, n));
    }
  }

  lemma Reorder(a: real, p: real, x: real)
    ensures a * (p * x) * 1.0 == p * (a * x * 1.0)
  {
  }

  lemma PmfInner(n: nat, i: nat, p: real, q: real)
    requires 0 < i <= n && q == 1.0 - p
    ensures Pmf(n + 1, i, p) == p * Pmf(n, i - 1, p) + q * Pmf(n, i, p)
  {
    var a, b, c := Choose(n, i - 1), Choose(n, i), Choose(n + 1, i);
    assert c == a + b;
    var x, xp, y, qy := Pow(p, i - 1), Pow(p, i), Pow(q, n - i), Pow(q, n + 1 - i);
    assert xp == p * x && qy == q * y;
    StepArithmetic(a as real, b as real, c as real, x, y, p, q, xp, qy,
                   Pmf(n, i - 1, p), Pmf(n, i, p), Pmf(n + 1, i, p));
  }

  lemma StepArithmetic(a: real, b: real, c: real, x: real, y: real, p: real, q: real, xp: real, qy: real,
                       u: real, v: real, w: real)
    requires c == a + b && xp == p * x && qy == q * y
    requires u == a * x * qy && v == b * xp * y && w == c * xp * qy
    ensures w == p * u + q * v
  {
    assert a * xp * qy == p * (a * x * qy);
    assert b * xp * qy == q * (b * xp * y);
    assert c * xp * qy == a * xp * qy + b * xp * qy;
  }

  lemma {:induction false} SumAdds(f: nat -> real, g: nat -> real, u: nat -> real, k: nat, n: nat)
    requires forall i: nat :: k <= i <= n ==> u(i) == f(i) + g(i)
    ensures Sum(u, k, n) == Sum(f, k, n) + Sum(g, k, n)
    decreases n + 1 - k
  {
    if k <= n {
      SumAdds(f, g, u, k + 1, n);
    }
  }

  ghost function Scaled(c: real, f: nat -> real): nat -> real
  {
    (i: nat) => c * f(i)
  }

  ghost function Shifted(f: nat -> real): nat -> real
  {
    (i: nat) => if i == 0 then 0.0 else f(i - 1)
  }

  lemma {:induction false} SumScales(c: real, f: nat -> real, k: nat, n: nat)
    ensures Sum(Scaled(c, f), k, n) == c * Sum(f, k, n)
    decreases n + 1 - k
  {
    if k <= n {
      SumScales(c, f, k + 1, n);
      Distribute(c, f(k), Sum(f, k + 1, n));
    }
  }

  lemma {:induction false} SumShifts(f: nat -> real, k: nat, n: nat)
    requires 0 < k
    ensures Sum(Shifted(f), k, n + 1) == Sum(f, k - 1, n)
    decreases n + 2 - k
  {
    if k <= n + 1 {
      SumShifts(f, k + 1, n);
    }
  }

  lemma {:induction false} SumDropsLast(f: nat -> real, k: nat, n: nat)
    requires f(n + 1) == 0.0
    ensures Sum(f, k, n + 1) == Sum(f, k, n)
    decreases n + 1 - k
  {
    if k <= n {
      SumDropsLast(f, k + 1, n);
    }
  }

  lemma Distribute(a: real, x: real, y: real)
    ensures a * (x + y) == a * x + a * y
  {
  }

  lemma PmfSplits(n: nat, i: nat, p: real, q: real)
    requires 0 < i && q == 1.0 - p
    ensures PmfOf(n + 1, p)(i) == Scaled(p, Shifted(PmfOf(n, p)))(i) + Scaled(q, PmfOf(n, p))(i)
  {
    PmfStep(n, i, p, q);
  }

  lemma TailSplits(u: nat -> real, pf: nat -> real, qf: nat -> real, k: nat, n: nat, p: real, q: real)
    requires 0 < k && q == 1.0 - p
    requires u == PmfOf(n + 1, p) && pf == Scaled(p, Shifted(PmfOf(n, p))) && qf == Scaled(q, PmfOf(n, p))
    ensures Sum(u, k, n + 1) == Sum(pf, k, n + 1) + Sum(qf, k, n + 1)
  {
    forall i: nat | k <= i <= n + 1 ensures u(i) == pf(i) + qf(i) {
      PmfSplits(n, i, p, q);
    }
    SumAdds(pf, qf, u, k, n + 1);
  }

  lemma SplitSum(u: nat -> real, f: nat -> real, k: nat, n: nat, p: real, q: real) returns (w: real, a: real, b: real)
    requires 0 < k && f(n + 1) == 0.0
    requires Sum(u, k, n + 1) == Sum(Scaled(p, Shifted(f)), k, n + 1) + Sum(Scaled(q, f), k, n + 1)
    ensures w == Sum(u, k, n + 1) && a == Sum(f, k - 1, n) && b == Sum(f, k, n)
    ensures w == p * a + q * b
  {
    w, a, b := Sum(u, k, n + 1), Sum(f, k - 1, n), Sum(f, k, n);
    SumScales(p, Shifted(f), k, n + 1);
    SumScales(q, f, k, n + 1);
    SumShifts(f, k, n);
    SumDropsLast(f, k, n);
  }

  /** Summing the recurrence over an upper tail: one more trial moves mass p up from the level below. */
  lemma TailStep(k: nat, n: nat, p: real, q: real) returns (w: real, a: real, b: real)
    requires 0 < k && q == 1.0 - p
    ensures w == Tail(k, n + 1, p) && a == Tail(k - 1, n, p) && b == Tail(k, n, p)
    ensures w == p * a + q * b
  {
    var u, f := PmfOf(n + 1, p), PmfOf(n, p);
    TailSplits(u, Scaled(p, Shifted(f)), Scaled(q, f), k, n, p, q);
    w, a, b := SplitSum(u, f, k, n, p, q);
  }

  /** The same probability by conditioning on the last trial. */
  ghost function AtLeast(k: nat, n: nat, p: real): real
  {
    if k == 0 then 1.0
    else if n == 0 then 0.0
    else p * AtLeast(k - 1, n - 1, p) + (1.0 - p) * AtLeast(k, n - 1, p)
  }

  lemma {:induction false} TailIsAtLeast(k: nat, n: nat, p: real)
    ensures Tail(k, n, p) == AtLeast(k, n, p)
    decreases n
  {
    if n == 0 {
      TailOfNoTrials(k, p);
    } else if k == 0 {
      TailIsAtLeast(0, n - 1, p);
      TailIsAtLeast(1, n - 1, p);
      AllStep(n - 1, p, 1.0 - p);
    } else {
      TailIsAtLeast(k - 1, n - 1, p);
      TailIsAtLeast(k, n - 1, p);
      var w, a, b := TailStep(k, n - 1, p, 1.0 - p);
      var a', b', w' := Condition(k, n, p);
      SameMix(p, a, b, w, a', b', w');
    }
  }

  lemma SameMix(p: real, a: real, b: real, w: real, a': real, b': real, w': real)
    requires a == a' && b == b'
    requires w == p * a + (1.0 - p) * b && w' == p * a' + (1.0 - p) * b'
    ensures w == w'
  {
  }

  lemma TailOfNoTrials(k: nat, p: real)
    ensures Tail(k, 0, p) == if k == 0 then 1.0 else 0.0
  {
    assert Sum(PmfOf(0, p), 1, 0) == 0.0 && Pmf(0, 0, p) == 1.0;
  }

  lemma AllStep(n: nat, p: real, q: real)
    requires q == 1.0 - p && Tail(0, n, p) == 1.0
    ensures Tail(0, n + 1, p) == 1.0
  {
    var w, a, b := TailStep(1, n, p, q);
    PmfStep(n, 0, p, q);
    SumsToOne(p, q, Pmf(n, 0, p), b, w);
  }

  lemma SumsToOne(p: real, q: real, x: real, a: real, v: real)
    requires q == 1.0 - p && x + a == 1.0 && v == p * 1.0 + q * a
    ensures q * x + v == 1.0
  {
    assert q * x + q * a == q * (x + a);
  }

  /** The probabilities sum to one. */
  lemma TailAll(n: nat, p: real)
    ensures Tail(0, n, p) == 1.0
  {
    TailIsAtLeast(0, n, p);
  }

  lemma Product(x: real, y: real)
    requires x >= 0.0 && y >= 0.0
    ensures x * y >= 0.0
  {
  }

  lemma MixMonotone(p: real, q: real, a: real, b: real, c: real, d: real, u: real, v: real)
    requires 0.0 <= p <= q <= 1.0 && a >= b && a <= c && b <= d
    requires u == p * a + (1.0 - p) * b && v == q * c + (1.0 - q) * d
    ensures u <= v
  {
    Product(q - p, a - b);
    Product(q, c - a);
    Product(1.0 - q, d - b);
  }

  lemma MixRange(p: real, a: real, b: real, u: real)
    requires 0.0 <= p <= 1.0 && 0.0 <= a <= 1.0 && 0.0 <= b <= 1.0
    requires u == p * a + (1.0 - p) * b
    ensures 0.0 <= u <= 1.0
  {
    Product(p, a);
    Product(1.0 - p, b);
    Product(p, 1.0 - a);
    Product(1.0 - p, 1.0 - b);
  }

  /** Names the parts of the recurrence, which keeps the solver from multiplying it out. */
  lemma Condition(k: nat, n: nat, p: real) returns (a: real, b: real, u: real)
    requires k > 0 && n > 0
    ensures a == AtLeast(k - 1, n - 1, p) && b == AtLeast(k, n - 1, p) && u == AtLeast(k, n, p)
    ensures u == p * a + (1.0 - p) * b
  {
    a, b, u := AtLeast(k - 1, n - 1, p), AtLeast(k, n - 1, p), AtLeast(k, n, p);
  }

  lemma {:induction false} AtLeastRange(k: nat, n: nat, p: real)
    requires 0.0 <= p <= 1.0
    ensures 0.0 <= AtLeast(k, n, p) <= 1.0
    decreases n
  {
    if k > 0 && n > 0 {
      AtLeastRange(k - 1, n - 1, p);
      AtLeastRange(k, n - 1, p);
      var a, b, u := Condition(k, n, p);
      MixRange(p, a, b, u);
    }
  }

  lemma {:induction false} AtLeastShrinks(k: nat, n: nat, p: real)
    requires 0.0 <= p <= 1.0
    ensures AtLeast(k + 1, n, p) <= AtLeast(k, n, p)
    decreases n
  {
    AtLeastRange(k + 1, n, p);
    if n > 0 && k > 0 {
      AtLeastShrinks(k - 1, n - 1, p);
      AtLeastShrinks(k, n - 1, p);
      var c, d, v := Condition(k, n, p);
      var a, b, u := Condition(k + 1, n, p);
      MixMonotone(p, p, a, b, c, d, u, v);
    }
  }

  lemma {:induction false} AtLeastMonotone(k: nat, n: nat, p: real, q: real)
    requires 0.0 <= p <= q <= 1.0
    ensures AtLeast(k, n, p) <= AtLeast(k, n, q)
    decreases n
  {
    if k > 0 && n > 0 {
      AtLeastMonotone(k - 1, n - 1, p, q);
      AtLeastMonotone(k, n - 1, p, q);
      AtLeastShrinks(k - 1, n - 1, p);
      var a, b, u := Condition(k, n, p);
      var c, d, v := Condition(k, n, q);
      MixMonotone(p, q, a, b, c, d, u, v);
    }
  }

  /** The upper tail grows with p. */
  lemma TailMonotone(k: nat, n: nat, p: real, q: real)
    requires 0.0 <= p <= q <= 1.0
    ensures Tail(k, n, p) <= Tail(k, n, q)
  {
    TailIsAtLeast(k, n, p);
    TailIsAtLeast(k, n, q);
    AtLeastMonotone(k, n, p, q);
  }

  lemma {:induction false} PowSign(x: real, n: nat)
    requires x >= 0.0
    ensures Pow(x, n) >= 0.0
  {
    if n > 0 {
      PowSign(x, n - 1);
    }
  }

  lemma PmfSign(n: nat, i: nat, p: real)
    requires 0.0 <= p <= 1.0
    ensures Pmf(n, i, p) >= 0.0
  {
    if i <= n {
      PowSign(p, i);
      PowSign(1.0 - p, n - i);
      assert Choose(n, i) as real * Pow(p, i) >= 0.0;
    }
  }

  // ------------------------------------------------------------------------- bisection

  /** _log_binom_upper_tail, with its early returns. */
  function UpperTail(k: nat, n: nat, p: real): real
  {
    if k == 0 then 1.0
    else if p <= 0.0 then 0.0
    else if p >= 1.0 then 1.0
    else Tail(k, n, p)
  }

  lemma {:induction false} SumOfZeros(f: nat -> real, k: nat, n: nat)
    requires forall i: nat :: k <= i <= n ==> f(i) == 0.0
    ensures Sum(f, k, n) == 0.0
    decreases n + 1 - k
  {
    if k <= n {
      SumOfZeros(f, k + 1, n);
    }
  }

  lemma TailAtZero(k: nat, n: nat)
    requires k > 0
    ensures Tail(k, n, 0.0) == 0.0
  {
    forall i: nat | k <= i <= n ensures PmfOf(n, 0.0)(i) == 0.0 {
      assert Pow(0.0, i) == 0.0 * Pow(0.0, i - 1) == 0.0;
      assert Choose(n, i) as real * 0.0 * Pow(1.0, n - i) == 0.0;
    }
    SumOfZeros(PmfOf(n, 0.0), k, n);
  }

  lemma {:induction false} TailAtOne(k: nat, n: nat)
    requires k <= n
    ensures Tail(k, n, 1.0) == 1.0
    decreases k
  {
    if k == 0 {
      TailAll(n, 1.0);
    } else {
      TailAtOne(k - 1, n);
      assert Pow(0.0, n - (k - 1)) == 0.0 * Pow(0.0, n - k) == 0.0;
      assert Pmf(n, k - 1, 1.0) == Choose(n, k - 1) as real * Pow(1.0, k - 1) * 0.0 == 0.0;
    }
  }

  /** The early returns agree with the sum they avoid. */
  lemma UpperTailIsTail(k: nat, n: nat, p: real)
    requires k <= n && 0.0 <= p <= 1.0
    ensures UpperTail(k, n, p) == Tail(k, n, p)
  {
    TailAll(n, p);
    if k > 0 {
      TailAtZero(k, n);
      TailAtOne(k, n);
    }
  }

  function Bisect(k: nat, n: nat, delta: real, lo: real, hi: real, rounds: nat): (real, real)
    decreases rounds
  {
    if rounds == 0 then (lo, hi)
    else
      var mid := (lo + hi) / 2.0;
      if UpperTail(k, n, mid) > delta then Bisect(k, n, delta, lo, mid, rounds - 1)
      else Bisect(k, n, delta, mid, hi, rounds - 1)
  }

  /** The bound for `rounds` halvings; the source runs 60. */
  function Bound(k: nat, n: nat, delta: real, rounds: nat): real
  {
    if n == 0 || k == 0 then 0.0 else Bisect(k, n, delta, 0.0, k as real / n as real, rounds).0
  }

  const ROUNDS: nat := 60

  method ClopperPearsonLower(k: nat, n: nat, delta: real) returns (lo: real)
    requires k <= n && delta > 0.0
    ensures lo == Bound(k, n, delta, ROUNDS)
  {
    lo := LowerBound(k, n, delta, ROUNDS);
  }

  /**
    * The bisection of the source. Unless it answers 0 at once, the answer is a point whose tail is at
    * most delta, and no point more than (k/n) / 2^rounds above it (and up to k/n) has that property.
    */
  method LowerBound(k: nat, n: nat, delta: real, rounds: nat) returns (lo: real)
    requires k <= n && delta > 0.0
    ensures lo == Bound(k, n, delta, rounds)
    ensures k == 0 ==> lo == 0.0
    ensures k > 0 ==> 0.0 <= lo <= k as real / n as real && Tail(k, n, lo) <= delta
    ensures k > 0 ==> forall q :: 0.0 <= q <= k as real / n as real && Tail(k, n, q) <= delta ==>
              q <= lo + k as real / n as real / Pow(2.0, rounds)
  {
    if n == 0 || k == 0 {
      return 0.0;
    }
    var hi := k as real / n as real;
    RatioRange(k, n);
    lo := 0.0;
    ghost var top := hi;
    TailAtZero(k, n);
    for i := 0 to rounds
      invariant Bisect(k, n, delta, lo, hi, rounds - i) == Bisect(k, n, delta, 0.0, top, rounds)
      invariant Bracket(k, n, delta, lo, hi, top, i)
    {
      var mid := (lo + hi) / 2.0;
      Narrow(k, n, delta, lo, hi, mid, top, i);
      if UpperTail(k, n, mid) > delta {
        hi := mid;
      } else {
        lo := mid;
      }
    }
    NothingAbove(k, n, delta, lo, hi, top, rounds);
  }

  ghost predicate Bracket(k: nat, n: nat, delta: real, lo: real, hi: real, top: real, i: nat)
  {
    && 0.0 <= lo <= hi <= top <= 1.0
    && Tail(k, n, lo) <= delta && (hi == top || Tail(k, n, hi) > delta)
    && (hi - lo) * Pow(2.0, i) == top
  }

  lemma Narrow(k: nat, n: nat, delta: real, lo: real, hi: real, mid: real, top: real, i: nat)
    requires k <= n && Bracket(k, n, delta, lo, hi, top, i) && mid == (lo + hi) / 2.0
    ensures UpperTail(k, n, mid) > delta ==> Bracket(k, n, delta, lo, mid, top, i + 1)
    ensures UpperTail(k, n, mid) <= delta ==> Bracket(k, n, delta, mid, hi, top, i + 1)
  {
    UpperTailIsTail(k, n, mid);
    Halve(lo, hi, mid, Pow(2.0, i), top);
    assert Pow(2.0, i + 1) == 2.0 * Pow(2.0, i);
  }

  lemma {:induction false} NothingAbove(k: nat, n: nat, delta: real, lo: real, hi: real, top: real, i: nat)
    requires Bracket(k, n, delta, lo, hi, top, i)
    ensures forall q :: 0.0 <= q <= top && Tail(k, n, q) <= delta ==> q <= lo + top / Pow(2.0, i)
  {
    Width(lo, hi, Pow(2.0, i), top);
    forall q | 0.0 <= q <= top && Tail(k, n, q) <= delta ensures q <= hi {
      if q > hi {
        TailMonotone(k, n, hi, q);
      }
    }
  }

  lemma RatioRange(k: nat, n: nat)
    requires 0 < k <= n
    ensures 0.0 < k as real / n as real <= 1.0
  {
  }

  lemma Halve(lo: real, hi: real, mid: real, scale: real, top: real)
    requires mid == (lo + hi) / 2.0 && (hi - lo) * scale == top
    ensures (mid - lo) * (2.0 * scale) == top && (hi - mid) * (2.0 * scale) == top
  {
    assert (mid - lo) * 2.0 == hi - lo && (hi - mid) * 2.0 == hi - lo;
    assert (mid - lo) * (2.0 * scale) == ((mid - lo) * 2.0) * scale;
    assert (hi - mid) * (2.0 * scale) == ((hi - mid) * 2.0) * scale;
  }

  lemma Width(lo: real, hi: real, scale: real, top: real)
    requires (hi - lo) * scale == top && scale > 0.0
    ensures hi - lo == top / scale
  {
  }

  // ----------------------------------------------------------------------- the guarantee

  lemma {:induction false} BisectKeepsTail(k: nat, n: nat, delta: real, lo: real, hi: real, rounds: nat)
    requires 0 < k <= n && 0.0 <= lo <= hi <= 1.0 && Tail(k, n, lo) <= delta
    ensures var r := Bisect(k, n, delta, lo, hi, rounds).0;
      0.0 <= r <= 1.0 && Tail(k, n, r) <= delta
    decreases rounds
  {
    if rounds > 0 {
      var mid := (lo + hi) / 2.0;
      UpperTailIsTail(k, n, mid);
      if UpperTail(k, n, mid) > delta {
        BisectKeepsTail(k, n, delta, lo, mid, rounds - 1);
      } else {
        BisectKeepsTail(k, n, delta, mid, hi, rounds - 1);
      }
    }
  }

  /** A bound above the true p means that the observation was improbable under p. */
  lemma OverreachIsImprobable(k: nat, n: nat, delta: real, p: real, rounds: nat)
    requires k <= n && delta > 0.0 && 0.0 <= p <= 1.0
    requires Bound(k, n, delta, rounds) > p
    ensures Tail(k, n, p) <= delta
  {
    RatioRange(k, n);
    TailAtZero(k, n);
    BisectKeepsTail(k, n, delta, 0.0, k as real / n as real, rounds);
    TailMonotone(k, n, p, Bound(k, n, delta, rounds));
  }

  type Event = nat -> bool

  /** P(E(X) and X >= i) for X ~ Binomial(n, p). */
  ghost function Probability(e: Event, i: nat, n: nat, p: real): real
    decreases n + 1 - i
  {
    if i > n then 0.0 else (if e(i) then Pmf(n, i, p) else 0.0) + Probability(e, i + 1, n, p)
  }

  lemma {:induction false} ProbabilityAtMostTail(e: Event, i: nat, n: nat, p: real)
    requires 0.0 <= p <= 1.0
    ensures Probability(e, i, n, p) <= Tail(i, n, p)
    decreases n + 1 - i
  {
    if i <= n {
      ProbabilityAtMostTail(e, i + 1, n, p);
      PmfSign(n, i, p);
    }
  }

  ghost function Overreach(n: nat, delta: real, p: real, rounds: nat): Event
  {
    (k: nat) => Bound(k, n, delta, rounds) > p
  }

  lemma {:induction false} OverreachFrom(i: nat, n: nat, delta: real, p: real, rounds: nat)
    requires delta > 0.0 && 0.0 <= p <= 1.0
    ensures Probability(Overreach(n, delta, p, rounds), i, n, p) <= delta
    decreases n + 1 - i
  {
    if i <= n {
      if Bound(i, n, delta, rounds) > p {
        OverreachIsImprobable(i, n, delta, p, rounds);
        ProbabilityAtMostTail(Overreach(n, delta, p, rounds), i, n, p);
      } else {
        OverreachFrom(i + 1, n, delta, p, rounds);
      }
    }
  }

  /**
    * Clopper-Pearson guarantee: whatever n, p and delta, the chance that the computed lower bound
    * exceeds the true p is at most delta, for 60 or any other number of halvings.
    */
  lemma {:induction false} LowerBoundRarelyOverreaches(n: nat, delta: real, p: real, rounds: nat)
    requires delta > 0.0 && 0.0 <= p <= 1.0
    ensures Probability(Overreach(n, delta, p, rounds), 0, n, p) <= delta
  {
    OverreachFrom(0, n, delta, p, rounds);
  }
}
