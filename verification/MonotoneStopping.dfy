/**
  * Tests of growing groups of independent trials, of which only one counts: the first at which a stop
  * is called. If stops become rarer the more trials succeed, the one test that counts passes no more
  * often than a single test would. The fixed-sequence search of src/pccf.py is such a scheme, with
  * its own quantile grid calling the stops.
  */
module MonotoneStopping {
  import opened ClopperPearson
  import opened Sampling

  // ------------------------------------------------------------------ trials one by one

  /** What a count of successes and the outcomes of the other trials are worth. */
  type Value = (nat, seq<bool>) -> real

  /** The mean worth after `r` more trials, each a success with probability `p`. */
  ghost function Flips(p: real, r: nat, k: nat, zs: seq<bool>, e: Value): real
  {
    if r == 0 then e(k, zs) else Blend(p, Flips(p, r - 1, k, zs + [true], e), Flips(p, r - 1, k, zs + [false], e))
  }

  function Put(zs: seq<bool>, i: nat, y: bool): seq<bool>
  {
    if i <= |zs| then zs[..i] + [y] + zs[i..] else zs
  }

  ghost function With(e: Value, i: nat, y: bool): Value
  {
    (k: nat, zs: seq<bool>) => e(k, Put(zs, i, y))
  }

  lemma PutEarly(zs: seq<bool>, i: nat, y: bool, b: bool)
    requires i <= |zs|
    ensures Put(zs, i, y) + [b] == Put(zs + [b], i, y)
  {
  }

  lemma {:induction false} FlipsPut(p: real, r: nat, k: nat, zs: seq<bool>, e: Value, i: nat, y: bool)
    requires i <= |zs|
    ensures Flips(p, r, k, Put(zs, i, y), e) == Flips(p, r, k, zs, With(e, i, y))
  {
    if r > 0 {
      PutEarly(zs, i, y, true);
      PutEarly(zs, i, y, false);
      FlipsPut(p, r - 1, k, zs + [true], e, i, y);
      FlipsPut(p, r - 1, k, zs + [false], e, i, y);
    }
  }

  lemma BlendSwaps(p: real, a: real, b: real, c: real, d: real)
    ensures Blend(p, Blend(p, a, b), Blend(p, c, d)) == Blend(p, Blend(p, a, c), Blend(p, b, d))
  {
    var q := 1.0 - p;
    SwapFactors(p, p, q, a, b);
    SwapFactors(q, p, q, c, d);
    SwapFactors(p, p, q, a, c);
    SwapFactors(q, p, q, b, d);
    assert p * (q * b) == q * (p * b) && p * (q * c) == q * (p * c);
  }

  /** Any of the trials can be made first. */
  lemma {:induction false} FlipsPullOut(p: real, r: nat, k: nat, zs: seq<bool>, e: Value, i: nat)
    requires |zs| <= i < |zs| + r
    ensures Flips(p, r, k, zs, e) == Blend(p, Flips(p, r - 1, k, zs, With(e, i, true)), Flips(p, r - 1, k, zs, With(e, i, false)))
    decreases r
  {
    if |zs| == i {
      assert Put(zs, i, true) == zs + [true] && Put(zs, i, false) == zs + [false];
      FlipsPut(p, r - 1, k, zs, e, i, true);
      FlipsPut(p, r - 1, k, zs, e, i, false);
    } else {
      FlipsPullOut(p, r - 1, k, zs + [true], e, i);
      FlipsPullOut(p, r - 1, k, zs + [false], e, i);
      BlendSwaps(p, Flips(p, r - 2, k, zs + [true], With(e, i, true)), Flips(p, r - 2, k, zs + [true], With(e, i, false)),
                 Flips(p, r - 2, k, zs + [false], With(e, i, true)), Flips(p, r - 2, k, zs + [false], With(e, i, false)));
    }
  }

  lemma BlendMonotone(p: real, a: real, b: real, c: real, d: real)
    requires 0.0 <= p <= 1.0 && a <= c && b <= d
    ensures Blend(p, a, b) <= Blend(p, c, d)
  {
    var q := 1.0 - p;
    var x, y, x', y' := p * a, q * b, p * c, q * d;
    assert x <= x' by {
      TimesLe(p, a, c);
    }
    assert y <= y' by {
      TimesLe(q, b, d);
    }
    assert Blend(p, a, b) == x + y && Blend(p, c, d) == x' + y';
  }

  lemma {:induction false} FlipsMonotone(p: real, r: nat, k: nat, zs: seq<bool>, e: Value, f: Value, n: nat)
    requires 0.0 <= p <= 1.0 && |zs| + r == n && forall ys :: |ys| == n ==> e(k, ys) <= f(k, ys)
    ensures Flips(p, r, k, zs, e) <= Flips(p, r, k, zs, f)
  {
    if r > 0 {
      FlipsMonotone(p, r - 1, k, zs + [true], e, f, n);
      FlipsMonotone(p, r - 1, k, zs + [false], e, f, n);
      BlendMonotone(p, Flips(p, r - 1, k, zs + [true], e), Flips(p, r - 1, k, zs + [false], e),
                    Flips(p, r - 1, k, zs + [true], f), Flips(p, r - 1, k, zs + [false], f));
    }
  }

  // ------------------------------------------------------------------ trials of which only the count matters

  ghost function FlipsOf(p: real, r: nat, e: Value): nat -> real
  {
    (k: nat) => Flips(p, r, k, [], e)
  }

  /** The mean worth after a group of `m` trials that are only counted and `r` others. */
  ghost function Group(p: real, m: nat, r: nat, e: Value): real
  {
    Sum(Weighted(PmfOf(m, p), FlipsOf(p, r, e)), 0, m)
  }

  lemma {:induction false} SumMonotone(f: nat -> real, g: nat -> real, k: nat, n: nat)
    requires forall i: nat :: k <= i <= n ==> f(i) <= g(i)
    ensures Sum(f, k, n) <= Sum(g, k, n)
    decreases n + 1 - k
  {
    if k <= n {
      SumMonotone(f, g, k + 1, n);
    }
  }

  lemma {:induction false} WeightedMonotone(p: real, m: nat, u: nat -> real, v: nat -> real)
    requires 0.0 <= p <= 1.0 && forall k: nat :: u(k) <= v(k)
    ensures Sum(Weighted(PmfOf(m, p), u), 0, m) <= Sum(Weighted(PmfOf(m, p), v), 0, m)
  {
    var w := PmfOf(m, p);
    forall k: nat ensures Weighted(w, u)(k) <= Weighted(w, v)(k) {
      PmfSign(m, k, p);
      TimesLe(w(k), u(k), v(k));
    }
    SumMonotone(Weighted(w, u), Weighted(w, v), 0, m);
  }

  lemma GroupMonotone(p: real, m: nat, r: nat, e: Value, f: Value)
    requires 0.0 <= p <= 1.0 && forall k: nat, ys :: |ys| == r ==> e(k, ys) <= f(k, ys)
    ensures Group(p, m, r, e) <= Group(p, m, r, f)
  {
    var u, v := FlipsOf(p, r, e), FlipsOf(p, r, f);
    forall k: nat ensures u(k) <= v(k) {
      FlipsMonotone(p, r, k, [], e, f, r);
    }
    WeightedMonotone(p, m, u, v);
  }

  /**
    * The group takes in trial `i`. Given that there are now `k` successes, which of them trial `i` has
    * is decided by a number `t`, the same for all `k`: it succeeds if `k` exceeds `t`.
    */
  ghost function Joined(e: Value, i: nat, t: nat): Value
  {
    (k: nat, zs: seq<bool>) => if k > t then e(k - 1, Put(zs, i, true)) else e(k, Put(zs, i, false))
  }

  lemma {:induction false} FlipsJoined(p: real, r: nat, k: nat, zs: seq<bool>, e: Value, i: nat, t: nat)
    ensures Flips(p, r, k, zs, Joined(e, i, t))
         == if k > t then Flips(p, r, k - 1, zs, With(e, i, true)) else Flips(p, r, k, zs, With(e, i, false))
  {
    if r > 0 {
      FlipsJoined(p, r - 1, k, zs + [true], e, i, t);
      FlipsJoined(p, r - 1, k, zs + [false], e, i, t);
    }
  }

  // ------------------------------------------------------------------ taking a trial in

  lemma {:induction false} ChooseTimes(n: nat, k: nat)
    requires k > 0
    ensures k * Choose(n + 1, k) == (n + 1) * Choose(n, k - 1)
  {
    if n == 0 {
      assert Choose(0, k) == 0 && Choose(1, k) == Choose(0, k - 1);
    } else {
      ChooseTimes(n - 1, k);
      if k > 1 {
        ChooseTimes(n - 1, k - 1);
        TimesArithmetic(n, k, Choose(n - 1, k - 2), Choose(n - 1, k - 1), Choose(n, k - 1), Choose(n, k), Choose(n + 1, k));
      }
    }
  }

  lemma TimesArithmetic(n: nat, k: nat, a: nat, b: nat, c: nat, d: nat, e: nat)
    requires k > 1 && c == a + b && e == c + d && (k - 1) * c == n * a && k * d == n * b
    ensures k * e == (n + 1) * c
  {
    assert k * e == k * c + k * d && k * c == (k - 1) * c + c;
    assert n * c == n * a + n * b;
  }

  lemma PmfParts(n: nat, k: nat, p: real) returns (w: real, c: real, x: real, y: real)
    requires k <= n
    ensures w == Pmf(n, k, p) && c == Choose(n, k) as real && x == Pow(p, k) && y == Pow(1.0 - p, n - k)
    ensures w == c * x * y
  {
    w, c, x, y := Pmf(n, k, p), Choose(n, k) as real, Pow(p, k), Pow(1.0 - p, n - k);
  }

  lemma ChooseShares(m: nat, k: nat, kk: real, n: real, c: real, d: real)
    requires k <= m && kk == (k + 1) as real && n == (m + 1) as real
    requires c == Choose(m + 1, k + 1) as real && d == Choose(m, k) as real
    ensures kk * c == n * d
  {
    ChooseTimes(m, k + 1);
    RealProducts(k + 1, Choose(m + 1, k + 1), m + 1, Choose(m, k));
  }

  lemma ChooseRests(m: nat, k: nat, kk: real, n: real, c: real, d: real)
    requires k <= m && kk == (m + 1 - k) as real && n == (m + 1) as real
    requires c == Choose(m + 1, k) as real && d == Choose(m, k) as real
    ensures kk * c == n * d
  {
    RestOfTimes(m, k);
    RealProducts(m + 1 - k, Choose(m + 1, k), m + 1, Choose(m, k));
  }

  lemma WonParts(m: nat, k: nat, p: real) returns (w: real, c: real, u: real, d: real, x: real, px: real, y: real)
    requires k <= m
    ensures w == Pmf(m + 1, k + 1, p) && c == Choose(m + 1, k + 1) as real && u == Pmf(m, k, p) && d == Choose(m, k) as real
    ensures px == p * x && w == c * px * y && u == d * x * y
  {
    var y';
    w, c, px, y := PmfParts(m + 1, k + 1, p);
    u, d, x, y' := PmfParts(m, k, p);
    PowNext(p, k);
  }

  lemma LostParts(m: nat, k: nat, p: real, q: real) returns (w: real, c: real, u: real, d: real, y: real, qy: real, x: real)
    requires k <= m && q == 1.0 - p
    ensures w == Pmf(m + 1, k, p) && c == Choose(m + 1, k) as real && u == Pmf(m, k, p) && d == Choose(m, k) as real
    ensures qy == q * y && w == c * qy * x && u == d * y * x
  {
    var x';
    w, c, x, qy := PmfParts(m + 1, k, p);
    u, d, x', y := PmfParts(m, k, p);
    PowNext(q, m - k);
    TurnedAround(c, x, qy, w);
    TurnedAround(d, x, y, u);
  }

  /** Of the successes among m + 1 trials, one particular trial has its share. */
  lemma WonShare(m: nat, k: nat, p: real) returns (kk: real, n: real, w: real, u: real)
    requires k <= m
    ensures kk == (k + 1) as real && n == (m + 1) as real && w == Pmf(m + 1, k + 1, p) && u == Pmf(m, k, p)
    ensures kk * w == n * (p * u)
  {
    var c, d, px, x, y;
    kk, n := (k + 1) as real, (m + 1) as real;
    w, c, u, d, x, px, y := WonParts(m, k, p);
    ChooseShares(m, k, kk, n, c, d);
    ShareArithmetic(kk, n, c, d, p, x, px, y, w, u);
  }

  lemma LostShare(m: nat, k: nat, p: real, q: real) returns (kk: real, n: real, w: real, u: real)
    requires k <= m && q == 1.0 - p
    ensures kk == (m + 1 - k) as real && n == (m + 1) as real && w == Pmf(m + 1, k, p) && u == Pmf(m, k, p)
    ensures kk * w == n * (q * u)
  {
    var c, d, x, qy, y;
    kk, n := (m + 1 - k) as real, (m + 1) as real;
    w, c, u, d, y, qy, x := LostParts(m, k, p, q);
    ChooseRests(m, k, kk, n, c, d);
    ShareArithmetic(kk, n, c, d, q, y, qy, x, w, u);
  }

  lemma PowNext(x: real, n: nat)
    ensures Pow(x, n + 1) == x * Pow(x, n)
  {
  }

  lemma TurnedAround(c: real, x: real, y: real, w: real)
    requires w == c * x * y
    ensures w == c * y * x
  {
  }

  lemma RealProducts(a: nat, b: nat, c: nat, d: nat)
    requires a * b == c * d
    ensures a as real * b as real == c as real * d as real
  {
    assert (a * b) as real == a as real * b as real && (c * d) as real == c as real * d as real;
  }

  lemma RestOfTimes(m: nat, k: nat)
    requires k <= m
    ensures (m + 1 - k) * Choose(m + 1, k) == (m + 1) * Choose(m, k)
  {
    if k > 0 {
      ChooseTimes(m, k);
      RestArithmetic(m + 1, k, Choose(m, k - 1), Choose(m, k), Choose(m + 1, k));
    }
  }

  lemma RestArithmetic(n: int, k: int, a: int, b: int, c: int)
    requires c == a + b && k * c == n * a
    ensures (n - k) * c == n * b
  {
    assert (n - k) * c == n * c - k * c && n * c == n * a + n * b;
  }

  lemma ShareArithmetic(k: real, n: real, c: real, d: real, p: real, x: real, px: real, y: real, w: real, u: real)
    requires k * c == n * d && px == p * x && w == c * px * y && u == d * x * y
    ensures k * w == n * (p * u)
  {
    assert k * w == (k * c) * (px * y);
    assert n * (p * u) == (n * d) * (px * y) by {
      assert p * u == d * (px * y);
    }
  }

  // ------------------------------------------------------------------ some way of taking it in is no worse

  ghost function Chosen(a: nat -> real, b: nat -> real, t: nat): nat -> real
  {
    (k: nat) => if k > t then a(k - 1) else b(k)
  }

  ghost function BlendOf(p: real, a: nat -> real, b: nat -> real): nat -> real
  {
    (k: nat) => Blend(p, a(k), b(k))
  }

  /** `Chosen` added up over the first `n` numbers `t`. */
  ghost function Tally(a: nat -> real, b: nat -> real, n: nat): nat -> real
  {
    (k: nat) => if k == 0 then n as real * b(0)
                else if k <= n then k as real * a(k - 1) + (n - k) as real * b(k)
                else n as real * a(k - 1)
  }

  lemma TallyStep(a: nat -> real, b: nat -> real, n: nat, k: nat)
    ensures Tally(a, b, n + 1)(k) == Tally(a, b, n)(k) + Chosen(a, b, n)(k)
  {
    if 0 < k <= n {
      assert (n + 1 - k) as real == (n - k) as real + 1.0;
      TimesNext((n - k) as real, b(k));
    } else if k == 0 {
      assert (n + 1) as real == n as real + 1.0;
      TimesNext(n as real, b(0));
    } else {
      assert (n + 1) as real == n as real + 1.0;
      TimesNext(n as real, a(k - 1));
    }
  }

  ghost function Worth(p: real, m: nat, f: nat -> real): real
  {
    Sum(Weighted(PmfOf(m, p), f), 0, m)
  }

  ghost function WorthUpTo(p: real, m: nat, a: nat -> real, b: nat -> real, n: nat): real
  {
    if n == 0 then 0.0 else WorthUpTo(p, m, a, b, n - 1) + Worth(p, m, Chosen(a, b, n - 1))
  }

  lemma WorthAdds(p: real, m: nat, f: nat -> real, g: nat -> real, u: nat -> real)
    requires forall k: nat :: u(k) == f(k) + g(k)
    ensures Worth(p, m, u) == Worth(p, m, f) + Worth(p, m, g)
  {
    var w := PmfOf(m, p);
    forall k: nat ensures Weighted(w, u)(k) == Weighted(w, f)(k) + Weighted(w, g)(k) {
      Distribute(w(k), f(k), g(k));
    }
    SumAdds(Weighted(w, f), Weighted(w, g), Weighted(w, u), 0, m);
  }

  lemma WorthOfNothing(p: real, m: nat, f: nat -> real)
    requires forall k: nat :: f(k) == 0.0
    ensures Worth(p, m, f) == 0.0
  {
    forall k: nat ensures Weighted(PmfOf(m, p), f)(k) == 0.0 {
      assert Pmf(m, k, p) * 0.0 == 0.0;
    }
    SumOfZeros(Weighted(PmfOf(m, p), f), 0, m);
  }

  lemma {:induction false} WorthOfTally(p: real, m: nat, a: nat -> real, b: nat -> real, n: nat)
    ensures Worth(p, m, Tally(a, b, n)) == WorthUpTo(p, m, a, b, n)
  {
    if n > 0 {
      var j: nat := n - 1;
      WorthOfTally(p, m, a, b, j);
      forall k: nat ensures Tally(a, b, n)(k) == Tally(a, b, j)(k) + Chosen(a, b, j)(k) {
        TallyStep(a, b, j, k);
      }
      WorthAdds(p, m, Tally(a, b, j), Chosen(a, b, j), Tally(a, b, n));
    } else {
      forall k: nat ensures Tally(a, b, 0)(k) == 0.0 {
        NoTally(a, b, k);
      }
      WorthOfNothing(p, m, Tally(a, b, 0));
    }
  }

  lemma NoTally(a: nat -> real, b: nat -> real, k: nat)
    ensures Tally(a, b, 0)(k) == 0.0
  {
    if k > 0 {
      assert 0.0 * a(k - 1) == 0.0;
    } else {
      assert 0.0 * b(0) == 0.0;
    }
  }

  lemma ZeroTimes(x: real)
    ensures 0.0 * x == 0.0 && x * 0.0 == 0.0
  {
  }

  /** Of `k` successes among m + 1 trials with weights f1, one trial has its share; f weighs the others. */
  ghost predicate WonAt(p: real, f: nat -> real, f1: nat -> real, m: nat, k: nat)
  {
    k > 0 ==> k as real * f1(k) == (m + 1) as real * (p * f(k - 1))
  }

  ghost predicate LostAt(q: real, f: nat -> real, f1: nat -> real, m: nat, k: nat)
    requires k <= m + 1
  {
    (m + 1 - k) as real * f1(k) == (m + 1) as real * (q * f(k))
  }

  ghost predicate ShareAt(p: real, q: real, f: nat -> real, f1: nat -> real, m: nat, k: nat)
    requires k <= m + 1
  {
    WonAt(p, f, f1, m, k) && LostAt(q, f, f1, m, k)
  }

  ghost predicate HaveShares(p: real, q: real, f: nat -> real, f1: nat -> real, m: nat)
  {
    forall k: nat :: k <= m + 1 ==> ShareAt(p, q, f, f1, m, k)
  }

  lemma PmfsShare(p: real, q: real, m: nat)
    requires q == 1.0 - p
    ensures HaveShares(p, q, PmfOf(m, p), PmfOf(m + 1, p), m)
  {
    var f, f1 := PmfOf(m, p), PmfOf(m + 1, p);
    forall k: nat | k <= m + 1 ensures ShareAt(p, q, f, f1, m, k) {
      PmfWon(p, m, k);
      PmfLost(p, q, m, k);
    }
  }

  lemma PmfWon(p: real, m: nat, k: nat)
    requires k <= m + 1
    ensures WonAt(p, PmfOf(m, p), PmfOf(m + 1, p), m, k)
  {
    if k > 0 {
      var kk, n, w, u := WonShare(m, k - 1, p);
    }
  }

  lemma PmfLost(p: real, q: real, m: nat, k: nat)
    requires q == 1.0 - p && k <= m + 1
    ensures LostAt(q, PmfOf(m, p), PmfOf(m + 1, p), m, k)
  {
    if k <= m {
      var kk, n, w, u := LostShare(m, k, p, q);
    } else {
      ZeroTimes(Pmf(m + 1, k, p));
      ZeroTimes(q);
      ZeroTimes((m + 1) as real);
    }
  }

  lemma TallyIs(a: nat -> real, b: nat -> real, n: nat, k: nat, z: real, x: real, y: real, i: real, j: real)
    requires k <= n && z == Tally(a, b, n)(k) && x == Last(a, k) && y == b(k) && i == k as real && j == (n - k) as real
    ensures z == i * x + j * y
  {
    ZeroTimes(x);
    ZeroTimes(y);
  }

  /** The value for one success less, 0 if there is none. */
  ghost function Last(f: nat -> real, k: nat): real
  {
    if k > 0 then f(k - 1) else 0.0
  }

  lemma SharesAre(p: real, q: real, f: nat -> real, a: nat -> real, b: nat -> real, k: nat, s: real, u: real, x: real, v: real, y: real)
    requires s == Added(Scaled(p, Shifted(Weighted(f, a))), Scaled(q, Weighted(f, b)))(k)
    requires x == Last(a, k) && u == Last(f, k) && v == f(k) && y == b(k)
    ensures s == p * (u * x) + q * (v * y)
  {
    ZeroTimes(0.0);
    ZeroTimes(p);
  }

  lemma ShareGives(p: real, q: real, f: nat -> real, f1: nat -> real, m: nat, k: nat, i: real, j: real, n: real, w: real, u: real, v: real)
    requires k <= m + 1 && ShareAt(p, q, f, f1, m, k) && i == k as real && j == (m + 1 - k) as real && n == (m + 1) as real
    requires w == f1(k) && u == Last(f, k) && v == f(k)
    ensures i * w == n * (p * u) && j * w == n * (q * v)
  {
    if k == 0 {
      ZeroTimes(w);
      ZeroTimes(p);
      ZeroTimes(n);
    }
  }

  /** One term of the full tally, in terms of one trial less. */
  lemma TallyTerm(p: real, q: real, f: nat -> real, f1: nat -> real, m: nat, a: nat -> real, b: nat -> real, k: nat, n: real)
      returns (w: real, z: real, s: real)
    requires k <= m + 1 && ShareAt(p, q, f, f1, m, k) && n == (m + 1) as real
    ensures w == f1(k) && z == Tally(a, b, m + 1)(k)
    ensures s == Added(Scaled(p, Shifted(Weighted(f, a))), Scaled(q, Weighted(f, b)))(k)
    ensures w * z == n * s
  {
    var i, j, u, v, x, y := k as real, (m + 1 - k) as real, Last(f, k), f(k), Last(a, k), b(k);
    w, z, s := f1(k), Tally(a, b, m + 1)(k), Added(Scaled(p, Shifted(Weighted(f, a))), Scaled(q, Weighted(f, b)))(k);
    ShareGives(p, q, f, f1, m, k, i, j, n, w, u, v);
    TallyIs(a, b, m + 1, k, z, x, y, i, j);
    SharesAre(p, q, f, a, b, k, s, u, x, v, y);
    TermArithmetic(i, j, n, p, q, u, v, w, x, y, z, s);
  }

  ghost predicate IsMultiple(n: real, f: nat -> real, g: nat -> real, all: nat -> real, k: nat)
  {
    f(k) * g(k) == n * all(k)
  }

  lemma MultipleAt(n: real, f: nat -> real, g: nat -> real, all: nat -> real, k: nat, w: real, z: real, s: real)
    requires w == f(k) && z == g(k) && s == all(k) && w * z == n * s
    ensures IsMultiple(n, f, g, all, k)
  {
  }

  lemma TermArithmetic(i: real, j: real, n: real, p: real, q: real, u: real, v: real, w: real, x: real, y: real, z: real, s: real)
    requires i * w == n * (p * u) && j * w == n * (q * v)
    requires z == i * x + j * y && s == p * (u * x) + q * (v * y)
    ensures w * z == n * s
  {
    MoveFactors(i, n, w, p, u, x);
    MoveFactors(j, n, w, q, v, y);
    AddTerms(w, i * x, j * y, z, n, p * (u * x), q * (v * y), s);
  }

  lemma AddTerms(w: real, x: real, y: real, z: real, n: real, won: real, lost: real, s: real)
    requires z == x + y && s == won + lost && w * x == n * won && w * y == n * lost
    ensures w * z == n * s
  {
    Distribute(w, x, y);
    Distribute(n, won, lost);
  }

  lemma MoveFactors(k: real, n: real, w: real, p: real, u: real, x: real)
    requires k * w == n * (p * u)
    ensures w * (k * x) == n * (p * (u * x))
  {
    assert w * (k * x) == (k * w) * x;
    assert n * (p * (u * x)) == (n * (p * u)) * x;
  }

  lemma {:induction false} SumOfMultiples(n: real, f: nat -> real, g: nat -> real, all: nat -> real, k: nat, m: nat)
    requires forall i: nat :: i <= m ==> IsMultiple(n, f, g, all, i)
    ensures Sum(Weighted(f, g), k, m) == n * Sum(all, k, m)
    decreases m + 1 - k
  {
    if k <= m {
      assert IsMultiple(n, f, g, all, k);
      SumOfMultiples(n, f, g, all, k + 1, m);
      Distribute(n, all(k), Sum(all, k + 1, m));
    } else {
      ZeroTimes(n);
    }
  }

  ghost function Added(f: nat -> real, g: nat -> real): nat -> real
  {
    (i: nat) => f(i) + g(i)
  }

  lemma TallyTermAt(p: real, q: real, f: nat -> real, f1: nat -> real, m: nat, a: nat -> real, b: nat -> real, n: real, k: nat)
    requires k <= m + 1 && ShareAt(p, q, f, f1, m, k) && n == (m + 1) as real
    ensures IsMultiple(n, f1, Tally(a, b, m + 1), Added(Scaled(p, Shifted(Weighted(f, a))), Scaled(q, Weighted(f, b))), k)
  {
    var w, z, s := TallyTerm(p, q, f, f1, m, a, b, k, n);
    MultipleAt(n, f1, Tally(a, b, m + 1), Added(Scaled(p, Shifted(Weighted(f, a))), Scaled(q, Weighted(f, b))), k, w, z, s);
  }

  lemma TallySum(p: real, q: real, f: nat -> real, f1: nat -> real, m: nat, a: nat -> real, b: nat -> real, n: real)
      returns (x: real, y: real)
    requires HaveShares(p, q, f, f1, m) && n == (m + 1) as real
    ensures x == Sum(Weighted(f1, Tally(a, b, m + 1)), 0, m + 1)
    ensures y == Sum(Added(Scaled(p, Shifted(Weighted(f, a))), Scaled(q, Weighted(f, b))), 0, m + 1)
    ensures x == n * y
  {
    var all, z := Added(Scaled(p, Shifted(Weighted(f, a))), Scaled(q, Weighted(f, b))), Tally(a, b, m + 1);
    forall k: nat | k <= m + 1 ensures IsMultiple(n, f1, z, all, k) {
      assert ShareAt(p, q, f, f1, m, k);
      TallyTermAt(p, q, f, f1, m, a, b, n, k);
    }
    SumOfMultiples(n, f1, z, all, 0, m + 1);
    x, y := Sum(Weighted(f1, z), 0, m + 1), Sum(all, 0, m + 1);
  }

  lemma FullTally(p: real, q: real, m: nat, a: nat -> real, b: nat -> real, n: real) returns (v: real, s: real)
    requires q == 1.0 - p && n == (m + 1) as real
    ensures v == Worth(p, m + 1, Tally(a, b, m + 1)) && s == p * Worth(p, m, a) + q * Worth(p, m, b)
    ensures v == n * s
  {
    PmfsShare(p, q, m);
    v, s := TallySum(p, q, PmfOf(m, p), PmfOf(m + 1, p), m, a, b, n);
    BothSums(p, q, m, a, b);
  }

  lemma {:induction false} BothSums(p: real, q: real, m: nat, a: nat -> real, b: nat -> real)
    ensures Sum(Added(Scaled(p, Shifted(Weighted(PmfOf(m, p), a))), Scaled(q, Weighted(PmfOf(m, p), b))), 0, m + 1)
         == p * Worth(p, m, a) + q * Worth(p, m, b)
  {
    var won, lost := Scaled(p, Shifted(Weighted(PmfOf(m, p), a))), Scaled(q, Weighted(PmfOf(m, p), b));
    SumAdds(won, lost, Added(won, lost), 0, m + 1);
    WonSum(p, Weighted(PmfOf(m, p), a), m);
    NoWeightBeyond(p, m);
    LostSum(q, PmfOf(m, p), b, m);
  }

  lemma BlendTerm(w: real, p: real, q: real, a: real, b: real, z: real)
    requires q == 1.0 - p && z == Blend(p, a, b)
    ensures w * z == p * (w * a) + q * (w * b)
  {
    SwapFactors(w, p, q, a, b);
  }

  ghost predicate IsSumAt(f: nat -> real, g: nat -> real, u: nat -> real, k: nat)
  {
    u(k) == f(k) + g(k)
  }

  lemma BlendTermAt(p: real, q: real, f: nat -> real, a: nat -> real, b: nat -> real, k: nat)
    requires q == 1.0 - p
    ensures IsSumAt(Scaled(p, Weighted(f, a)), Scaled(q, Weighted(f, b)), Weighted(f, BlendOf(p, a, b)), k)
  {
    BlendTerm(f(k), p, q, a(k), b(k), BlendOf(p, a, b)(k));
  }

  lemma {:induction false} BlendSum(p: real, q: real, f: nat -> real, a: nat -> real, b: nat -> real, m: nat)
    requires q == 1.0 - p
    ensures Sum(Weighted(f, BlendOf(p, a, b)), 0, m) == Sum(Scaled(p, Weighted(f, a)), 0, m) + Sum(Scaled(q, Weighted(f, b)), 0, m)
  {
    var won, lost, all := Scaled(p, Weighted(f, a)), Scaled(q, Weighted(f, b)), Weighted(f, BlendOf(p, a, b));
    forall k: nat ensures IsSumAt(won, lost, all, k) {
      BlendTermAt(p, q, f, a, b, k);
    }
    SumOfSums(won, lost, all, 0, m);
  }

  lemma {:induction false} SumOfSums(f: nat -> real, g: nat -> real, u: nat -> real, k: nat, n: nat)
    requires forall i: nat :: IsSumAt(f, g, u, i)
    ensures Sum(u, k, n) == Sum(f, k, n) + Sum(g, k, n)
    decreases n + 1 - k
  {
    if k <= n {
      assert IsSumAt(f, g, u, k);
      SumOfSums(f, g, u, k + 1, n);
    }
  }

  lemma WorthBlends(p: real, q: real, m: nat, a: nat -> real, b: nat -> real)
    requires q == 1.0 - p
    ensures Worth(p, m, BlendOf(p, a, b)) == p * Worth(p, m, a) + q * Worth(p, m, b)
  {
    var w := PmfOf(m, p);
    BlendSum(p, q, w, a, b, m);
    SumScales(p, Weighted(w, a), 0, m);
    SumScales(q, Weighted(w, b), 0, m);
  }

  lemma {:induction false} AllBelow(p: real, m: nat, a: nat -> real, b: nat -> real, n: nat, x: real)
    requires n > 0 && forall t: nat :: t < n ==> Worth(p, m, Chosen(a, b, t)) < x
    ensures WorthUpTo(p, m, a, b, n) < n as real * x
  {
    var j: nat := n - 1;
    assert Worth(p, m, Chosen(a, b, j)) < x;
    TimesNext(j as real, x);
    assert n as real == j as real + 1.0;
    if j > 0 {
      AllBelow(p, m, a, b, j, x);
    } else {
      ZeroTimes(x);
      assert WorthUpTo(p, m, a, b, 0) == 0.0;
    }
  }

  lemma Average(p: real, m: nat, a: nat -> real, b: nat -> real) returns (n: real, z: real, total: real)
    ensures n == (m + 1) as real && z == Worth(p, m, BlendOf(p, a, b)) && total == WorthUpTo(p, m + 1, a, b, m + 1)
    ensures total == n * z
  {
    n, z, total := (m + 1) as real, Worth(p, m, BlendOf(p, a, b)), WorthUpTo(p, m + 1, a, b, m + 1);
    var q := 1.0 - p;
    var v, s := FullTally(p, q, m, a, b, n);
    WorthBlends(p, q, m, a, b);
    assert s == z;
    WorthOfTally(p, m + 1, a, b, m + 1);
  }

  /** Averaged over `t`, taking the trial in changes nothing, so for some `t` the worth does not drop. */
  lemma SomeChoice(p: real, m: nat, a: nat -> real, b: nat -> real) returns (t: nat)
    ensures Worth(p, m, BlendOf(p, a, b)) <= Worth(p, m + 1, Chosen(a, b, t))
  {
    var n, z, total := Average(p, m, a, b);
    if forall i: nat :: i < m + 1 ==> Worth(p, m + 1, Chosen(a, b, i)) < z {
      AllBelow(p, m + 1, a, b, m + 1, z);
      assert false;
    }
    t :| t < m + 1 && Worth(p, m + 1, Chosen(a, b, t)) >= z;
  }

  lemma {:induction false} SameWorth(p: real, m: nat, f: nat -> real, g: nat -> real)
    requires forall k: nat :: f(k) == g(k)
    ensures Worth(p, m, f) == Worth(p, m, g)
  {
    WorthOfNothing(p, m, (k: nat) => 0.0);
    WorthAdds(p, m, g, (k: nat) => 0.0, f);
  }

  lemma TakeIn(p: real, m: nat, r: nat, e: Value, i: nat) returns (t: nat)
    requires i < r
    ensures Group(p, m, r, e) <= Group(p, m + 1, r - 1, Joined(e, i, t))
  {
    var a, b := FlipsOf(p, r - 1, With(e, i, true)), FlipsOf(p, r - 1, With(e, i, false));
    forall k: nat ensures FlipsOf(p, r, e)(k) == BlendOf(p, a, b)(k) {
      FlipsPullOut(p, r, k, [], e, i);
    }
    SameWorth(p, m, FlipsOf(p, r, e), BlendOf(p, a, b));
    t := SomeChoice(p, m, a, b);
    forall k: nat ensures FlipsOf(p, r - 1, Joined(e, i, t))(k) == Chosen(a, b, t)(k) {
      FlipsJoined(p, r - 1, k, [], e, i, t);
    }
    SameWorth(p, m + 1, FlipsOf(p, r - 1, Joined(e, i, t)), Chosen(a, b, t));
  }

  // ------------------------------------------------------------------ the scheme

  /** Whether stage `j` goes on, given the count of the group and the other trials' outcomes. */
  type Go = (nat, nat, seq<bool>) -> bool

  /**
    * Trial `i` belongs to the groups of stage `ranks[i]` and later. A stage either goes on to the next
    * or stops, and then passes if its group has at least `need` successes.
    */
  datatype Scheme = Scheme(ranks: seq<nat>, go: Go, stages: nat, need: nat -> nat)

  /** The successes among the listed trials that belong to stage `j`. */
  function Ups(ranks: seq<nat>, zs: seq<bool>, j: nat): nat
  {
    if ranks == [] || zs == [] then 0
    else (if zs[0] && ranks[0] <= j then 1 else 0) + Ups(ranks[1..], zs[1..], j)
  }

  /** The listed trials that belong to stage `j`. */
  function In(ranks: seq<nat>, j: nat): nat
  {
    if ranks == [] then 0 else (if ranks[0] <= j then 1 else 0) + In(ranks[1..], j)
  }

  ghost predicate Wins(g: Scheme, j: nat, k: nat, zs: seq<bool>)
    decreases g.stages - j
  {
    j < g.stages && if g.go(j, k, zs) then Wins(g, j + 1, k, zs) else k + Ups(g.ranks, zs, j) >= g.need(j)
  }

  ghost function WinValue(g: Scheme, j: nat): Value
  {
    (k: nat, zs: seq<bool>) => if Wins(g, j, k, zs) then 1.0 else 0.0
  }

  ghost predicate Below(zs: seq<bool>, ys: seq<bool>)
  {
    |zs| == |ys| && forall i :: 0 <= i < |zs| && zs[i] ==> ys[i]
  }

  /** More successes never turn going on into stopping. */
  ghost predicate Monotone(g: Scheme)
  {
    forall j: nat, k: nat, l: nat, zs, ys :: k <= l && |zs| == |g.ranks| && Below(zs, ys) && g.go(j, k, zs) ==> g.go(j, l, ys)
  }

  ghost predicate SameUpTo(ranks: seq<nat>, zs: seq<bool>, ys: seq<bool>, j: nat)
  {
    |zs| == |ranks| == |ys| && forall i :: 0 <= i < |ranks| && ranks[i] <= j ==> zs[i] == ys[i]
  }

  /** Going on is decided by the trials of the stage alone. */
  ghost predicate Local(g: Scheme)
  {
    forall j: nat, k: nat, zs, ys :: SameUpTo(g.ranks, zs, ys, j) ==> g.go(j, k, zs) == g.go(j, k, ys)
  }

  /** By itself, each stage from `j0` on passes with probability at most `level`. */
  ghost predicate RareFrom(g: Scheme, m: nat, p: real, level: real, j0: nat)
  {
    forall j: nat :: j0 <= j < g.stages ==> Tail(g.need(j), m + In(g.ranks, j), p) <= level
  }

  function Without(ranks: seq<nat>, i: nat): seq<nat>
    requires i < |ranks|
  {
    ranks[..i] + ranks[i + 1..]
  }

  ghost function JoinedGo(go: Go, i: nat, t: nat): Go
  {
    (j: nat, k: nat, zs: seq<bool>) => if k > t then go(j, k - 1, Put(zs, i, true)) else go(j, k, Put(zs, i, false))
  }

  ghost function JoinedScheme(g: Scheme, i: nat, t: nat): Scheme
    requires i < |g.ranks|
  {
    Scheme(Without(g.ranks, i), JoinedGo(g.go, i, t), g.stages, g.need)
  }

  lemma RestWithout(ranks: seq<nat>, i: nat)
    requires 0 < i < |ranks|
    ensures Without(ranks, i)[0] == ranks[0] && Without(ranks, i)[1..] == Without(ranks[1..], i - 1) && ranks[1..][i - 1] == ranks[i]
  {
    assert ranks[1..][..i - 1] == ranks[..i][1..] && ranks[1..][i..] == ranks[i + 1..];
    assert (ranks[..i] + ranks[i + 1..])[1..] == ranks[..i][1..] + ranks[i + 1..];
  }

  lemma RestPut(zs: seq<bool>, i: nat, y: bool)
    requires 0 < i <= |zs|
    ensures Put(zs, i, y)[0] == zs[0] && Put(zs, i, y)[1..] == Put(zs[1..], i - 1, y)
  {
    assert zs[1..][..i - 1] == zs[..i][1..] && zs[1..][i - 1..] == zs[i..];
    assert (zs[..i] + ([y] + zs[i..]))[1..] == zs[..i][1..] + ([y] + zs[i..]);
    assert Put(zs, i, y) == zs[..i] + ([y] + zs[i..]);
  }

  lemma {:induction false} UpsPut(ranks: seq<nat>, zs: seq<bool>, i: nat, y: bool, j: nat)
    requires i < |ranks| && |zs| + 1 == |ranks|
    ensures Ups(ranks, Put(zs, i, y), j) == Ups(Without(ranks, i), zs, j) + if y && ranks[i] <= j then 1 else 0
  {
    if i == 0 {
      assert Without(ranks, 0) == ranks[1..] && Put(zs, 0, y)[1..] == zs;
    } else {
      UpsPut(ranks[1..], zs[1..], i - 1, y, j);
      RestWithout(ranks, i);
      RestPut(zs, i, y);
    }
  }

  lemma {:induction false} InWithout(ranks: seq<nat>, i: nat, j: nat)
    requires i < |ranks|
    ensures In(ranks, j) == In(Without(ranks, i), j) + if ranks[i] <= j then 1 else 0
  {
    if i == 0 {
      assert Without(ranks, 0) == ranks[1..];
    } else {
      InWithout(ranks[1..], i - 1, j);
      RestWithout(ranks, i);
    }
  }

  lemma {:induction false} NoneIn(ranks: seq<nat>, zs: seq<bool>, j: nat)
    requires forall i :: 0 <= i < |ranks| ==> ranks[i] > j
    ensures Ups(ranks, zs, j) == 0 && In(ranks, j) == 0
  {
    if ranks != [] {
      NoneIn(ranks[1..], if zs == [] then [] else zs[1..], j);
    }
  }

  /** The scheme with trial `i` taken in passes exactly when the old one does. */
  lemma {:induction false} JoinedWins(g: Scheme, i: nat, t: nat, j: nat, k: nat, zs: seq<bool>)
    requires i < |g.ranks| && g.ranks[i] <= j && |zs| + 1 == |g.ranks|
    ensures Wins(JoinedScheme(g, i, t), j, k, zs)
       <==> if k > t then Wins(g, j, k - 1, Put(zs, i, true)) else Wins(g, j, k, Put(zs, i, false))
    decreases g.stages - j
  {
    if j < g.stages {
      JoinedWins(g, i, t, j + 1, k, zs);
      UpsPut(g.ranks, zs, i, true, j);
      UpsPut(g.ranks, zs, i, false, j);
    }
  }

  lemma JoinedValue(p: real, m: nat, g: Scheme, i: nat, t: nat, j: nat, r: nat)
    requires 0.0 <= p <= 1.0 && i < |g.ranks| && g.ranks[i] <= j && r + 1 == |g.ranks|
    ensures Group(p, m, r, Joined(WinValue(g, j), i, t)) <= Group(p, m, r, WinValue(JoinedScheme(g, i, t), j))
  {
    var e, f := Joined(WinValue(g, j), i, t), WinValue(JoinedScheme(g, i, t), j);
    forall k: nat, zs: seq<bool> | |zs| == r ensures e(k, zs) <= f(k, zs) {
      JoinedWins(g, i, t, j, k, zs);
    }
    GroupMonotone(p, m, r, e, f);
  }

  lemma PutBelow(zs: seq<bool>, ys: seq<bool>, i: nat, x: bool, y: bool)
    requires Below(zs, ys) && (x ==> y) && i <= |zs|
    ensures Below(Put(zs, i, x), Put(ys, i, y))
  {
  }

  lemma JoinedMonotone(g: Scheme, i: nat, t: nat)
    requires Monotone(g) && i < |g.ranks|
    ensures Monotone(JoinedScheme(g, i, t))
  {
    var h := JoinedScheme(g, i, t);
    forall j: nat, k: nat, l: nat, zs, ys | k <= l && |zs| == |h.ranks| && Below(zs, ys) && h.go(j, k, zs) ensures h.go(j, l, ys) {
      PutBelow(zs, ys, i, k > t, l > t);
    }
  }

  lemma PutSame(ranks: seq<nat>, zs: seq<bool>, ys: seq<bool>, i: nat, y: bool, j: nat)
    requires i < |ranks| && SameUpTo(Without(ranks, i), zs, ys, j)
    ensures SameUpTo(ranks, Put(zs, i, y), Put(ys, i, y), j)
  {
    forall n | 0 <= n < |ranks| && ranks[n] <= j ensures Put(zs, i, y)[n] == Put(ys, i, y)[n] {
      if n < i {
        assert Without(ranks, i)[n] == ranks[n];
      } else if n > i {
        assert Without(ranks, i)[n - 1] == ranks[n];
      }
    }
  }

  lemma JoinedLocal(g: Scheme, i: nat, t: nat)
    requires Local(g) && i < |g.ranks|
    ensures Local(JoinedScheme(g, i, t))
  {
    var h := JoinedScheme(g, i, t);
    forall j: nat, k: nat, zs, ys | SameUpTo(h.ranks, zs, ys, j) ensures h.go(j, k, zs) == h.go(j, k, ys) {
      PutSame(g.ranks, zs, ys, i, k > t, j);
    }
  }

  lemma JoinedRare(g: Scheme, m: nat, p: real, level: real, i: nat, t: nat, j0: nat)
    requires i < |g.ranks| && g.ranks[i] <= j0 && RareFrom(g, m, p, level, j0)
    ensures RareFrom(JoinedScheme(g, i, t), m + 1, p, level, j0)
  {
    var h := JoinedScheme(g, i, t);
    forall j: nat | j0 <= j < h.stages ensures Tail(h.need(j), m + 1 + In(h.ranks, j), p) <= level {
      InWithout(g.ranks, i, j);
    }
  }

  // ------------------------------------------------------------------ the bound

  ghost function AtLeastValue(need: nat): Value
  {
    (k: nat, zs: seq<bool>) => if k >= need then 1.0 else 0.0
  }

  lemma {:induction false} FlipsOfCount(p: real, r: nat, k: nat, zs: seq<bool>, need: nat)
    ensures Flips(p, r, k, zs, AtLeastValue(need)) == if k >= need then 1.0 else 0.0
  {
    if r > 0 {
      FlipsOfCount(p, r - 1, k, zs + [true], need);
      FlipsOfCount(p, r - 1, k, zs + [false], need);
      BlendSame(p, if k >= need then 1.0 else 0.0);
    }
  }

  lemma BlendSame(p: real, x: real)
    ensures Blend(p, x, x) == x
  {
  }

  lemma {:induction false} SumFrom(f: nat -> real, g: nat -> real, need: nat, i: nat, m: nat)
    requires forall k: nat :: g(k) == if k >= need then 1.0 else 0.0
    ensures Sum(Weighted(f, g), i, m) == if i >= need then Sum(f, i, m) else Sum(f, need, m)
    decreases m + 1 - i
  {
    if i <= m {
      SumFrom(f, g, need, i + 1, m);
      ZeroTimes(f(i));
    }
  }

  lemma GroupOfCount(p: real, m: nat, r: nat, need: nat)
    ensures Group(p, m, r, AtLeastValue(need)) == Tail(need, m, p)
  {
    var g := FlipsOf(p, r, AtLeastValue(need));
    forall k: nat ensures g(k) == if k >= need then 1.0 else 0.0 {
      FlipsOfCount(p, r, k, [], need);
    }
    SumFrom(PmfOf(m, p), g, need, 0, m);
  }

  /** No trial outside the group belongs to stage `j` any more: it goes on by the count alone. */
  lemma OnlyCounted(g: Scheme, j: nat, k: nat, zs: seq<bool>, ys: seq<bool>)
    requires Local(g) && (forall i :: 0 <= i < |g.ranks| ==> g.ranks[i] > j) && |zs| == |g.ranks| == |ys|
    ensures g.go(j, k, zs) == g.go(j, k, ys)
  {
    assert SameUpTo(g.ranks, zs, ys, j);
  }

  lemma SelfBelow(zs: seq<bool>)
    ensures Below(zs, zs)
  {
  }

  /** The stage stops at the needed count: whatever passes, here or later, has at least that count. */
  lemma {:induction false} WinsByCount(g: Scheme, j: nat, k: nat, zs: seq<bool>)
    requires Monotone(g) && Local(g) && (forall i :: 0 <= i < |g.ranks| ==> g.ranks[i] > j) && |zs| == |g.ranks|
    requires j < g.stages && !g.go(j, g.need(j), zs) && Wins(g, j, k, zs)
    ensures k >= g.need(j)
  {
    NoneIn(g.ranks, zs, j);
    SelfBelow(zs);
  }

  /** The stage goes on at the needed count: it never passes, so it can be left out. */
  lemma WinsLater(g: Scheme, j: nat, k: nat, zs: seq<bool>)
    requires Monotone(g) && Local(g) && (forall i :: 0 <= i < |g.ranks| ==> g.ranks[i] > j) && |zs| == |g.ranks|
    requires j < g.stages && g.go(j, g.need(j), zs) && Wins(g, j, k, zs)
    ensures Wins(g, j + 1, k, zs)
  {
    NoneIn(g.ranks, zs, j);
    SelfBelow(zs);
  }

  /** The scheme passes no more often than a single stage may. */
  lemma {:induction false} SchemeBound(p: real, level: real, g: Scheme, j: nat, m: nat)
    requires 0.0 <= p <= 1.0 && level >= 0.0 && Monotone(g) && Local(g) && RareFrom(g, m, p, level, j)
    ensures Group(p, m, |g.ranks|, WinValue(g, j)) <= level
    decreases |g.ranks| + (if j < g.stages then g.stages - j else 0)
  {
    var r := |g.ranks|;
    if j >= g.stages {
      NeverWins(p, m, g, j);
    } else if i: nat :| i < r && g.ranks[i] <= j {
      var t := TakeIn(p, m, r, WinValue(g, j), i);
      JoinedValue(p, m + 1, g, i, t, j, r - 1);
      JoinedMonotone(g, i, t);
      JoinedLocal(g, i, t);
      JoinedRare(g, m, p, level, i, t, j);
      SchemeBound(p, level, JoinedScheme(g, i, t), j, m + 1);
    } else {
      var zeros := seq(r, _ => false);
      if g.go(j, g.need(j), zeros) {
        LeaveOut(p, m, g, j, zeros);
        SchemeBound(p, level, g, j + 1, m);
      } else {
        StopHere(p, m, g, j, zeros);
        NoneIn(g.ranks, zeros, j);
      }
    }
  }

  lemma NeverWins(p: real, m: nat, g: Scheme, j: nat)
    requires j >= g.stages && 0.0 <= p <= 1.0
    ensures Group(p, m, |g.ranks|, WinValue(g, j)) <= 0.0
  {
    GroupOfCount(p, m, |g.ranks|, m + 1);
    GroupMonotone(p, m, |g.ranks|, WinValue(g, j), AtLeastValue(m + 1));
  }

  lemma LeaveOut(p: real, m: nat, g: Scheme, j: nat, zeros: seq<bool>)
    requires 0.0 <= p <= 1.0 && Monotone(g) && Local(g) && (forall i :: 0 <= i < |g.ranks| ==> g.ranks[i] > j)
    requires |zeros| == |g.ranks| && j < g.stages && g.go(j, g.need(j), zeros)
    ensures Group(p, m, |g.ranks|, WinValue(g, j)) <= Group(p, m, |g.ranks|, WinValue(g, j + 1))
  {
    var e, f := WinValue(g, j), WinValue(g, j + 1);
    forall k: nat, zs: seq<bool> | |zs| == |g.ranks| ensures e(k, zs) <= f(k, zs) {
      OnlyCounted(g, j, g.need(j), zeros, zs);
      if Wins(g, j, k, zs) {
        WinsLater(g, j, k, zs);
      }
    }
    GroupMonotone(p, m, |g.ranks|, e, f);
  }

  lemma StopHere(p: real, m: nat, g: Scheme, j: nat, zeros: seq<bool>)
    requires 0.0 <= p <= 1.0 && Monotone(g) && Local(g) && (forall i :: 0 <= i < |g.ranks| ==> g.ranks[i] > j)
    requires |zeros| == |g.ranks| && j < g.stages && !g.go(j, g.need(j), zeros)
    ensures Group(p, m, |g.ranks|, WinValue(g, j)) <= Tail(g.need(j), m, p)
  {
    var e, f := WinValue(g, j), AtLeastValue(g.need(j));
    forall k: nat, zs: seq<bool> | |zs| == |g.ranks| ensures e(k, zs) <= f(k, zs) {
      OnlyCounted(g, j, g.need(j), zeros, zs);
      if Wins(g, j, k, zs) {
        WinsByCount(g, j, k, zs);
      }
    }
    GroupMonotone(p, m, |g.ranks|, e, f);
    GroupOfCount(p, m, |g.ranks|, g.need(j));
  }
}
