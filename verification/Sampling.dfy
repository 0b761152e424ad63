/**
  * How often the precision-mode threshold searches of src/pccf.py go wrong, over calibration pools
  * drawn independently from any finite distribution of scored and labelled items.
  */
module Sampling {
  import opened ClopperPearson
  import opened Precision
  import opened Optional
  import opened Sorting

  /** Items and their probabilities. */
  datatype Source = Source(items: seq<(real, bool)>, q: seq<real>)

  ghost function Total(q: seq<real>): real
  {
    if |q| == 0 then 0.0 else Total(q[..|q| - 1]) + q[|q| - 1]
  }

  ghost predicate IsSource(d: Source)
  {
    |d.items| == |d.q| && (forall i :: 0 <= i < |d.q| ==> d.q[i] >= 0.0) && Total(d.q) == 1.0
  }

  type Event = Pool -> bool

  /** The probability that `n` more independent draws turn `pool` into one with the event. */
  ghost function Chance(d: Source, n: nat, pool: Pool, e: Event): real
    requires |d.items| == |d.q|
    decreases n, |d.q| + 1
  {
    if n == 0 then (if e(pool) then 1.0 else 0.0) else ChanceOver(d, |d.q|, n, pool, e)
  }

  /** The part of it in which the next draw is one of the first `k` items. */
  ghost function ChanceOver(d: Source, k: nat, n: nat, pool: Pool, e: Event): real
    requires |d.items| == |d.q| && k <= |d.q| && n > 0
    decreases n, k
  {
    if k == 0 then 0.0
    else ChanceOver(d, k - 1, n, pool, e) + d.q[k - 1] * Chance(d, n - 1, pool + [d.items[k - 1]], e)
  }

  // ------------------------------------------------------------------ laws of chance

  predicate DrawnFrom(d: Source, pool: Pool)
  {
    forall x :: x in pool ==> x in d.items
  }

  lemma Nonneg(a: real, b: real)
    requires a >= 0.0 && b >= 0.0
    ensures a * b >= 0.0
  {
  }

  lemma TimesLe(a: real, x: real, y: real)
    requires a >= 0.0 && x <= y
    ensures a * x <= a * y
  {
    Nonneg(a, y - x);
    assert a * (y - x) == a * y - a * x;
  }

  lemma OverUnfolds(d: Source, j: nat, n: nat, pool: Pool, e: Event) returns (whole: real, prev: real, w: real, next: real)
    requires |d.items| == |d.q| && 0 < j <= |d.q| && n > 0
    ensures whole == ChanceOver(d, j, n, pool, e) && prev == ChanceOver(d, j - 1, n, pool, e)
    ensures w == d.q[j - 1] && next == Chance(d, n - 1, pool + [d.items[j - 1]], e)
    ensures whole == prev + w * next
  {
    whole, prev := ChanceOver(d, j, n, pool, e), ChanceOver(d, j - 1, n, pool, e);
    w, next := d.q[j - 1], Chance(d, n - 1, pool + [d.items[j - 1]], e);
  }

  lemma {:induction false} ChanceMonotone(d: Source, n: nat, pool: Pool, e: Event, f: Event)
    requires IsSource(d) && DrawnFrom(d, pool) && forall x :: DrawnFrom(d, x) && e(x) ==> f(x)
    ensures Chance(d, n, pool, e) <= Chance(d, n, pool, f)
    decreases n, |d.q| + 1
  {
    if n > 0 {
      OverMonotone(d, |d.q|, n, pool, e, f);
    } else {
      assert DrawnFrom(d, pool) && (e(pool) ==> f(pool));
    }
  }

  lemma {:induction false} OverMonotone(d: Source, k: nat, n: nat, pool: Pool, e: Event, f: Event)
    requires IsSource(d) && DrawnFrom(d, pool) && forall x :: DrawnFrom(d, x) && e(x) ==> f(x)
    requires k <= |d.q| && n > 0
    ensures ChanceOver(d, k, n, pool, e) <= ChanceOver(d, k, n, pool, f)
    decreases n, k
  {
    if k > 0 {
      var next := pool + [d.items[k - 1]];
      OverMonotone(d, k - 1, n, pool, e, f);
      ChanceMonotone(d, n - 1, next, e, f);
      var x, prev, w, y := OverUnfolds(d, k, n, pool, e);
      var x', prev', w', y' := OverUnfolds(d, k, n, pool, f);
      TimesLe(w, y, y');
    }
  }

  lemma {:induction false} ChanceUnion(d: Source, n: nat, pool: Pool, e: Event, f: Event, u: Event)
    requires IsSource(d) && forall x :: u(x) <==> e(x) || f(x)
    ensures Chance(d, n, pool, u) <= Chance(d, n, pool, e) + Chance(d, n, pool, f)
    decreases n, |d.q| + 1
  {
    if n > 0 {
      OverUnion(d, |d.q|, n, pool, e, f, u);
    }
  }

  lemma {:induction false} OverUnion(d: Source, k: nat, n: nat, pool: Pool, e: Event, f: Event, u: Event)
    requires IsSource(d) && (forall x :: u(x) <==> e(x) || f(x)) && k <= |d.q| && n > 0
    ensures ChanceOver(d, k, n, pool, u) <= ChanceOver(d, k, n, pool, e) + ChanceOver(d, k, n, pool, f)
    decreases n, k
  {
    if k > 0 {
      var next := pool + [d.items[k - 1]];
      OverUnion(d, k - 1, n, pool, e, f, u);
      ChanceUnion(d, n - 1, next, e, f, u);
      var x, prev, w, a := OverUnfolds(d, k, n, pool, e);
      var x', prev', w', b := OverUnfolds(d, k, n, pool, f);
      var x'', prev'', w'', c := OverUnfolds(d, k, n, pool, u);
      TimesLe(w, c, a + b);
      assert w * (a + b) == w * a + w * b;
    }
  }

  lemma {:induction false} ChanceOfNothing(d: Source, n: nat, pool: Pool, e: Event)
    requires IsSource(d) && forall x :: !e(x)
    ensures Chance(d, n, pool, e) == 0.0
    decreases n, |d.q| + 1
  {
    if n > 0 {
      OverNothing(d, |d.q|, n, pool, e);
    }
  }

  lemma {:induction false} OverNothing(d: Source, k: nat, n: nat, pool: Pool, e: Event)
    requires IsSource(d) && (forall x :: !e(x)) && k <= |d.q| && n > 0
    ensures ChanceOver(d, k, n, pool, e) == 0.0
    decreases n, k
  {
    if k > 0 {
      OverNothing(d, k - 1, n, pool, e);
      ChanceOfNothing(d, n - 1, pool + [d.items[k - 1]], e);
    }
  }

  // ------------------------------------------------------------------ true, false or dropped

  /** The mass of the first `k` items that a threshold keeps with label `y`, or drops. */
  ghost function KeptMass(d: Source, k: nat, lam: real, y: bool): real
    requires |d.items| == |d.q| && k <= |d.q|
  {
    if k == 0 then 0.0
    else KeptMass(d, k - 1, lam, y) + if d.items[k - 1].0 <= lam && d.items[k - 1].1 == y then d.q[k - 1] else 0.0
  }

  ghost function DroppedMass(d: Source, k: nat, lam: real): real
    requires |d.items| == |d.q| && k <= |d.q|
  {
    if k == 0 then 0.0
    else DroppedMass(d, k - 1, lam) + if d.items[k - 1].0 <= lam then 0.0 else d.q[k - 1]
  }

  datatype Split = Split(t: real, f: real, drop: real)

  ghost predicate IsSplit(m: Split)
  {
    m.t >= 0.0 && m.f >= 0.0 && m.drop >= 0.0 && m.t + m.f + m.drop == 1.0
  }

  ghost function SplitOf(d: Source, lam: real): Split
    requires |d.items| == |d.q|
  {
    Split(KeptMass(d, |d.q|, lam, true), KeptMass(d, |d.q|, lam, false), DroppedMass(d, |d.q|, lam))
  }

  lemma {:induction false} MassesAddUp(d: Source, k: nat, lam: real)
    requires |d.items| == |d.q| && k <= |d.q| && forall i :: 0 <= i < |d.q| ==> d.q[i] >= 0.0
    ensures KeptMass(d, k, lam, true) >= 0.0 && KeptMass(d, k, lam, false) >= 0.0 && DroppedMass(d, k, lam) >= 0.0
    ensures KeptMass(d, k, lam, true) + KeptMass(d, k, lam, false) + DroppedMass(d, k, lam) == Total(d.q[..k])
  {
    if k > 0 {
      MassesAddUp(d, k - 1, lam);
      assert d.q[..k][..k - 1] == d.q[..k - 1];
    } else {
      assert |d.q[..0]| == 0;
    }
  }

  lemma SourceSplits(d: Source, lam: real)
    requires IsSource(d)
    ensures IsSplit(SplitOf(d, lam))
  {
    MassesAddUp(d, |d.q|, lam);
    assert d.q[..|d.q|] == d.q;
  }

  /** The true share among what a threshold keeps; a threshold that keeps nothing has share 0. */
  ghost function Share(m: Split): real
  {
    if m.t + m.f == 0.0 then 0.0 else m.t / (m.t + m.f)
  }

  lemma ShareOfKept(m: Split)
    requires IsSplit(m)
    ensures 0.0 <= Share(m) <= 1.0
    ensures m.t == (m.t + m.f) * Share(m) && m.f == (m.t + m.f) * (1.0 - Share(m))
  {
    var k, p := m.t + m.f, Share(m);
    if k > 0.0 {
      Ratio(m.t, k, p);
      assert k * (1.0 - p) == k - k * p;
    }
  }

  lemma Ratio(t: real, k: real, p: real)
    requires 0.0 <= t <= k && k > 0.0 && p == t / k
    ensures k * p == t && 0.0 <= p <= 1.0
  {
  }

  ghost function TrueShare(d: Source): real -> real
    requires |d.items| == |d.q|
  {
    (lam: real) => Share(SplitOf(d, lam))
  }

  /** What a final count of kept trues and kept items is worth. */
  type Worth = (nat, nat) -> real

  ghost function Mix(m: Split, a: real, b: real, g: real): real
  {
    m.t * a + m.f * b + m.drop * g
  }

  /** The mean worth after `r` more draws. */
  ghost function Draws(m: Split, c: Worth, r: nat, k: nat, n: nat): real
  {
    if r == 0 then c(k, n)
    else Mix(m, Draws(m, c, r - 1, k + 1, n + 1), Draws(m, c, r - 1, k, n + 1), Draws(m, c, r - 1, k, n))
  }

  ghost predicate Counts(e: Event, c: Worth, lam: real)
  {
    forall x: Pool :: c(Trues(Kept(x, lam)), |Kept(x, lam)|) == if e(x) then 1.0 else 0.0
  }

  lemma {:induction false} KeptGrows(pool: Pool, x: (real, bool), lam: real)
    ensures Kept(pool + [x], lam) == Kept(pool, lam) + if x.0 <= lam then [x.1] else []
    ensures Trues(Kept(pool + [x], lam)) == Trues(Kept(pool, lam)) + if x.0 <= lam && x.1 then 1 else 0
  {
    if |pool| == 0 {
      assert pool + [x] == [x] && |[x][1..]| == 0;
    } else {
      assert (pool + [x])[1..] == pool[1..] + [x];
      KeptGrows(pool[1..], x, lam);
    }
    TruesGrow(Kept(pool, lam), x.1);
    assert Kept(pool, lam) + [] == Kept(pool, lam);
  }

  lemma {:induction false} TruesGrow(s: seq<bool>, y: bool)
    ensures Trues(s + [y]) == Trues(s) + if y then 1 else 0
  {
    if |s| == 0 {
      assert s + [y] == [y] && |[y][1..]| == 0;
    } else {
      assert (s + [y])[1..] == s[1..] + [y];
      TruesGrow(s[1..], y);
    }
  }

  ghost function MassesUpTo(d: Source, k: nat, lam: real): Split
    requires |d.items| == |d.q| && k <= |d.q|
  {
    Split(KeptMass(d, k, lam, true), KeptMass(d, k, lam, false), DroppedMass(d, k, lam))
  }

  /** The chance of an event that depends on the kept counts only is a matter of the three masses. */
  lemma {:induction false} ChanceByCounts(d: Source, r: nat, pool: Pool, e: Event, c: Worth, lam: real)
    requires IsSource(d) && Counts(e, c, lam)
    ensures Chance(d, r, pool, e) == Draws(SplitOf(d, lam), c, r, Trues(Kept(pool, lam)), |Kept(pool, lam)|)
    decreases r, |d.q| + 1
  {
    if r > 0 {
      OverByCounts(d, |d.q|, r, pool, e, c, lam);
      assert MassesUpTo(d, |d.q|, lam) == SplitOf(d, lam);
    } else {
      assert c(Trues(Kept(pool, lam)), |Kept(pool, lam)|) == if e(pool) then 1.0 else 0.0;
    }
  }

  lemma {:induction false} OverByCounts(d: Source, j: nat, r: nat, pool: Pool, e: Event, c: Worth, lam: real)
    requires IsSource(d) && Counts(e, c, lam) && r > 0 && j <= |d.q|
    ensures var m, k, n := SplitOf(d, lam), Trues(Kept(pool, lam)), |Kept(pool, lam)|;
      ChanceOver(d, j, r, pool, e)
      == Mix(MassesUpTo(d, j, lam), Draws(m, c, r - 1, k + 1, n + 1), Draws(m, c, r - 1, k, n + 1), Draws(m, c, r - 1, k, n))
    decreases r, j
  {
    var m, k, n := SplitOf(d, lam), Trues(Kept(pool, lam)), |Kept(pool, lam)|;
    var a, b, g := Draws(m, c, r - 1, k + 1, n + 1), Draws(m, c, r - 1, k, n + 1), Draws(m, c, r - 1, k, n);
    if j > 0 {
      var x := d.items[j - 1];
      OverByCounts(d, j - 1, r, pool, e, c, lam);
      ChanceByCounts(d, r - 1, pool + [x], e, c, lam);
      NextCounts(m, c, r - 1, pool, x, lam);
      OneMoreItem(d, j, lam);
      var whole, prev, w, next := OverUnfolds(d, j, r, pool, e);
      MixOne(MassesUpTo(d, j - 1, lam), MassesUpTo(d, j, lam), w, x.0 <= lam, x.1, a, b, g, next);
      assert whole == prev + w * next == Mix(MassesUpTo(d, j, lam), a, b, g);
    } else {
      NoMass(MassesUpTo(d, 0, lam), a, b, g);
    }
  }

  lemma {:induction false} NextCounts(m: Split, c: Worth, r: nat, pool: Pool, x: (real, bool), lam: real)
    ensures var k, n := Trues(Kept(pool, lam)), |Kept(pool, lam)|;
      Draws(m, c, r, Trues(Kept(pool + [x], lam)), |Kept(pool + [x], lam)|)
      == if x.0 > lam then Draws(m, c, r, k, n) else if x.1 then Draws(m, c, r, k + 1, n + 1) else Draws(m, c, r, k, n + 1)
  {
    KeptGrows(pool, x, lam);
  }

  lemma OneMoreItem(d: Source, j: nat, lam: real)
    requires |d.items| == |d.q| && 0 < j <= |d.q|
    ensures var x, w, m := d.items[j - 1], d.q[j - 1], MassesUpTo(d, j - 1, lam);
      MassesUpTo(d, j, lam)
      == if !(x.0 <= lam) then m.(drop := m.drop + w) else if x.1 then m.(t := m.t + w) else m.(f := m.f + w)
  {
  }

  lemma NoMass(m: Split, a: real, b: real, g: real)
    requires m == Split(0.0, 0.0, 0.0)
    ensures Mix(m, a, b, g) == 0.0
  {
  }

  lemma MixOne(m: Split, m': Split, w: real, kept: bool, y: bool, a: real, b: real, g: real, next: real)
    requires next == if !kept then g else if y then a else b
    requires m' == if !kept then m.(drop := m.drop + w) else if y then m.(t := m.t + w) else m.(f := m.f + w)
    ensures Mix(m', a, b, g) == Mix(m, a, b, g) + w * next
  {
    assert (m.t + w) * a == m.t * a + w * a && (m.f + w) * b == m.f * b + w * b && (m.drop + w) * g == m.drop * g + w * g;
  }

  // ------------------------------------------------------------------ kept items are binomial trials

  ghost function Blend(p: real, a: real, b: real): real
  {
    p * a + (1.0 - p) * b
  }

  /** The mean worth after `s` more kept items, each true with probability `p`. */
  ghost function Trials(p: real, c: Worth, s: nat, k: nat, n: nat): real
  {
    if s == 0 then c(k, n) else Blend(p, Trials(p, c, s - 1, k + 1, n + 1), Trials(p, c, s - 1, k, n + 1))
  }

  /** First decide how many of `r` draws are kept, then, on top of `s`, try those. */
  ghost function Through(keep: real, drop: real, p: real, c: Worth, r: nat, s: nat, k: nat, n: nat): real
    decreases r
  {
    if r == 0 then Trials(p, c, s, k, n)
    else keep * Through(keep, drop, p, c, r - 1, s + 1, k, n) + drop * Through(keep, drop, p, c, r - 1, s, k, n)
  }

  lemma SwapMixes(keep: real, drop: real, p: real, a: real, a': real, b: real, b': real)
    ensures keep * Blend(p, a, b) + drop * Blend(p, a', b') == Blend(p, keep * a + drop * a', keep * b + drop * b')
  {
    var q := 1.0 - p;
    SwapFactors(keep, p, q, a, b);
    SwapFactors(drop, p, q, a', b');
    assert p * (keep * a + drop * a') == p * (keep * a) + p * (drop * a');
    assert q * (keep * b + drop * b') == q * (keep * b) + q * (drop * b');
  }

  lemma SwapFactors(w: real, p: real, q: real, a: real, b: real)
    ensures w * (p * a + q * b) == p * (w * a) + q * (w * b)
  {
  }

  lemma ThroughUnfolds(keep: real, drop: real, p: real, c: Worth, r: nat, s: nat, k: nat, n: nat)
    returns (whole: real, a: real, b: real)
    requires r > 0
    ensures whole == Through(keep, drop, p, c, r, s, k, n)
    ensures a == Through(keep, drop, p, c, r - 1, s + 1, k, n) && b == Through(keep, drop, p, c, r - 1, s, k, n)
    ensures whole == keep * a + drop * b
  {
    whole := Through(keep, drop, p, c, r, s, k, n);
    a, b := Through(keep, drop, p, c, r - 1, s + 1, k, n), Through(keep, drop, p, c, r - 1, s, k, n);
  }

  /** One of the kept items can be tried first. */
  lemma {:induction false} ThroughStep(keep: real, drop: real, p: real, c: Worth, r: nat, s: nat, k: nat, n: nat)
    ensures Through(keep, drop, p, c, r, s + 1, k, n)
         == Blend(p, Through(keep, drop, p, c, r, s, k + 1, n + 1), Through(keep, drop, p, c, r, s, k, n + 1))
    decreases r
  {
    if r > 0 {
      ThroughStep(keep, drop, p, c, r - 1, s + 1, k, n);
      ThroughStep(keep, drop, p, c, r - 1, s, k, n);
      var w, u, v := ThroughUnfolds(keep, drop, p, c, r, s + 1, k, n);
      var x, a, a' := ThroughUnfolds(keep, drop, p, c, r, s, k + 1, n + 1);
      var y, b, b' := ThroughUnfolds(keep, drop, p, c, r, s, k, n + 1);
      LinkMixes(keep, drop, p, a, a', b, b', u, v, x, y, w);
    }
  }

  lemma LinkMixes(keep: real, drop: real, p: real, a: real, a': real, b: real, b': real, u: real, v: real, x: real, y: real, w: real)
    requires u == Blend(p, a, b) && v == Blend(p, a', b') && w == keep * u + drop * v
    requires x == keep * a + drop * a' && y == keep * b + drop * b'
    ensures w == Blend(p, x, y)
  {
    SwapMixes(keep, drop, p, a, a', b, b');
  }

  lemma KeepThenTry(m: Split, keep: real, p: real, a: real, b: real, g: real, u: real)
    requires m.t == keep * p && m.f == keep * (1.0 - p) && u == Blend(p, a, b)
    ensures Mix(m, a, b, g) == keep * u + m.drop * g
  {
    var q := 1.0 - p;
    assert keep * (p * a + q * b) == (keep * p) * a + (keep * q) * b;
  }

  lemma {:induction false} DrawsAreThrough(m: Split, keep: real, p: real, c: Worth, r: nat, k: nat, n: nat)
    requires m.t == keep * p && m.f == keep * (1.0 - p)
    ensures Draws(m, c, r, k, n) == Through(keep, m.drop, p, c, r, 0, k, n)
    decreases r
  {
    if r > 0 {
      DrawsAreThrough(m, keep, p, c, r - 1, k + 1, n + 1);
      DrawsAreThrough(m, keep, p, c, r - 1, k, n + 1);
      DrawsAreThrough(m, keep, p, c, r - 1, k, n);
      ThroughStep(keep, m.drop, p, c, r - 1, 0, k, n);
      var whole, u, g := ThroughUnfolds(keep, m.drop, p, c, r, 0, k, n);
      var a, b := Draws(m, c, r - 1, k + 1, n + 1), Draws(m, c, r - 1, k, n + 1);
      KeepThenTry(m, keep, p, a, b, g, u);
    }
  }

  lemma Average(keep: real, drop: real, a: real, b: real, level: real)
    requires keep >= 0.0 && drop >= 0.0 && keep + drop == 1.0 && a <= level && b <= level
    ensures keep * a + drop * b <= level
  {
    var x, y, x', y' := keep * a, drop * b, keep * level, drop * level;
    assert x <= x' by {
      TimesLe(keep, a, level);
    }
    assert y <= y' by {
      TimesLe(drop, b, level);
    }
    assert x' + y' == level by {
      SplitLevel(keep, drop, level);
    }
  }

  lemma SplitLevel(keep: real, drop: real, level: real)
    requires keep + drop == 1.0
    ensures keep * level + drop * level == level
  {
  }

  lemma {:induction false} ThroughBound(keep: real, drop: real, p: real, c: Worth, r: nat, s: nat, k: nat, n: nat, level: real)
    requires keep >= 0.0 && drop >= 0.0 && keep + drop == 1.0
    requires forall i: nat :: Trials(p, c, i, k, n) <= level
    ensures Through(keep, drop, p, c, r, s, k, n) <= level
    decreases r
  {
    if r > 0 {
      ThroughBound(keep, drop, p, c, r - 1, s + 1, k, n, level);
      ThroughBound(keep, drop, p, c, r - 1, s, k, n, level);
      var whole, a, b := ThroughUnfolds(keep, drop, p, c, r, s, k, n);
      Average(keep, drop, a, b, level);
    }
  }

  // ------------------------------------------------------------------ trials are a binomial mean

  ghost function Weighted(f: nat -> real, g: nat -> real): nat -> real
  {
    (i: nat) => f(i) * g(i)
  }

  ghost predicate IsMixOf(next: real, p: real, win: real, q: real, lose: real)
  {
    next == p * win + q * lose
  }

  /** The weight of `i` successes after one more trial: a success more than `i - 1`, or a failure. */
  ghost predicate MixAt(p: real, q: real, f: nat -> real, f1: nat -> real, i: nat)
  {
    if i == 0 then f1(0) == q * f(0) else IsMixOf(f1(i), p, f(i - 1), q, f(i))
  }

  ghost predicate OneMoreTrial(p: real, q: real, f: nat -> real, f1: nat -> real)
  {
    forall i: nat :: MixAt(p, q, f, f1, i)
  }

  lemma PmfMix(p: real, q: real, s: nat, i: nat)
    requires q == 1.0 - p && i > 0
    ensures IsMixOf(Pmf(s + 1, i, p), p, Pmf(s, i - 1, p), q, Pmf(s, i, p))
  {
    PmfStep(s, i, p, q);
  }

  lemma PmfTerm(p: real, q: real, s: nat, i: nat)
    requires q == 1.0 - p
    ensures MixAt(p, q, PmfOf(s, p), PmfOf(s + 1, p), i)
  {
    if i > 0 {
      PmfMix(p, q, s, i);
    } else {
      PmfStep(s, 0, p, q);
    }
  }

  lemma PmfGainsTrial(p: real, q: real, s: nat)
    requires q == 1.0 - p
    ensures OneMoreTrial(p, q, PmfOf(s, p), PmfOf(s + 1, p))
  {
    var f, f1 := PmfOf(s, p), PmfOf(s + 1, p);
    forall i: nat ensures MixAt(p, q, f, f1, i) {
      PmfTerm(p, q, s, i);
    }
  }

  lemma Regroup(q: real, u: real, x: real, w: real)
    requires w == q * u
    ensures w * x == q * (u * x)
  {
  }

  lemma RegroupSum(p: real, u: real, q: real, v: real, x: real, w: real)
    requires w == p * u + q * v
    ensures w * x == p * (u * x) + q * (v * x)
  {
    assert (p * u) * x == p * (u * x) && (q * v) * x == q * (v * x);
  }

  lemma MeanTerm(p: real, q: real, f: nat -> real, f1: nat -> real, g: nat -> real, g1: nat -> real, i: nat)
    requires OneMoreTrial(p, q, f, f1) && forall j: nat :: g1(j) == g(j + 1)
    ensures Weighted(f1, g)(i) == Scaled(p, Shifted(Weighted(f, g1)))(i) + Scaled(q, Weighted(f, g))(i)
  {
    assert MixAt(p, q, f, f1, i);
    if i == 0 {
      Regroup(q, f(0), g(0), f1(0));
    } else {
      RegroupSum(p, f(i - 1), q, f(i), g(i), f1(i));
      assert g1(i - 1) == g(i);
    }
  }

  lemma MeanTerms(p: real, q: real, f: nat -> real, f1: nat -> real, s: nat, g: nat -> real, g1: nat -> real)
    requires OneMoreTrial(p, q, f, f1) && forall i: nat :: g1(i) == g(i + 1)
    ensures Sum(Weighted(f1, g), 0, s + 1)
         == Sum(Scaled(p, Shifted(Weighted(f, g1))), 0, s + 1) + Sum(Scaled(q, Weighted(f, g)), 0, s + 1)
  {
    var u, a, b := Weighted(f1, g), Scaled(p, Shifted(Weighted(f, g1))), Scaled(q, Weighted(f, g));
    forall i: nat | 0 <= i <= s + 1 ensures u(i) == a(i) + b(i) {
      MeanTerm(p, q, f, f1, g, g1, i);
    }
    SumAdds(a, b, u, 0, s + 1);
  }

  lemma CutSum(f: nat -> real, g: nat -> real, s: nat)
    requires f(s + 1) == 0.0
    ensures Sum(Weighted(f, g), 0, s + 1) == Sum(Weighted(f, g), 0, s)
  {
    assert Weighted(f, g)(s + 1) == 0.0 * g(s + 1) == 0.0;
    SumDropsLast(Weighted(f, g), 0, s);
  }

  /** Summing the recurrence against a worth `g`, whose shift by one success is `g1`. */
  lemma {:induction false} MeanStep(p: real, q: real, f: nat -> real, f1: nat -> real, s: nat, g: nat -> real, g1: nat -> real)
    requires OneMoreTrial(p, q, f, f1) && f(s + 1) == 0.0 && forall i: nat :: g1(i) == g(i + 1)
    ensures Sum(Weighted(f1, g), 0, s + 1) == p * Sum(Weighted(f, g1), 0, s) + q * Sum(Weighted(f, g), 0, s)
  {
    MeanTerms(p, q, f, f1, s, g, g1);
    WonSum(p, Weighted(f, g1), s);
    LostSum(q, f, g, s);
  }

  lemma {:induction false} WonSum(p: real, w: nat -> real, s: nat)
    ensures Sum(Scaled(p, Shifted(w)), 0, s + 1) == p * Sum(w, 0, s)
  {
    SumScales(p, Shifted(w), 0, s + 1);
    SumShifts(w, 1, s);
  }

  lemma {:induction false} LostSum(q: real, f: nat -> real, g: nat -> real, s: nat)
    requires f(s + 1) == 0.0
    ensures Sum(Scaled(q, Weighted(f, g)), 0, s + 1) == q * Sum(Weighted(f, g), 0, s)
  {
    SumScales(q, Weighted(f, g), 0, s + 1);
    CutSum(f, g, s);
  }

  ghost function Later(c: Worth, k: nat, n: nat): nat -> real
  {
    (i: nat) => c(k + i, n)
  }

  ghost function Mean(p: real, c: Worth, s: nat, k: nat, n: nat): real
  {
    Sum(Weighted(PmfOf(s, p), Later(c, k, n)), 0, s)
  }

  lemma MeanOfNoTrial(p: real, c: Worth, k: nat, n: nat)
    ensures Mean(p, c, 0, k, n) == c(k, n)
  {
    var w := Weighted(PmfOf(0, p), Later(c, k, n));
    assert Pmf(0, 0, p) == 1.0;
    assert w(0) == 1.0 * c(k + 0, n) && Sum(w, 1, 0) == 0.0;
  }

  lemma NoWeightBeyond(p: real, s: nat)
    ensures PmfOf(s, p)(s + 1) == 0.0
  {
  }

  lemma MeanOfOneMore(p: real, q: real, c: Worth, s: nat, k: nat, n: nat)
    requires q == 1.0 - p
    ensures Mean(p, c, s + 1, k, n) == p * Mean(p, c, s, k + 1, n) + q * Mean(p, c, s, k, n)
  {
    PmfGainsTrial(p, q, s);
    NoWeightBeyond(p, s);
    MeanStep(p, q, PmfOf(s, p), PmfOf(s + 1, p), s, Later(c, k, n), Later(c, k + 1, n));
  }

  lemma MeanBlends(p: real, c: Worth, s: nat, k: nat, n: nat)
    ensures Mean(p, c, s + 1, k, n) == Blend(p, Mean(p, c, s, k + 1, n), Mean(p, c, s, k, n))
  {
    MeanOfOneMore(p, 1.0 - p, c, s, k, n);
  }

  lemma {:induction false} TrialsAreMean(p: real, c: Worth, s: nat, k: nat, n: nat)
    ensures Trials(p, c, s, k, n) == Mean(p, c, s, k, n + s)
    decreases s
  {
    if s == 0 {
      MeanOfNoTrial(p, c, k, n);
    } else {
      TrialsAreMean(p, c, s - 1, k + 1, n + 1);
      TrialsAreMean(p, c, s - 1, k, n + 1);
      MeanBlends(p, c, s - 1, k, n + s);
    }
  }

  lemma {:induction false} MeanIsProbability(p: real, e: nat -> bool, g: nat -> real, i: nat, s: nat)
    requires forall j: nat :: g(j) == if e(j) then 1.0 else 0.0
    ensures Sum(Weighted(PmfOf(s, p), g), i, s) == Probability(e, i, s, p)
    decreases s + 1 - i
  {
    if i <= s {
      MeanIsProbability(p, e, g, i + 1, s);
    }
  }

  // ------------------------------------------------------------------ the guarantees

  ghost function OverreachWorth(p: real, level: real): Worth
  {
    (k: nat, n: nat) => if Bound(k, n, level, ROUNDS) > p then 1.0 else 0.0
  }

  ghost function OverreachAt(d: Source, lam: real, level: real): Event
    requires |d.items| == |d.q|
  {
    (pool: Pool) => Overreaches(pool, TrueShare(d), lam, level)
  }

  lemma {:induction false} TrialsRarelyOverreach(p: real, level: real, s: nat)
    requires level > 0.0 && 0.0 <= p <= 1.0
    ensures Trials(p, OverreachWorth(p, level), s, 0, 0) <= level
  {
    var c, e := OverreachWorth(p, level), Overreach(s, level, p, ROUNDS);
    TrialsAreMean(p, c, s, 0, 0);
    MeanIsProbability(p, e, Later(c, 0, s), 0, s);
    LowerBoundRarelyOverreaches(s, level, p, ROUNDS);
  }

  /**
    * Whatever the items and their probabilities, whatever the pool size and the threshold: on a pool of
    * independent draws the bound exceeds the true share of what the threshold keeps with probability at
    * most `level`, although how many items it keeps is random too.
    */
  lemma {:induction false} BoundRarelyOverreaches(d: Source, size: nat, lam: real, level: real)
    requires IsSource(d) && level > 0.0
    ensures Chance(d, size, [], OverreachAt(d, lam, level)) <= level
  {
    var m := SplitOf(d, lam);
    SourceSplits(d, lam);
    ShareOfKept(m);
    var p := Share(m);
    var c := OverreachWorth(p, level);
    ChanceByCounts(d, size, [], OverreachAt(d, lam, level), c, lam);
    DrawsAreThrough(m, m.t + m.f, p, c, size, 0, 0);
    forall i: nat ensures Trials(p, c, i, 0, 0) <= level {
      TrialsRarelyOverreach(p, level, i);
    }
    ThroughBound(m.t + m.f, m.drop, p, c, size, 0, 0, 0, level);
  }

  ghost function AnyOverreachAt(d: Source, lams: seq<real>, level: real): Event
    requires |d.items| == |d.q|
  {
    (pool: Pool) => exists l :: l in lams && Overreaches(pool, TrueShare(d), l, level)
  }

  lemma {:induction false} UnionBound(d: Source, size: nat, lams: seq<real>, level: real)
    requires IsSource(d) && level > 0.0
    ensures Chance(d, size, [], AnyOverreachAt(d, lams, level)) <= Repeated(|lams|, level)
  {
    var u := AnyOverreachAt(d, lams, level);
    if |lams| == 0 {
      ChanceOfNothing(d, size, [], u);
    } else {
      var e, f := OverreachAt(d, lams[0], level), AnyOverreachAt(d, lams[1..], level);
      UnionBound(d, size, lams[1..], level);
      BoundRarelyOverreaches(d, size, lams[0], level);
      forall x: Pool ensures u(x) <==> e(x) || f(x) {
        assert lams == [lams[0]] + lams[1..];
      }
      ChanceUnion(d, size, [], e, f, u);
      assert |lams[1..]| == |lams| - 1;
    }
  }

  /** n times x, added up. */
  ghost function Repeated(n: nat, x: real): real
  {
    if n == 0 then 0.0 else Repeated(n - 1, x) + x
  }

  lemma {:induction false} RepeatedIsProduct(n: nat, x: real)
    ensures Repeated(n, x) == n as real * x
  {
    if n > 0 {
      RepeatedIsProduct(n - 1, x);
      TimesNext((n - 1) as real, x);
      assert n as real == (n - 1) as real + 1.0;
    }
  }

  lemma TimesNext(n: real, x: real)
    ensures (n + 1.0) * x == n * x + x
  {
  }

  lemma Shares(n: nat, delta: real)
    requires n > 0
    ensures Repeated(n, delta / n as real) == delta
  {
    RepeatedIsProduct(n, delta / n as real);
    DivideBack(n as real, delta);
  }

  lemma DivideBack(n: real, delta: real)
    requires n != 0.0
    ensures n * (delta / n) == delta
  {
  }

  lemma PositiveShare(n: nat, delta: real)
    requires n > 0 && delta > 0.0
    ensures delta / n as real > 0.0
  {
  }

  ghost function BonferroniMisses(d: Source, grid: seq<real>, target: real, delta: real): Event
    requires |d.items| == |d.q| && |grid| > 0
  {
    (pool: Pool) => Misses(FitBonferroni(pool, grid, target, delta), TrueShare(d), target)
  }

  /**
    * The guarantee of the Bonferroni search, with nothing assumed but independent draws: the chance that
    * it settles on a threshold whose true precision misses the target is at most delta.
    */
  lemma {:induction false} BonferroniErrsRarely(d: Source, size: nat, grid: seq<real>, target: real, delta: real)
    requires IsSource(d) && |grid| > 0 && delta > 0.0
    ensures Chance(d, size, [], BonferroniMisses(d, grid, target, delta)) <= delta
  {
    var level := delta / |grid| as real;
    PositiveShare(|grid|, delta);
    forall x: Pool | BonferroniMisses(d, grid, target, delta)(x) ensures AnyOverreachAt(d, grid, level)(x) {
      BonferroniErrsAtOverreach(x, TrueShare(d), grid, target, delta);
    }
    ChanceMonotone(d, size, [], BonferroniMisses(d, grid, target, delta), AnyOverreachAt(d, grid, level));
    UnionBound(d, size, grid, level);
    Shares(|grid|, delta);
  }

  ghost function SequenceMisses(d: Source, gridSize: nat, target: real, level: real): Event
    requires |d.items| == |d.q| && gridSize > 0
  {
    (pool: Pool) => |pool| > 0 && Misses(FixedSequence(pool, target, level, Grid(pool, gridSize)), TrueShare(d), target)
  }
}
