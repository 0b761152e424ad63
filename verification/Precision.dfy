/**
  * Threshold search in precision mode (src/pccf.py): fixed-sequence and Bonferroni tests of a list of
  * thresholds, each tested by its Clopper-Pearson bound, and the error the search as a whole can make.
  */
module Precision {
  import opened ClopperPearson
  import opened Optional
  import opened Sorting

  /** Calibration scores with their labels. */
  type Pool = seq<(real, bool)>

  /** The labels a threshold keeps. */
  function Kept(pool: Pool, lam: real): seq<bool>
  {
    if |pool| == 0 then []
    else (if pool[0].0 <= lam then [pool[0].1] else []) + Kept(pool[1..], lam)
  }

  function Trues(labels: seq<bool>): (k: nat)
    ensures k <= |labels|
  {
    if |labels| == 0 then 0 else (if labels[0] then 1 else 0) + Trues(labels[1..])
  }

  function BoundAt(pool: Pool, lam: real, level: real): real
  {
    Bound(Trues(Kept(pool, lam)), |Kept(pool, lam)|, level, ROUNDS)
  }

  predicate RealLe(a: real, b: real)
  {
    a <= b
  }

  // ------------------------------------------------------------------ Bonferroni search

  predicate Passes(pool: Pool, target: real, level: real, lam: real)
  {
    |Kept(pool, lam)| > 0 && BoundAt(pool, lam, level) >= target
  }

  function Loosest(pool: Pool, target: real, level: real, ordered: seq<real>): Option<real>
  {
    var n := |ordered|;
    if n == 0 then None
    else if Passes(pool, target, level, ordered[n - 1]) then Some(ordered[n - 1])
    else Loosest(pool, target, level, ordered[..n - 1])
  }

  function FitBonferroni(pool: Pool, grid: seq<real>, target: real, delta: real): Option<real>
    requires |grid| > 0
  {
    Loosest(pool, target, delta / |grid| as real, Sort(RealLe, grid))
  }

  /** None stands for minus infinity: nothing passes, the pattern is dropped. */
  method FitPrecisionBonferroni(pool: Pool, grid: seq<real>, target: real, delta: real) returns (best: Option<real>)
    requires |grid| > 0 && delta > 0.0
    ensures best == FitBonferroni(pool, grid, target, delta)
  {
    var level := delta / |grid| as real;
    var ordered := Sort(RealLe, grid);
    best := None;
    for i := 0 to |ordered|
      invariant best == Loosest(pool, target, level, ordered[..i])
    {
      assert ordered[..i + 1][..i] == ordered[..i];
      var kept := Kept(pool, ordered[i]);
      if |kept| > 0 {
        var lb := LowerBound(Trues(kept), |kept|, level, ROUNDS);
        if lb >= target {
          best := Some(ordered[i]);
        }
      }
    }
    assert ordered[..|ordered|] == ordered;
  }

  lemma {:induction false} LoosestIsLargest(pool: Pool, target: real, level: real, ordered: seq<real>)
    requires SortedBy(RealLe, ordered)
    ensures var best := Loosest(pool, target, level, ordered);
            && (best.None? <==> forall l :: l in ordered ==> !Passes(pool, target, level, l))
            && (best.Some? ==> best.value in ordered && Passes(pool, target, level, best.value))
            && (best.Some? ==> forall l :: l in ordered && Passes(pool, target, level, l) ==> l <= best.value)
  {
    var n := |ordered| - 1;
    if n >= 0 {
      LoosestIsLargest(pool, target, level, ordered[..n]);
      assert ordered == ordered[..n] + [ordered[n]];
      assert forall i :: 0 <= i < n ==> RealLe(ordered[i], ordered[n]);
    }
  }

  /** The search returns the loosest threshold of the grid whose bound reaches the target. */
  lemma BonferroniPicksLoosest(pool: Pool, grid: seq<real>, target: real, delta: real)
    requires |grid| > 0
    ensures var best, level := FitBonferroni(pool, grid, target, delta), delta / |grid| as real;
            && (best.None? <==> forall l :: l in grid ==> !Passes(pool, target, level, l))
            && (best.Some? ==> best.value in grid && Passes(pool, target, level, best.value))
            && (best.Some? ==> forall l :: l in grid && Passes(pool, target, level, l) ==> l <= best.value)
  {
    SortSorts(RealLe, grid);
    SameElements(grid, Sort(RealLe, grid));
    LoosestIsLargest(pool, target, delta / |grid| as real, Sort(RealLe, grid));
  }

  // ------------------------------------------------------------------ fixed-sequence search

  predicate Holds(pool: Pool, target: real, level: real, lam: real)
  {
    BoundAt(pool, lam, level) >= target
  }

  /** Strictest threshold first, stopping at the first failure. */
  function FixedSequence(pool: Pool, target: real, level: real, grid: seq<real>): Option<real>
  {
    if |grid| == 0 || !Holds(pool, target, level, grid[0]) then None
    else
      match FixedSequence(pool, target, level, grid[1..])
      case None => Some(grid[0])
      case Some(l) => Some(l)
  }

  function InsertNew(x: real, s: seq<real>): seq<real>
  {
    if |s| == 0 || x < s[0] then [x] + s
    else if x == s[0] then s
    else [s[0]] + InsertNew(x, s[1..])
  }

  /** `sorted(set(s))` */
  function SortedSet(s: seq<real>): seq<real>
  {
    if |s| == 0 then [] else InsertNew(s[0], SortedSet(s[1..]))
  }

  function Scores(pool: Pool): seq<real>
  {
    seq(|pool|, i requires 0 <= i < |pool| => pool[i].0)
  }

  /** The index of the q-th quantile of `n` scores, `q` out of `size`. */
  function QuantileIndex(n: nat, q: nat, size: nat): (i: nat)
    requires n > 0 && size > 0
    ensures i < n
  {
    var up := (n * q + size - 1) / size;
    var i := if up > 0 then up - 1 else 0;
    if i < n then i else n - 1
  }

  /** The scores at `size` evenly spaced quantiles. */
  function Picked(rs: seq<real>, size: nat): seq<real>
    requires |rs| > 0
  {
    seq(size, q requires 0 <= q < size => rs[QuantileIndex(|rs|, q + 1, size)])
  }

  function Grid(pool: Pool, size: nat): seq<real>
    requires |pool| > 0 && size > 0
  {
    SortSorts(RealLe, Scores(pool));
    SortedSet(Picked(Sort(RealLe, Scores(pool)), size))
  }

  ghost predicate Increasing(s: seq<real>)
  {
    forall i, j :: 0 <= i < j < |s| ==> s[i] < s[j]
  }

  lemma {:induction false} InsertNewKeeps(x: real, s: seq<real>)
    requires Increasing(s)
    ensures Increasing(InsertNew(x, s))
    ensures forall y :: y in InsertNew(x, s) <==> y == x || y in s
  {
    if |s| > 0 && x > s[0] {
      InsertNewKeeps(x, s[1..]);
      var rest := InsertNew(x, s[1..]);
      assert s == [s[0]] + s[1..];
      forall j | 0 <= j < |rest| ensures s[0] < rest[j] {
        assert rest[j] in rest;
      }
    }
  }

  lemma {:induction false} SortedSetIs(s: seq<real>)
    ensures Increasing(SortedSet(s)) && forall y :: y in SortedSet(s) <==> y in s
  {
    if |s| > 0 {
      SortedSetIs(s[1..]);
      InsertNewKeeps(s[0], SortedSet(s[1..]));
      assert s == [s[0]] + s[1..];
    }
  }

  lemma LastQuantile(n: nat, size: nat)
    requires n > 0 && size > 0
    ensures QuantileIndex(n, size, size) == n - 1
  {
    var r := size - 1;
    assert n * size + size - 1 == size * n + r;
    Quotient(size, n, r);
  }

  lemma TimesMonotone(size: nat, a: nat, b: nat)
    requires a <= b
    ensures size * a <= size * b
  {
  }

  lemma Quotient(size: nat, n: nat, r: nat)
    requires r < size
    ensures (size * n + r) / size == n
  {
    var q := (size * n + r) / size;
    assert size * n + r == size * q + (size * n + r) % size;
    assert size * (q + 1) == size * q + size && size * (n + 1) == size * n + size;
    if q < n {
      TimesMonotone(size, q + 1, n);
    } else if q > n {
      TimesMonotone(size, n + 1, q);
    }
  }

  lemma LastIsLargest(grid: seq<real>, top: real)
    requires Increasing(grid) && top in grid && forall l :: l in grid ==> l <= top
    ensures grid[|grid| - 1] == top
  {
    assert grid[|grid| - 1] in grid;
  }

  lemma PickedFrom(rs: seq<real>, size: nat)
    requires |rs| > 0 && size > 0
    ensures forall l :: l in Picked(rs, size) ==> l in rs
    ensures rs[|rs| - 1] in Picked(rs, size)
  {
    LastQuantile(|rs|, size);
    assert Picked(rs, size)[size - 1] == rs[|rs| - 1];
  }

  lemma SortedEndsAtMaximum(rs: seq<real>)
    requires SortedBy(RealLe, rs) && |rs| > 0
    ensures forall l :: l in rs ==> l <= rs[|rs| - 1]
  {
    forall l | l in rs ensures l <= rs[|rs| - 1] {
      var k :| 0 <= k < |rs| && rs[k] == l;
      assert k < |rs| - 1 ==> RealLe(rs[k], rs[|rs| - 1]);
    }
  }

  /** Strictest threshold first, every one a score of the pool, and the last one keeps everything seen. */
  lemma GridEndsAtMaximum(pool: Pool, size: nat)
    requires |pool| > 0 && size > 0
    ensures var grid := Grid(pool, size);
            && |grid| > 0 && Increasing(grid)
            && (forall l :: l in grid ==> l in Scores(pool))
            && (forall l :: l in Scores(pool) ==> l <= grid[|grid| - 1])
  {
    var rs := Sort(RealLe, Scores(pool));
    SortSorts(RealLe, Scores(pool));
    SameElements(Scores(pool), rs);
    SortedSetIs(Picked(rs, size));
    PickedFrom(rs, size);
    SortedEndsAtMaximum(rs);
    LastIsLargest(Grid(pool, size), rs[|rs| - 1]);
  }

  method FitPrecision(pool: Pool, gridSize: nat, target: real, delta: real) returns (best: Option<real>)
    requires |pool| > 0 && gridSize > 0 && delta > 0.0
    ensures best == FixedSequence(pool, target, delta, Grid(pool, gridSize))
  {
    var grid := Grid(pool, gridSize);
    best := None;
    var i := 0;
    while i < |grid|
      invariant i <= |grid|
      invariant FixedSequence(pool, target, delta, grid)
             == var rest := FixedSequence(pool, target, delta, grid[i..]);
                if rest.None? then best else rest
    {
      var kept := Kept(pool, grid[i]);
      var lb := LowerBound(Trues(kept), |kept|, delta, ROUNDS);
      assert grid[i..][1..] == grid[i + 1..];
      if lb >= target {
        best := Some(grid[i]);
      } else {
        return;
      }
      i := i + 1;
    }
  }

  /** The answer is the end of the longest run of passing thresholds from the strictest on. */
  lemma {:induction false} FixedSequenceIsPrefix(pool: Pool, target: real, level: real, grid: seq<real>) returns (n: nat)
    ensures n <= |grid| && (forall i :: 0 <= i < n ==> Holds(pool, target, level, grid[i]))
    ensures n < |grid| ==> !Holds(pool, target, level, grid[n])
    ensures FixedSequence(pool, target, level, grid) == if n == 0 then None else Some(grid[n - 1])
  {
    if |grid| == 0 || !Holds(pool, target, level, grid[0]) {
      n := 0;
    } else {
      var k := FixedSequenceIsPrefix(pool, target, level, grid[1..]);
      n := k + 1;
      assert forall i :: 0 < i < n ==> grid[i] == grid[1..][i - 1];
    }
  }

  // ------------------------------------------------------------------ where a search can err

  ghost predicate Misses(best: Option<real>, truth: real -> real, target: real)
  {
    best.Some? && truth(best.value) < target
  }

  /** The bound at `lam` exceeds the true precision there. */
  ghost predicate Overreaches(pool: Pool, truth: real -> real, lam: real, level: real)
  {
    BoundAt(pool, lam, level) > truth(lam)
  }

  /** The Bonferroni search misses the target only if some threshold of the grid overreaches. */
  lemma BonferroniErrsAtOverreach(pool: Pool, truth: real -> real, grid: seq<real>, target: real, delta: real)
    requires |grid| > 0 && Misses(FitBonferroni(pool, grid, target, delta), truth, target)
    ensures exists l :: l in grid && Overreaches(pool, truth, l, delta / |grid| as real)
  {
    BonferroniPicksLoosest(pool, grid, target, delta);
    var l := FitBonferroni(pool, grid, target, delta).value;
    assert l in grid && Overreaches(pool, truth, l, delta / |grid| as real);
  }

  lemma {:induction false} FirstBad(truth: real -> real, grid: seq<real>, target: real, k: nat) returns (bad: nat)
    requires k < |grid| && truth(grid[k]) < target
    ensures bad <= k && truth(grid[bad]) < target && forall i :: 0 <= i < bad ==> truth(grid[i]) >= target
    decreases k
  {
    if i: nat :| i < k && truth(grid[i]) < target {
      bad := FirstBad(truth, grid, target, i);
    } else {
      bad := k;
    }
  }

  /**
    * The fixed sequence misses the target only if the first bad threshold of its grid overreaches: it
    * never gets past that one otherwise.
    */
  lemma FixedSequenceErrsAtFirstBad(pool: Pool, truth: real -> real, grid: seq<real>, target: real, level: real) returns (bad: nat)
    requires Misses(FixedSequence(pool, target, level, grid), truth, target)
    ensures bad < |grid| && truth(grid[bad]) < target && forall i :: 0 <= i < bad ==> truth(grid[i]) >= target
    ensures BoundAt(pool, grid[bad], level) >= target && Overreaches(pool, truth, grid[bad], level)
  {
    var n := FixedSequenceIsPrefix(pool, target, level, grid);
    bad := FirstBad(truth, grid, target, n - 1);
    assert Holds(pool, target, level, grid[bad]);
  }
}
