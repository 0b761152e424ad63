/**
  * Presence-conditioned conformal calibration, coverage mode (src/pccf.py), over exact reals.
  * A candidate carries one score per layer that fired; its mask is the set of those layers, and
  * candidates are calibrated in groups, by default one for each mask.
  */
module Conformal {
  import opened Sorting
  import opened Counting
  import opened Optional
  import Precision

  type Scores = s: seq<(string, real)> | s != [] witness [("ner", 0.0)]

  /** What a threshold keeps: nothing, scores up to r, or everything. */
  datatype Cut = KeepNone | UpTo(r: real) | KeepAll

  predicate Keeps(q: Cut, r: real)
  {
    q.KeepAll? || (q.UpTo? && r <= q.r)
  }

  function MaxScore(s: seq<(string, real)>): real
    requires s != []
  {
    if |s| == 1 then s[0].1
    else if s[0].1 >= MaxScore(s[1..]) then s[0].1 else MaxScore(s[1..])
  }

  function JointScore(c: Scores): real { MaxScore(c) }

  function Mask(c: Scores): set<string>
  {
    set i | 0 <= i < |c| :: c[i].0
  }

  /** The entries of the given layers. */
  function On(c: seq<(string, real)>, layers: set<string>): seq<(string, real)>
  {
    if c == [] then [] else (if c[0].0 in layers then [c[0]] else []) + On(c[1..], layers)
  }

  /** The joint score of these layers only; it is never asked for layers none of which fired. */
  function ScoreOn(c: Scores, layers: set<string>): real
  {
    var some := On(c, layers);
    if some == [] then JointScore(c) else MaxScore(some)
  }

  lemma {:induction false} JointScoreIsMaximum(c: Scores)
    ensures forall i :: 0 <= i < |c| ==> c[i].1 <= JointScore(c)
    ensures exists i :: 0 <= i < |c| && c[i].1 == JointScore(c)
    decreases |c|
  {
    if |c| == 1 {
      assert c[0].1 == JointScore(c);
    } else {
      JointScoreIsMaximum(c[1..]);
      var i :| 0 <= i < |c[1..]| && c[1..][i].1 == JointScore(c[1..]);
      assert c[i + 1].1 == JointScore(c[1..]);
      forall j | 0 <= j < |c| ensures c[j].1 <= JointScore(c) {
        if j > 0 {
          assert c[j] == c[1..][j - 1];
        }
      }
    }
  }

  // --------------------------------------------------------------------- the quantile

  predicate RealLe(a: real, b: real) { a <= b }

  function Ceil(x: real): int { -((-x).Floor) }

  /** ceil(n (1 - alpha)). */
  function Rank(n: nat, alpha: real): (k: int)
    ensures n > 0 && 0.0 < alpha < 1.0 ==> 1 <= k <= n
    ensures n == 0 ==> k == 0
  {
    RankRange(n, alpha, n as real * (1.0 - alpha));
    Ceil(n as real * (1.0 - alpha))
  }

  lemma RankRange(n: nat, alpha: real, x: real)
    requires x == n as real * (1.0 - alpha)
    ensures n > 0 && 0.0 < alpha < 1.0 ==> 0.0 < x <= n as real
  {
  }

  /** conformal_quantile for 0 < alpha < 1. */
  function Quantile(values: seq<real>, alpha: real): Cut
    requires 0.0 < alpha < 1.0
  {
    var k := Rank(|values| + 1, alpha);
    SortLength(values);
    if k > |values| then KeepAll else UpTo(Sort(RealLe, values)[k - 1])
  }

  lemma {:induction false} SortLength(values: seq<real>)
    ensures |Sort(RealLe, values)| == |values|
    ensures SortedBy(RealLe, Sort(RealLe, values))
  {
    assert TotalPreorder(RealLe);
    SortSorts(RealLe, values);
  }

  // --------------------------------------------------------------------- groups and their pools

  type Labelled = (Scores, bool)

  /**
    * Which groups a calibration candidate counts toward and with what score, and the group whose
    * threshold it has to meet.
    */
  datatype Partition<!K> = Partition(key: Scores -> K, groups: Scores -> set<K>, score: (Scores, K) -> real)

  /** One group for each value of the key: the mask, a caller's key, or the same for all. */
  function ByKey<K>(key: Scores -> K): Partition<K>
  {
    Partition(key, (c: Scores) => {key(c)}, (c: Scores, g: K) => JointScore(c))
  }

  function NonEmptySubsets(mask: set<string>): set<set<string>>
  {
    set s: set<string> | s <= mask && s != {}
  }

  /** Nested masks: a candidate also counts toward every smaller pattern, rescored on its layers. */
  function Nested(): Partition<set<string>>
  {
    Partition(Mask, (c: Scores) => NonEmptySubsets(Mask(c)), (c: Scores, s: set<string>) => ScoreOn(c, s))
  }

  function Entry<K(==)>(p: Partition<K>, c: Labelled, g: K): Precision.Pool
  {
    if g in p.groups(c.0) then [(p.score(c.0, g), c.1)] else []
  }

  /** The scores and labels that count toward group `g`. */
  function PoolOf<K(==)>(p: Partition<K>, cs: seq<Labelled>, g: K): Precision.Pool
  {
    if cs == [] then [] else PoolOf(p, cs[..|cs| - 1], g) + Entry(p, cs[|cs| - 1], g)
  }

  predicate Seen<K(==)>(p: Partition<K>, cs: seq<Labelled>, g: K)
  {
    exists i | 0 <= i < |cs| :: g in p.groups(cs[i].0)
  }

  /** All candidates in one pool, by their joint scores. */
  function AllPooled(cs: seq<Labelled>): Precision.Pool
  {
    seq(|cs|, i requires 0 <= i < |cs| => (JointScore(cs[i].0), cs[i].1))
  }

  function TruesOf(pool: Precision.Pool): seq<real>
  {
    if pool == [] then [] else TruesOf(pool[..|pool| - 1]) + if pool[|pool| - 1].1 then [pool[|pool| - 1].0] else []
  }

  function TrueScores<K(==)>(p: Partition<K>, cs: seq<Labelled>, g: K): seq<real>
  {
    TruesOf(PoolOf(p, cs, g))
  }

  lemma {:induction false} PoolMore<K>(p: Partition<K>, cs: seq<Labelled>, c: Labelled, g: K)
    ensures PoolOf(p, cs + [c], g) == PoolOf(p, cs, g) + Entry(p, c, g)
    ensures Seen(p, cs + [c], g) <==> Seen(p, cs, g) || g in p.groups(c.0)
  {
    assert (cs + [c])[..|cs|] == cs && (cs + [c])[|cs|] == c;
    if Seen(p, cs, g) {
      var i :| 0 <= i < |cs| && g in p.groups(cs[i].0);
      assert (cs + [c])[i] == cs[i];
    }
  }

  lemma {:induction false} SeenPool<K>(p: Partition<K>, cs: seq<Labelled>, g: K)
    ensures Seen(p, cs, g) <==> PoolOf(p, cs, g) != []
  {
    if cs != [] {
      var init, c := cs[..|cs| - 1], cs[|cs| - 1];
      assert cs == init + [c];
      SeenPool(p, init, g);
      PoolMore(p, init, c, g);
    }
  }

  lemma {:induction false} PoolConcat<K>(p: Partition<K>, a: seq<Labelled>, b: seq<Labelled>, g: K)
    ensures PoolOf(p, a + b, g) == PoolOf(p, a, g) + PoolOf(p, b, g)
  {
    if b == [] {
      assert a + b == a;
    } else {
      var init, c := b[..|b| - 1], b[|b| - 1];
      assert a + b == (a + init) + [c] && b == init + [c];
      PoolConcat(p, a, init, g);
      PoolMore(p, a + init, c, g);
      PoolMore(p, init, c, g);
      assert PoolOf(p, a, g) + (PoolOf(p, init, g) + Entry(p, c, g)) == (PoolOf(p, a, g) + PoolOf(p, init, g)) + Entry(p, c, g);
    }
  }

  lemma {:induction false} TruesConcat(a: Precision.Pool, b: Precision.Pool)
    ensures TruesOf(a + b) == TruesOf(a) + TruesOf(b)
  {
    if b == [] {
      assert a + b == a;
    } else {
      var n := |b| - 1;
      assert (a + b)[..|a| + n] == a + b[..n] && (a + b)[|a| + n] == b[n];
      TruesConcat(a, b[..n]);
      var last := if b[n].1 then [b[n].0] else [];
      assert TruesOf(a) + (TruesOf(b[..n]) + last) == (TruesOf(a) + TruesOf(b[..n])) + last;
    }
  }

  lemma {:induction false} TrueScoresConcat<K>(p: Partition<K>, a: seq<Labelled>, b: seq<Labelled>, g: K)
    ensures TrueScores(p, a + b, g) == TrueScores(p, a, g) + TrueScores(p, b, g)
  {
    PoolConcat(p, a, b, g);
    TruesConcat(PoolOf(p, a, g), PoolOf(p, b, g));
  }

  predicate TrueWith<K(==)>(p: Partition<K>, c: Labelled, g: K) { c.1 && g in p.groups(c.0) }

  lemma TrueScoresOne<K>(p: Partition<K>, c: Labelled, g: K)
    ensures TrueScores(p, [c], g) == if TrueWith(p, c, g) then [p.score(c.0, g)] else []
  {
    assert [c][..0] == [] && PoolOf(p, [], g) == [];
    assert PoolOf(p, [c], g) == Entry(p, c, g);
    if g in p.groups(c.0) {
      assert Entry(p, c, g)[..0] == [] && TruesOf([]) == [];
    }
  }

  // --------------------------------------------------------------------- coverage mode

  /**
    * The coverage level, and what becomes of groups with fewer than `minGroupTrue` true candidates: they
    * keep everything, or borrow the threshold of all candidates pooled.
    */
  datatype Settings<!K> = Settings(part: Partition<K>, alpha: real, minGroupTrue: nat, keepSmall: bool)

  /** The default: by presence mask, with no small-group rule. */
  function ByMask(alpha: real): Settings<set<string>> { Settings(ByKey(Mask), alpha, 0, false) }

  function ThresholdOf<K>(f: Settings<K>, own: seq<real>, pooled: Cut): Cut
    requires 0.0 < f.alpha < 1.0
  {
    if |own| < f.minGroupTrue then (if f.keepSmall then KeepAll else pooled) else Quantile(own, f.alpha)
  }

  function Pooled<K>(f: Settings<K>, cs: seq<Labelled>): Cut
    requires 0.0 < f.alpha < 1.0
  {
    Quantile(TruesOf(AllPooled(cs)), f.alpha)
  }

  /** What fit() leaves for group `g`; None when no calibration candidate counts toward it. */
  function Fitted<K(==)>(f: Settings<K>, cs: seq<Labelled>, g: K): Option<Cut>
    requires 0.0 < f.alpha < 1.0
  {
    if Seen(f.part, cs, g) then Some(ThresholdOf(f, TrueScores(f.part, cs, g), Pooled(f, cs))) else None
  }

  /** An unseen group fails open. */
  predicate Passes(q: Option<Cut>, r: real)
  {
    q.None? || Keeps(q.value, r)
  }

  // ---------------------------------------------------------------------- leave one out

  function Without<T>(s: seq<T>, i: nat): seq<T>
    requires i < |s|
  {
    s[..i] + s[i + 1..]
  }

  /** Candidate i, left out of the calibration set, is rejected by the threshold the others leave for `g`. */
  predicate RejectedAt<K(==)>(f: Settings<K>, cs: seq<Labelled>, i: nat, g: K)
    requires i < |cs| && 0.0 < f.alpha < 1.0
  {
    !Passes(Fitted(f, Without(cs, i), g), f.part.score(cs[i].0, g))
  }

  /** How many of the first n candidates are true, count toward `g`, and are rejected when left out. */
  function Rejections<K(==)>(f: Settings<K>, cs: seq<Labelled>, g: K, n: nat): nat
    requires n <= |cs| && 0.0 < f.alpha < 1.0
  {
    if n == 0 then 0
    else (if TrueWith(f.part, cs[n - 1], g) && RejectedAt(f, cs, n - 1, g) then 1 else 0) + Rejections(f, cs, g, n - 1)
  }

  lemma CountOne(x: real, p: real -> bool)
    ensures Count([x], p) == if p(x) then 1 else 0
  {
    assert |[x][1..]| == 0;
  }

  ghost function Below(x: real): real -> bool { (y: real) => y < x }

  ghost function RankAtLeast(v: seq<real>, k: int): real -> bool { (x: real) => Count(v, Below(x)) >= k }

  /** A value above the k-th smallest has at least k values below it. */
  lemma {:induction false} AboveOrderStatistic(v: seq<real>, k: nat, x: real)
    requires 1 <= k <= |v|
    requires |Sort(RealLe, v)| == |v| && x > Sort(RealLe, v)[k - 1]
    ensures Count(v, Below(x)) >= k
  {
    var s := Sort(RealLe, v);
    SortLength(v);
    CountSort(RealLe, v, Below(x));
    assert s == s[..k] + s[k..];
    CountConcat(s[..k], s[k..], Below(x));
    assert forall y :: y in s[..k] ==> y < x;
    CountBound(s[..k], Below(x));
  }

  lemma SmallestOf(v: seq<real>, p: real -> bool) returns (m: real)
    requires exists x :: x in v && p(x)
    ensures m in v && p(m) && forall x :: x in v && p(x) ==> m <= x
    decreases |v|
  {
    if exists x :: x in v[1..] && p(x) {
      m := SmallestOf(v[1..], p);
      if p(v[0]) && v[0] < m {
        m := v[0];
      }
    } else {
      m := v[0];
    }
  }

  /** At most |v| - k values can have k or more values strictly below them, ties included. */
  lemma {:induction false} FewHaveHighRank(v: seq<real>, k: nat)
    requires k <= |v|
    ensures Count(v, RankAtLeast(v, k)) <= |v| - k
  {
    var high := RankAtLeast(v, k);
    if exists x :: x in v && high(x) {
      var m := SmallestOf(v, high);
      CountDisjoint(v, high, Below(m));
    } else {
      CountBound(v, high);
    }
  }

  lemma {:induction false} RankOfRejection(values: seq<real>, alpha: real, x: real, k: int)
    requires 0.0 < alpha < 1.0 && k == Rank(|values| + 1, alpha)
    requires !Passes(Some(Quantile(values, alpha)), x)
    ensures Count(values, Below(x)) >= k
  {
    SortLength(values);
    AboveOrderStatistic(values, k, x);
  }

  /** No group whose candidates are tested borrows the pooled threshold. */
  predicate OwnThreshold<K(==)>(f: Settings<K>, cs: seq<Labelled>, g: K)
  {
    f.keepSmall || f.minGroupTrue == 0 || |TrueScores(f.part, cs, g)| > f.minGroupTrue
  }

  lemma {:induction false} CountOneMore<K>(p: Partition<K>, cs: seq<Labelled>, g: K, i: nat, high: real -> bool)
    requires i < |cs|
    ensures Count(TrueScores(p, cs[..i + 1], g), high)
         == Count(TrueScores(p, cs[..i], g), high) + if TrueWith(p, cs[i], g) && high(p.score(cs[i].0, g)) then 1 else 0
  {
    assert cs[..i + 1] == cs[..i] + [cs[i]];
    TrueScoresOne(p, cs[i], g);
    CountOne(p.score(cs[i].0, g), high);
    TrueScoresConcat(p, cs[..i], [cs[i]], g);
    CountConcat(TrueScores(p, cs[..i], g), TrueScores(p, [cs[i]], g), high);
  }

  /** Each rejection is a value of high rank among all the true scores of that group. */
  lemma {:induction false} RejectionsHaveHighRank<K>(f: Settings<K>, cs: seq<Labelled>, g: K, n: nat, k: int)
    requires n <= |cs| && 0.0 < f.alpha < 1.0 && OwnThreshold(f, cs, g)
    requires k == Rank(|TrueScores(f.part, cs, g)|, f.alpha)
    ensures Rejections(f, cs, g, n) <= Count(TrueScores(f.part, cs[..n], g), RankAtLeast(TrueScores(f.part, cs, g), k))
  {
    if n > 0 {
      var i: nat, high := n - 1, RankAtLeast(TrueScores(f.part, cs, g), k);
      RejectionsHaveHighRank(f, cs, g, i, k);
      CountOneMore(f.part, cs, g, i, high);
      RejectedIsCounted(f, cs, g, i, k);
    }
  }

  lemma RejectedIsCounted<K>(f: Settings<K>, cs: seq<Labelled>, g: K, i: nat, k: int)
    requires i < |cs| && 0.0 < f.alpha < 1.0 && OwnThreshold(f, cs, g)
    requires k == Rank(|TrueScores(f.part, cs, g)|, f.alpha)
    ensures TrueWith(f.part, cs[i], g) && RejectedAt(f, cs, i, g)
            ==> RankAtLeast(TrueScores(f.part, cs, g), k)(f.part.score(cs[i].0, g))
  {
    if TrueWith(f.part, cs[i], g) && RejectedAt(f, cs, i, g) {
      RejectionHasHighRank(f, cs, g, i, k);
    }
  }

  lemma TrueScoresOfThree<K>(p: Partition<K>, a: seq<Labelled>, c: Labelled, b: seq<Labelled>, g: K)
    requires TrueWith(p, c, g)
    ensures TrueScores(p, a + ([c] + b), g) == TrueScores(p, a, g) + ([p.score(c.0, g)] + TrueScores(p, b, g))
  {
    TrueScoresConcat(p, a, [c] + b, g);
    TrueScoresConcat(p, [c], b, g);
    TrueScoresOne(p, c, g);
  }

  lemma SplitsAround<T>(s: seq<T>, i: nat)
    requires i < |s|
    ensures s == s[..i] + ([s[i]] + s[i + 1..]) && Without(s, i) == s[..i] + s[i + 1..]
  {
  }

  /** The group's true scores around candidate i. */
  lemma TrueScoresAround<K>(p: Partition<K>, cs: seq<Labelled>, g: K, i: nat) returns (a: seq<real>, b: seq<real>)
    requires i < |cs| && TrueWith(p, cs[i], g)
    ensures TrueScores(p, cs, g) == a + ([p.score(cs[i].0, g)] + b) && TrueScores(p, Without(cs, i), g) == a + b
  {
    var before, c, after := cs[..i], cs[i], cs[i + 1..];
    a, b := TrueScores(p, before, g), TrueScores(p, after, g);
    SplitsAround(cs, i);
    TrueScoresOfThree(p, before, c, after, g);
    TrueScoresConcat(p, before, after, g);
  }

  lemma {:induction false} RejectionHasHighRank<K>(f: Settings<K>, cs: seq<Labelled>, g: K, i: nat, k: int)
    requires i < |cs| && 0.0 < f.alpha < 1.0 && TrueWith(f.part, cs[i], g) && RejectedAt(f, cs, i, g) && OwnThreshold(f, cs, g)
    requires k == Rank(|TrueScores(f.part, cs, g)|, f.alpha)
    ensures RankAtLeast(TrueScores(f.part, cs, g), k)(f.part.score(cs[i].0, g))
  {
    var x := f.part.score(cs[i].0, g);
    var a, b := TrueScoresAround(f.part, cs, g, i);
    assert !Passes(Some(Quantile(a + b, f.alpha)), x);
    RankOfRejection(a + b, f.alpha, x, k);
    CountConcat(a, b, Below(x));
    CountConcat(a, [x] + b, Below(x));
    assert ([x] + b)[1..] == b;
  }

  /** floor(alpha n) */
  function FloorShare(alpha: real, n: nat): int { (alpha * n as real).Floor }

  lemma FloorOfShare(n: nat, alpha: real)
    ensures n - Rank(n, alpha) == FloorShare(alpha, n)
  {
    FloorOfDifference(n, alpha * n as real, n as real * (1.0 - alpha));
  }

  lemma FloorOfDifference(n: nat, x: real, y: real)
    requires y == n as real - x
    ensures n - Ceil(y) == x.Floor
  {
    assert -y == x - n as real;
  }

  lemma {:induction false} FewRejections<K>(f: Settings<K>, cs: seq<Labelled>, g: K)
    requires 0.0 < f.alpha < 1.0 && OwnThreshold(f, cs, g)
    ensures Rejections(f, cs, g, |cs|) <= |TrueScores(f.part, cs, g)| - Rank(|TrueScores(f.part, cs, g)|, f.alpha)
  {
    var v := TrueScores(f.part, cs, g);
    assert cs[..|cs|] == cs;
    RejectionsHaveHighRank(f, cs, g, |cs|, Rank(|v|, f.alpha));
    FewHaveHighRank(v, Rank(|v|, f.alpha));
  }

  /**
    * Coverage: among the N true candidates that count toward one group, whatever else is in the
    * calibration set and whatever ties there are, leaving each out in turn, fitting on the rest and
    * testing it there rejects at most floor(alpha * N) of them, as long as the group does not borrow a
    * threshold.
    */
  lemma {:induction false} LeaveOneOutCoverage<K>(f: Settings<K>, cs: seq<Labelled>, g: K)
    requires 0.0 < f.alpha < 1.0 && OwnThreshold(f, cs, g)
    ensures Rejections(f, cs, g, |cs|) <= FloorShare(f.alpha, |TrueScores(f.part, cs, g)|)
  {
    FewRejections(f, cs, g);
    FloorOfShare(|TrueScores(f.part, cs, g)|, f.alpha);
  }

  /** The code's default: every presence pattern has the coverage, with no condition left. */
  lemma {:induction false} MaskCoverage(alpha: real, cs: seq<Labelled>, mask: set<string>)
    requires 0.0 < alpha < 1.0
    ensures Rejections(ByMask(alpha), cs, mask, |cs|) <= FloorShare(alpha, |TrueScores(ByKey(Mask), cs, mask)|)
  {
    LeaveOneOutCoverage(ByMask(alpha), cs, mask);
  }

  // ---------------------------------------------------------------------- nested masks

  /** Nested masks with no small-group rule. */
  function NestedMasks(alpha: real): Settings<set<string>> { Settings(Nested(), alpha, 0, false) }

  /** n true candidates that two layers found, with a perfect score, and m true ones that only one found. */
  function Lopsided(n: nat, m: nat): seq<Labelled>
  {
    seq(n + m, i requires 0 <= i < n + m => if i < n then ([("a", 0.0), ("b", 0.0)], true) else ([("a", 1.0)], true))
  }

  function Ones(n: nat, m: nat): seq<real>
  {
    seq(n + m, i requires 0 <= i < n + m => if i < n then 0.0 else 1.0)
  }

  lemma NestedEntry(c: Labelled, both: bool)
    requires c == if both then ([("a", 0.0), ("b", 0.0)], true) else ([("a", 1.0)], true)
    ensures Mask(c.0) == if both then {"a", "b"} else {"a"}
    ensures Entry(Nested(), c, {"a"}) == [(if both then 0.0 else 1.0, true)]
  {
    var entries := c.0;
    assert entries[0].0 == "a" && On(entries, {"a"}) == [entries[0]] by {
      assert On(entries[1..], {"a"}) == [] by {
        if both {
          assert entries[1..] == [("b", 0.0)] && "b" !in {"a"} && entries[1..][1..] == [];
        }
      }
    }
    assert "a" in Mask(entries);
    assert {"a"} in NonEmptySubsets(Mask(entries));
  }

  lemma {:induction false} LopsidedPool(n: nat, m: nat)
    ensures TrueScores(Nested(), Lopsided(n, m), {"a"}) == Ones(n, m)
  {
    if n + m > 0 {
      var n', m' := if m > 0 then n else n - 1, if m > 0 then m - 1 else 0;
      var c := Lopsided(n, m)[n + m - 1];
      assert Lopsided(n, m) == Lopsided(n', m') + [c] && Ones(n, m) == Ones(n', m') + [if m > 0 then 1.0 else 0.0];
      LopsidedPool(n', m');
      TrueScoresConcat(Nested(), Lopsided(n', m'), [c], {"a"});
      TrueScoresOne(Nested(), c, {"a"});
      NestedEntry(c, m == 0);
    }
  }

  /** The threshold that m - 1 of the lonely candidates and the others leave. */
  lemma LopsidedCut(alpha: real, n: nat, m: nat)
    requires 0.0 < alpha < 1.0 && 0 < m && Rank(n + m, alpha) <= n
    ensures Quantile(Ones(n, m - 1), alpha) == UpTo(0.0)
  {
    var v := Ones(n, m - 1);
    forall x, y | 0 <= x < y < |v| ensures RealLe(v[x], v[y]) {
    }
    SortOfSorted(RealLe, v);
  }

  lemma LopsidedWithout(n: nat, m: nat, i: nat)
    requires 0 < m && n <= i < n + m
    ensures Without(Lopsided(n, m), i) == Lopsided(n, m - 1)
  {
  }

  lemma FittedOn<K>(f: Settings<K>, cs: seq<Labelled>, g: K, v: seq<real>)
    requires 0.0 < f.alpha < 1.0 && f.minGroupTrue == 0 && v == TrueScores(f.part, cs, g) && v != []
    ensures Fitted(f, cs, g) == Some(Quantile(v, f.alpha))
  {
    SeenPool(f.part, cs, g);
  }

  /**
    * With nested masks the floor is one for all candidates that have the pattern's layers, not for those
    * that have exactly them, which are the ones its threshold is applied to: for every alpha and m, with
    * n large enough, every one of m true candidates found by one layer alone is rejected when left out,
    * where `MaskCoverage` lets at most floor(alpha * m) be lost without nesting.
    */
  lemma NestingLosesAPattern(alpha: real, n: nat, m: nat, i: nat)
    requires 0.0 < alpha < 1.0 && n <= i < n + m && Rank(n + m, alpha) <= n
    ensures Mask(Lopsided(n, m)[i].0) == {"a"} && Lopsided(n, m)[i].1
    ensures RejectedAt(NestedMasks(alpha), Lopsided(n, m), i, Mask(Lopsided(n, m)[i].0))
  {
    var cs, f, v := Lopsided(n, m), NestedMasks(alpha), Ones(n, m - 1);
    NestedEntry(cs[i], false);
    LopsidedWithout(n, m, i);
    LopsidedPool(n, m - 1);
    assert v != [];
    FittedOn(f, Lopsided(n, m - 1), {"a"}, v);
    LopsidedCut(alpha, n, m);
    assert Entry(Nested(), cs[i], {"a"})[0].0 == 1.0;
  }

  /** Such an n exists for every alpha and m. */
  lemma EnoughOthers(alpha: real, m: nat) returns (n: nat)
    requires 0.0 < alpha < 1.0
    ensures Rank(n + m, alpha) <= n
  {
    var x := m as real * (1.0 - alpha) / alpha;
    n := Ceil(x);
    NonnegQuotient(m, alpha, x);
    EnoughArithmetic(n, m, alpha, x);
  }

  lemma NonnegQuotient(m: nat, alpha: real, x: real)
    requires 0.0 < alpha < 1.0 && x == m as real * (1.0 - alpha) / alpha
    ensures x >= 0.0 && alpha * x == m as real * (1.0 - alpha)
  {
    var y := m as real * (1.0 - alpha);
    assert y >= 0.0;
    assert x == y / alpha;
  }

  lemma EnoughArithmetic(n: nat, m: nat, alpha: real, x: real)
    requires 0.0 < alpha < 1.0 && n as real >= x && alpha * x == m as real * (1.0 - alpha)
    ensures Ceil((n + m) as real * (1.0 - alpha)) <= n
  {
    var r, s := n as real, m as real;
    assert alpha * r >= alpha * x;
    assert (n + m) as real * (1.0 - alpha) == (r - alpha * r) + s * (1.0 - alpha);
    assert (n + m) as real * (1.0 - alpha) <= r;
  }
}
