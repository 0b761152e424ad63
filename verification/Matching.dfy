/**
  * Span scoring by greedy one-to-one matching: the gold-outer loop of src/evaluate.py and the
  * prediction-outer loop of validation/piibench/evaluate_piibench.py.
  */
module Matching {
  import opened Sorting
  import opened Spans

  predicate Compatible(a: Span, b: Span)
  {
    a.etype == b.etype && Overlaps(a, b)
  }

  /** A partial assignment from indices of one list to indices of the other. */
  type Assignment = map<nat, nat>

  ghost predicate OneToOne(m: Assignment)
  {
    forall i, j :: i in m && j in m && i != j ==> m[i] != m[j]
  }

  /** A valid matching of outer[from..] against the inner spans not in `used`. */
  ghost predicate MatchingFrom(m: Assignment, outer: seq<Span>, inner: seq<Span>, from: nat, used: set<nat>)
  {
    && OneToOne(m)
    && forall i :: i in m ==> from <= i < |outer| && m[i] < |inner| && m[i] !in used
                              && Compatible(outer[i], inner[m[i]])
  }

  ghost predicate IsMatching(m: Assignment, outer: seq<Span>, inner: seq<Span>)
  {
    MatchingFrom(m, outer, inner, 0, {})
  }

  /** The first inner span not in `used` that is compatible with x; |inner| if there is none. */
  function FirstFree(x: Span, inner: seq<Span>, used: set<nat>, j: nat): (r: nat)
    requires j <= |inner|
    ensures j <= r <= |inner|
    ensures r < |inner| ==> r !in used && Compatible(x, inner[r])
    ensures forall k :: j <= k < r ==> k in used || !Compatible(x, inner[k])
    decreases |inner| - j
  {
    if j == |inner| then j
    else if j !in used && Compatible(x, inner[j]) then j
    else FirstFree(x, inner, used, j + 1)
  }

  /** The assignment of the greedy double loop, from outer index i on. */
  function Greedy(outer: seq<Span>, inner: seq<Span>, i: nat, used: set<nat>): Assignment
    requires i <= |outer|
    decreases |outer| - i
  {
    if i == |outer| then map[]
    else
      var j := FirstFree(outer[i], inner, used, 0);
      if j == |inner| then Greedy(outer, inner, i + 1, used)
      else Greedy(outer, inner, i + 1, used + {j})[i := j]
  }

  lemma {:induction false} GreedyIsMatching(outer: seq<Span>, inner: seq<Span>, i: nat, used: set<nat>)
    requires i <= |outer|
    ensures MatchingFrom(Greedy(outer, inner, i, used), outer, inner, i, used)
    decreases |outer| - i
  {
    if i < |outer| {
      var j := FirstFree(outer[i], inner, used, 0);
      GreedyIsMatching(outer, inner, i + 1, if j == |inner| then used else used + {j});
    }
  }

  /** For a compatible pair, a has something no later than b, or b went to someone no later than a. */
  ghost predicate Settled(g: Assignment, a: nat, b: nat)
  {
    (a in g && g[a] <= b) || exists k :: k in g && k <= a && g[k] == b
  }

  /** Greedy settles every compatible pair; in particular nothing is left that could still be matched. */
  lemma {:induction false} GreedySettles(outer: seq<Span>, inner: seq<Span>, i: nat, used: set<nat>, a: nat, b: nat)
    requires i <= a < |outer| && b < |inner| && b !in used && Compatible(outer[a], inner[b])
    ensures Settled(Greedy(outer, inner, i, used), a, b)
    decreases |outer| - i
  {
    var j := FirstFree(outer[i], inner, used, 0);
    var g := Greedy(outer, inner, i, used);
    if j < |inner| {
      assert g[i] == j;
      var rest := Greedy(outer, inner, i + 1, used + {j});
      if a != i && b != j {
        GreedySettles(outer, inner, i + 1, used + {j}, a, b);
        GreedyIsMatching(outer, inner, i + 1, used + {j});
        if !(a in rest && rest[a] <= b) {
          var k :| k in rest && k <= a && rest[k] == b;
          assert g[k] == b;
        }
      }
    } else if a != i {
      GreedySettles(outer, inner, i + 1, used, a, b);
    }
  }

  // --------------------------------------------------------------------------- the loops

  /** How many pairs the greedy assignment makes from outer index i on. */
  function GreedySize(outer: seq<Span>, inner: seq<Span>, i: nat, used: set<nat>): nat
    requires i <= |outer|
    decreases |outer| - i
  {
    if i == |outer| then 0
    else
      var j := FirstFree(outer[i], inner, used, 0);
      if j == |inner| then GreedySize(outer, inner, i + 1, used)
      else 1 + GreedySize(outer, inner, i + 1, used + {j})
  }

  lemma {:induction false} GreedySizeIs(outer: seq<Span>, inner: seq<Span>, i: nat, used: set<nat>)
    requires i <= |outer|
    ensures GreedySize(outer, inner, i, used) == |Greedy(outer, inner, i, used)|
    decreases |outer| - i
  {
    if i < |outer| {
      var j := FirstFree(outer[i], inner, used, 0);
      if j < |inner| {
        GreedySizeIs(outer, inner, i + 1, used + {j});
        GreedyIsMatching(outer, inner, i + 1, used + {j});
        assert i !in Greedy(outer, inner, i + 1, used + {j});
      } else {
        GreedySizeIs(outer, inner, i + 1, used);
      }
    }
  }

  lemma SizeUnfolds(outer: seq<Span>, inner: seq<Span>, i: nat, used: set<nat>)
    requires i < |outer|
    ensures var j := FirstFree(outer[i], inner, used, 0);
      && (j < |inner| ==> j !in used)
      && GreedySize(outer, inner, i, used)
         == if j == |inner| then GreedySize(outer, inner, i + 1, used) else 1 + GreedySize(outer, inner, i + 1, used + {j})
  {
  }

  lemma OneMore(s: set<nat>, x: nat)
    requires x !in s
    ensures |s + {x}| == |s| + 1
  {
  }

  lemma {:induction false} SizeFits(outer: seq<Span>, inner: seq<Span>)
    ensures GreedySize(outer, inner, 0, {}) == |Greedy(outer, inner, 0, {})|
    ensures |Greedy(outer, inner, 0, {})| <= |outer| && |Greedy(outer, inner, 0, {})| <= |inner|
  {
    GreedySizeIs(outer, inner, 0, {});
    CountsFit(outer, inner);
  }

  /** The inner loop of both harnesses: the first span not matched yet that fits x. */
  method FindFree(x: Span, inner: seq<Span>, used: set<nat>) returns (j: nat)
    ensures j == FirstFree(x, inner, used, 0)
  {
    j := 0;
    while j < |inner|
      invariant j <= |inner|
      invariant FirstFree(x, inner, used, j) == FirstFree(x, inner, used, 0)
    {
      if j !in used && Compatible(x, inner[j]) {
        return;
      }
      j := j + 1;
    }
  }

  /** The state of match_spans before gold span `i`. */
  ghost predicate MatchedSoFar(gold: seq<Span>, pred: seq<Span>, i: nat, matchedGold: set<nat>, matchedPred: set<nat>, tp: nat)
  {
    && i <= |gold| && |matchedGold| == |matchedPred| == tp && (forall k :: k in matchedGold ==> k < i)
    && tp + GreedySize(gold, pred, i, matchedPred) == GreedySize(gold, pred, 0, {})
  }

  lemma {:induction false} MatchedStep(gold: seq<Span>, pred: seq<Span>, i: nat, matchedGold: set<nat>, matchedPred: set<nat>, tp: nat)
    requires MatchedSoFar(gold, pred, i, matchedGold, matchedPred, tp) && i < |gold|
    ensures var j := FirstFree(gold[i], pred, matchedPred, 0);
      if j < |pred| then MatchedSoFar(gold, pred, i + 1, matchedGold + {i}, matchedPred + {j}, tp + 1)
      else MatchedSoFar(gold, pred, i + 1, matchedGold, matchedPred, tp)
  {
    SizeUnfolds(gold, pred, i, matchedPred);
    var j := FirstFree(gold[i], pred, matchedPred, 0);
    if j < |pred| {
      OneMore(matchedGold, i);
      OneMore(matchedPred, j);
    }
  }

  /** match_spans: true positives, false positives, false negatives. */
  method MatchSpans(gold: seq<Span>, pred: seq<Span>) returns (tp: nat, fp: int, fn: int)
    ensures tp == |Greedy(gold, pred, 0, {})|
    ensures tp + fn == |gold| && tp + fp == |pred|
    ensures fn >= 0 && fp >= 0
  {
    tp := 0;
    var matchedGold: set<nat>, matchedPred: set<nat> := {}, {};
    for gi := 0 to |gold|
      invariant MatchedSoFar(gold, pred, gi, matchedGold, matchedPred, tp)
    {
      var pi := FindFree(gold[gi], pred, matchedPred);
      MatchedStep(gold, pred, gi, matchedGold, matchedPred, tp);
      if pi < |pred| {
        matchedGold := matchedGold + {gi};
        matchedPred := matchedPred + {pi};
        tp := tp + 1;
      }
    }
    fn := |gold| - |matchedGold|;
    fp := |pred| - |matchedPred|;
    SizeFits(gold, pred);
  }

  /** The counters of the prediction-outer harness over one record. */
  method EvaluateRecord(gold: seq<Span>, preds: seq<Span>) returns (tp: nat, fp: nat, fn: int)
    ensures tp == |Greedy(preds, gold, 0, {})|
    ensures tp + fn == |gold| && tp + fp == |preds| && fn >= 0
  {
    tp, fp := 0, 0;
    var matched: set<nat> := {};
    for p := 0 to |preds|
      invariant |matched| == tp && tp + fp == p
      invariant tp + GreedySize(preds, gold, p, matched) == GreedySize(preds, gold, 0, {})
    {
      var i := FindFree(preds[p], gold, matched);
      SizeUnfolds(preds, gold, p, matched);
      if i < |gold| {
        OneMore(matched, i);
        matched := matched + {i};
        tp := tp + 1;
      } else {
        fp := fp + 1;
      }
    }
    SizeFits(preds, gold);
    fn := |gold| - tp;
  }

  // -------------------------------------------------------------------- how good greedy is

  lemma {:induction false} BoundedSet(s: set<nat>, n: nat)
    requires forall x :: x in s ==> x < n
    ensures |s| <= n
  {
    if n == 0 {
      assert s == {};
    } else {
      BoundedSet(s - {n - 1}, n - 1);
    }
  }

  lemma {:induction false} ValuesOfOneToOne(m: Assignment)
    requires OneToOne(m)
    ensures |m.Values| == |m|
  {
    if m != map[] {
      var k :| k in m;
      var rest := m - {k};
      assert rest.Values == m.Values - {m[k]} by {
        forall v ensures v in rest.Values <==> v in m.Values && v != m[k] {
          if v in m.Values && v != m[k] {
            var i :| i in m && m[i] == v;
            assert i in rest && rest[i] == v;
          }
        }
      }
      ValuesOfOneToOne(rest);
      assert m.Keys == rest.Keys + {k};
      assert m[k] in m.Values;
    }
  }

  lemma {:induction false} CountsFit(outer: seq<Span>, inner: seq<Span>)
    ensures |Greedy(outer, inner, 0, {})| <= |outer| && |Greedy(outer, inner, 0, {})| <= |inner|
  {
    var g := Greedy(outer, inner, 0, {});
    GreedyIsMatching(outer, inner, 0, {});
    BoundedSet(g.Keys, |outer|);
    ValuesOfOneToOne(g);
    forall v | v in g.Values ensures v < |inner| {
      var k :| k in g && g[k] == v;
    }
    BoundedSet(g.Values, |inner|);
    assert |g.Keys| == |g|;
  }

  lemma {:induction false} SubsetSize(a: set<nat>, b: set<nat>)
    requires a <= b
    ensures |a| <= |b|
  {
    if a != {} {
      var x :| x in a;
      SubsetSize(a - {x}, b - {x});
    }
  }

  /** The pairs of m whose outer span greedy left alone all use inner spans that greedy took. */
  lemma {:induction false} UnmatchedRestIsSmall(outer: seq<Span>, inner: seq<Span>, m: Assignment, rest: Assignment)
    requires IsMatching(m, outer, inner)
    requires rest == map i | i in m && i !in Greedy(outer, inner, 0, {}) :: m[i]
    ensures |rest| <= |Greedy(outer, inner, 0, {})|
  {
    var g := Greedy(outer, inner, 0, {});
    GreedyIsMatching(outer, inner, 0, {});
    forall v | v in rest.Values ensures v in g.Values {
      var i :| i in rest && rest[i] == v;
      GreedySettles(outer, inner, 0, {}, i, v);
    }
    ValuesOfOneToOne(rest);
    ValuesOfOneToOne(g);
    SubsetSize(rest.Values, g.Values);
  }

  /** Greedy finds at least half of any matching, in whatever order the lists come. */
  lemma {:induction false} GreedyIsHalfOptimal(outer: seq<Span>, inner: seq<Span>, m: Assignment)
    requires IsMatching(m, outer, inner)
    ensures |m| <= 2 * |Greedy(outer, inner, 0, {})|
  {
    var g := Greedy(outer, inner, 0, {});
    var rest := map i | i in m && i !in g :: m[i];
    UnmatchedRestIsSmall(outer, inner, m, rest);
    SplitSize(m, rest, g);
  }

  lemma SplitSize(m: Assignment, rest: Assignment, g: Assignment)
    requires rest.Keys == m.Keys - g.Keys
    ensures |m| <= |rest| + |g|
  {
    SubsetSize(m.Keys - rest.Keys, g.Keys);
    assert m.Keys == rest.Keys + (m.Keys - rest.Keys);
    assert |m| == |m.Keys| && |rest| == |rest.Keys| && |g| == |g.Keys|;
  }

  /** In order, non-empty, and without overlap inside a type. */
  ghost predicate Tidy(s: seq<Span>)
  {
    && (forall i :: 0 <= i < |s| ==> s[i].start < s[i].end)
    && (forall i, j :: 0 <= i < j < |s| ==> s[i].start <= s[j].start)
    && (forall i, j :: 0 <= i < j < |s| && s[i].etype == s[j].etype ==> !Overlaps(s[i], s[j]))
  }

  /** The pair greedy chooses can always be exchanged into a best matching at no loss. */
  lemma ExchangeFirst(outer: seq<Span>, inner: seq<Span>, i: nat, used: set<nat>, j: nat, m: Assignment) returns (m': Assignment)
    requires Tidy(outer) && Tidy(inner) && i < |outer|
    requires j == FirstFree(outer[i], inner, used, 0) < |inner|
    requires MatchingFrom(m, outer, inner, i, used)
    ensures MatchingFrom(m', outer, inner, i + 1, used + {j}) && |m| <= |m'| + 1
  {
    m' := map k | k in m && k != i && m[k] != j :: m[k];
    var gone := m.Keys - m'.Keys;
    forall a, b | a in gone && b in gone ensures a == b {
      OnlyOneGone(outer, inner, i, used, j, m, a, b);
    }
    AtMostOne(gone);
    SplitKeys(m, m', gone);
  }

  lemma SplitKeys(m: Assignment, m': Assignment, gone: set<nat>)
    requires m'.Keys <= m.Keys && gone == m.Keys - m'.Keys && |gone| <= 1
    ensures |m| <= |m'| + 1
  {
    assert m.Keys == m'.Keys + gone;
    assert |m| == |m.Keys| && |m'| == |m'.Keys|;
  }

  lemma {:induction false} OnlyOneGone(outer: seq<Span>, inner: seq<Span>, i: nat, used: set<nat>, j: nat, m: Assignment, a: nat, b: nat)
    requires Tidy(outer) && Tidy(inner) && i < |outer|
    requires j == FirstFree(outer[i], inner, used, 0) < |inner|
    requires MatchingFrom(m, outer, inner, i, used)
    requires a in m && b in m && (a == i || m[a] == j) && (b == i || m[b] == j)
    ensures a == b
  {
    if a != b {
      var k := if a == i then b else a;
      assert m[k] == j && k > i;
      assert i in m && m[i] > j;
      NoCrossing(outer[i], outer[k], inner[j], inner[m[i]]);
    }
  }

  lemma NoCrossing(g: Span, h: Span, p: Span, q: Span)
    requires g.start < g.end && h.start < h.end && p.start < p.end && q.start < q.end
    requires g.start <= h.start && !Overlaps(g, h) && p.start <= q.start && !Overlaps(p, q)
    requires Overlaps(g, q)
    ensures !Overlaps(h, p)
  {
  }

  lemma AtMostOne(s: set<nat>)
    requires forall a, b :: a in s && b in s ==> a == b
    ensures |s| <= 1
  {
    if x :| x in s {
      assert s == {x};
    }
  }

  lemma {:induction false} GreedyIsOptimalFrom(outer: seq<Span>, inner: seq<Span>, i: nat, used: set<nat>, m: Assignment)
    requires Tidy(outer) && Tidy(inner) && i <= |outer|
    requires MatchingFrom(m, outer, inner, i, used)
    ensures |m| <= |Greedy(outer, inner, i, used)|
    decreases |outer| - i
  {
    if i == |outer| {
      assert m.Keys == {};
      assert m == map[];
    } else {
      var j := FirstFree(outer[i], inner, used, 0);
      if j == |inner| {
        assert i !in m;
        GreedyIsOptimalFrom(outer, inner, i + 1, used, m);
      } else {
        var m' := ExchangeFirst(outer, inner, i, used, j, m);
        GreedyIsOptimalFrom(outer, inner, i + 1, used + {j}, m');
        var rest := Greedy(outer, inner, i + 1, used + {j});
        GreedyIsMatching(outer, inner, i + 1, used + {j});
        assert i !in rest;
        assert |rest[i := j]| == |rest| + 1;
      }
    }
  }

  /** On tidy lists greedy finds a maximum matching. */
  lemma {:induction false} GreedyIsOptimalOnTidyLists(outer: seq<Span>, inner: seq<Span>, m: Assignment)
    requires Tidy(outer) && Tidy(inner) && IsMatching(m, outer, inner)
    ensures |m| <= |Greedy(outer, inner, 0, {})|
  {
    GreedyIsOptimalFrom(outer, inner, 0, {}, m);
  }

  // ------------------------------------------------------------------- the two loop orders

  ghost function Inverse(m: Assignment): Assignment
    requires OneToOne(m)
  {
    map j | j in m.Values :: KeyOf(m, j)
  }

  ghost function KeyOf(m: Assignment, j: nat): (i: nat)
    requires j in m.Values
    ensures i in m && m[i] == j
  {
    var i :| i in m && m[i] == j;
    i
  }

  lemma InverseIsMatching(m: Assignment, outer: seq<Span>, inner: seq<Span>)
    requires IsMatching(m, outer, inner)
    ensures IsMatching(Inverse(m), inner, outer) && |Inverse(m)| == |m|
  {
    ValuesOfOneToOne(m);
    assert Inverse(m).Keys == m.Values;
  }

  ghost predicate AllSettled(m: Assignment, outer: seq<Span>, inner: seq<Span>)
  {
    forall a: nat, b: nat :: a < |outer| && b < |inner| && Compatible(outer[a], inner[b]) ==> Settled(m, a, b)
  }

  lemma InverseSettles(m: Assignment, outer: seq<Span>, inner: seq<Span>)
    requires IsMatching(m, outer, inner) && AllSettled(m, outer, inner)
    ensures AllSettled(Inverse(m), inner, outer)
  {
    var w := Inverse(m);
    forall b: nat, a: nat | b < |inner| && a < |outer| && Compatible(inner[b], outer[a]) ensures Settled(w, b, a) {
      assert Settled(m, a, b);
      if a in m && m[a] <= b {
        assert m[a] in m.Values;
        assert w[m[a]] == a;
      } else {
        var k :| k in m && k <= a && m[k] == b;
        assert b in m.Values;
        assert w[b] == k;
      }
    }
  }

  /** A matching that settles every compatible pair is determined, one outer span after the other. */
  lemma {:induction false} SettledIsUnique(m: Assignment, w: Assignment, outer: seq<Span>, inner: seq<Span>, a: nat)
    requires IsMatching(m, outer, inner) && IsMatching(w, outer, inner)
    requires AllSettled(m, outer, inner) && AllSettled(w, outer, inner)
    ensures forall k :: k < a ==> (k in m <==> k in w) && (k in m ==> m[k] == w[k])
  {
    if a > 0 {
      SettledIsUnique(m, w, outer, inner, a - 1);
      assert a - 1 in m ==> Settled(w, a - 1, m[a - 1]);
      assert a - 1 in w ==> Settled(m, a - 1, w[a - 1]);
    }
  }

  /**
    * The two harnesses loop in opposite orders and still pair up exactly the same spans, whatever the
    * lists are, so their counts always agree.
    */
  lemma {:induction false} BothLoopsPairTheSame(gold: seq<Span>, pred: seq<Span>)
    ensures OneToOne(Greedy(pred, gold, 0, {}))
    ensures Greedy(gold, pred, 0, {}) == Inverse(Greedy(pred, gold, 0, {}))
    ensures |Greedy(gold, pred, 0, {})| == |Greedy(pred, gold, 0, {})|
  {
    var g, h := Greedy(gold, pred, 0, {}), Greedy(pred, gold, 0, {});
    GreedyIsMatching(gold, pred, 0, {});
    GreedyIsMatching(pred, gold, 0, {});
    InverseIsMatching(h, pred, gold);
    GreedyAllSettled(gold, pred);
    GreedyAllSettled(pred, gold);
    InverseSettles(h, pred, gold);
    SameAssignment(g, Inverse(h), gold, pred);
  }

  lemma SameAssignment(m: Assignment, w: Assignment, outer: seq<Span>, inner: seq<Span>)
    requires IsMatching(m, outer, inner) && IsMatching(w, outer, inner)
    requires AllSettled(m, outer, inner) && AllSettled(w, outer, inner)
    ensures m == w
  {
    SettledIsUnique(m, w, outer, inner, |outer|);
    assert forall k :: k in m || k in w ==> k < |outer|;
    assert m.Keys == w.Keys;
  }

  lemma {:induction false} GreedyAllSettled(outer: seq<Span>, inner: seq<Span>)
    ensures AllSettled(Greedy(outer, inner, 0, {}), outer, inner)
  {
    forall a: nat, b: nat | a < |outer| && b < |inner| && Compatible(outer[a], inner[b])
      ensures Settled(Greedy(outer, inner, 0, {}), a, b)
    {
      GreedySettles(outer, inner, 0, {}, a, b);
    }
  }

  // ------------------------------------------------------------------ half is all one gets

  /** Per block of ten characters, a gold span over two predictions and one over the first of them only. */
  function GoldAt(i: nat): Span
  {
    var at := i / 2 * 10;
    if i % 2 == 0 then Span(at, at + 8, "PERSON") else Span(at, at + 4, "PERSON")
  }

  function PredAt(i: nat): Span
  {
    var at := i / 2 * 10;
    if i % 2 == 0 then Span(at, at + 4, "PERSON") else Span(at + 4, at + 8, "PERSON")
  }

  function NestedGold(n: nat): seq<Span> { seq(2 * n, (i: nat) => GoldAt(i)) }

  function Halves(n: nat): seq<Span> { seq(2 * n, (i: nat) => PredAt(i)) }

  lemma WhoFits(i: nat, j: nat)
    ensures Compatible(GoldAt(i), PredAt(j)) <==> i / 2 == j / 2 && (i % 2 == 0 || j % 2 == 0)
  {
  }

  lemma PredsInOrder(i: nat, j: nat)
    requires i < j
    ensures GoldAt(i).start <= GoldAt(j).start && PredAt(i).start < PredAt(i).end <= PredAt(j).start
  {
  }

  function Evens(k: nat): set<nat>
  {
    set i: nat | i < 2 * k && i % 2 == 0
  }

  lemma {:induction false} FirstFreeIs(x: Span, inner: seq<Span>, used: set<nat>, r: nat)
    requires r <= |inner| && (r < |inner| ==> r !in used && Compatible(x, inner[r]))
    requires forall j :: 0 <= j < r ==> j in used || !Compatible(x, inner[j])
    ensures FirstFree(x, inner, used, 0) == r
  {
  }

  /** The wide gold span takes the only prediction that its narrow neighbour could have had. */
  lemma WideTakesFirst(n: nat, k: nat)
    requires k < n
    ensures FirstFree(GoldAt(2 * k), Halves(n), Evens(k), 0) == 2 * k
  {
    WhoFits(2 * k, 2 * k);
    forall j: nat | j < 2 * k ensures !Compatible(GoldAt(2 * k), Halves(n)[j]) {
      WhoFits(2 * k, j);
    }
    FirstFreeIs(GoldAt(2 * k), Halves(n), Evens(k), 2 * k);
  }

  lemma NarrowFindsNone(n: nat, k: nat)
    requires k < n
    ensures FirstFree(GoldAt(2 * k + 1), Halves(n), Evens(k + 1), 0) == 2 * n
  {
    forall j: nat | j < 2 * n ensures j in Evens(k + 1) || !Compatible(GoldAt(2 * k + 1), Halves(n)[j]) {
      WhoFits(2 * k + 1, j);
    }
    FirstFreeIs(GoldAt(2 * k + 1), Halves(n), Evens(k + 1), 2 * n);
  }

  lemma OneOfTwo(outer: seq<Span>, inner: seq<Span>, i: nat, used: set<nat>, j: nat, used': set<nat>)
    requires i + 1 < |outer| && j < |inner| && FirstFree(outer[i], inner, used, 0) == j
    requires used' == used + {j} && FirstFree(outer[i + 1], inner, used', 0) == |inner|
    ensures GreedySize(outer, inner, i, used) == 1 + GreedySize(outer, inner, i + 2, used')
  {
    SizeUnfolds(outer, inner, i, used);
    SizeUnfolds(outer, inner, i + 1, used');
  }

  lemma {:induction false} OnePerBlock(gold: seq<Span>, preds: seq<Span>, n: nat, k: nat)
    requires k <= n && gold == NestedGold(n) && preds == Halves(n)
    ensures GreedySize(gold, preds, 2 * k, Evens(k)) == n - k
    decreases n - k
  {
    if k < n {
      WideTakesFirst(n, k);
      NarrowFindsNone(n, k);
      assert Evens(k + 1) == Evens(k) + {2 * k};
      OneOfTwo(gold, preds, 2 * k, Evens(k), 2 * k, Evens(k + 1));
      OnePerBlock(gold, preds, n, k + 1);
    }
  }

  function Partner(i: nat): nat { if i % 2 == 0 then i + 1 else i - 1 }

  /** Swapping each block's pair matches everything. */
  function Crossed(n: nat): Assignment
  {
    map i: nat | i < 2 * n :: Partner(i)
  }

  lemma {:induction false} CrossedSize(n: nat)
    ensures |Crossed(n)| == 2 * n
  {
    if n == 0 {
      assert Crossed(0) == map[];
    } else {
      CrossedSize(n - 1);
      var m := Crossed(n - 1)[2 * n - 2 := 2 * n - 1];
      assert Crossed(n) == m[2 * n - 1 := 2 * n - 2];
    }
  }

  lemma CrossedFits(n: nat, i: nat)
    requires i < 2 * n
    ensures Partner(i) < 2 * n && Compatible(NestedGold(n)[i], Halves(n)[Partner(i)])
  {
    WhoFits(i, Partner(i));
  }

  lemma PartnersDiffer(i: nat, j: nat)
    ensures i != j ==> Partner(i) != Partner(j)
  {
  }

  lemma CrossedOneToOne(n: nat)
    ensures OneToOne(Crossed(n))
  {
    var m := Crossed(n);
    forall i, j | i in m && j in m && i != j ensures m[i] != m[j] {
      PartnersDiffer(i, j);
    }
  }

  lemma CrossedMatches(n: nat)
    ensures IsMatching(Crossed(n), NestedGold(n), Halves(n))
  {
    var m, gold, preds := Crossed(n), NestedGold(n), Halves(n);
    CrossedOneToOne(n);
    forall i | i in m ensures i < |gold| && m[i] < |preds| && Compatible(gold[i], preds[m[i]]) {
      CrossedFits(n, i);
    }
  }

  lemma ListsInOrder(n: nat)
    ensures SortedBy(StartLe, NestedGold(n)) && Tidy(Halves(n))
  {
    forall i: nat, j: nat | i < j
      ensures GoldAt(i).start <= GoldAt(j).start && PredAt(i).start < PredAt(i).end <= PredAt(j).start
    {
      PredsInOrder(i, j);
    }
    forall i | 0 <= i < 2 * n ensures Halves(n)[i].start < Halves(n)[i].end {
      PredsInOrder(i, i + 1);
    }
  }

  /**
    * No bound better than one half holds: for every n there are lists, both sorted by start and the
    * predictions internally disjoint, where greedy makes n pairs and a matching has 2n. So tidiness
    * has to be asked of both sides.
    */
  lemma HalfIsTight(n: nat)
    ensures |Greedy(NestedGold(n), Halves(n), 0, {})| == n
    ensures IsMatching(Crossed(n), NestedGold(n), Halves(n)) && |Crossed(n)| == 2 * n
    ensures SortedBy(StartLe, NestedGold(n)) && Tidy(Halves(n))
  {
    GreedySizeIs(NestedGold(n), Halves(n), 0, {});
    OnePerBlock(NestedGold(n), Halves(n), n, 0);
    assert Evens(0) == {};
    CrossedMatches(n);
    CrossedSize(n);
    ListsInOrder(n);
  }
}
