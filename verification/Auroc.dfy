/**
  * AUROC by rank sum with average ranks for ties, and its quadratic definition over pairs
  * (validation/real_data/pccf_feasibility_meddocan.py).
  */
module Auroc {
  import opened Sorting
  import opened Counting
  import opened Optional

  /** A score with its label; tuples compare by score, then negatives before positives. */
  type Tagged = (real, bool)

  predicate TaggedLe(a: Tagged, b: Tagged)
  {
    a.0 < b.0 || (a.0 == b.0 && (a.1 ==> b.1))
  }

  function Tag(values: seq<real>, y: bool): seq<Tagged>
  {
    if values == [] then [] else [(values[0], y)] + Tag(values[1..], y)
  }

  ghost function Lt(x: real): Tagged -> bool { (t: Tagged) => t.0 < x }

  ghost function Le(x: real): Tagged -> bool { (t: Tagged) => t.0 <= x }

  /** Twice the average rank of a value: its tie block covers ranks Count(<)+1 to Count(<=). */
  ghost function TwiceRank(all: seq<Tagged>, x: real): int
  {
    Count(all, Lt(x)) + Count(all, Le(x)) + 1
  }

  /** Twice the rank sum of the positives in s, ranked among `all`. */
  ghost function TwiceRankSum(s: seq<Tagged>, all: seq<Tagged>): int
  {
    if s == [] then 0 else (if s[0].1 then TwiceRank(all, s[0].0) else 0) + TwiceRankSum(s[1..], all)
  }

  // ---------------------------------------------------------------- the pair definition

  /** Two points for each negative below x, one for each tie. */
  ghost function Points(x: real, neg: seq<real>): nat
  {
    if neg == [] then 0
    else (if x > neg[0] then 2 else if x == neg[0] then 1 else 0) + Points(x, neg[1..])
  }

  ghost function AllPoints(pos: seq<real>, neg: seq<real>): nat
  {
    if pos == [] then 0 else Points(pos[0], neg) + AllPoints(pos[1..], neg)
  }

  /** Pairs with the positive above the negative, plus half the ties, over all pairs. */
  ghost function PairShare(pos: seq<real>, neg: seq<real>): real
    requires pos != [] && neg != []
  {
    (AllPoints(pos, neg) as real / 2.0) / (|pos| * |neg|) as real
  }

  // --------------------------------------------------------------------------- the loop

  /** The tie block starting at i ends at j. */
  ghost predicate Block(s: seq<Tagged>, i: nat, j: nat)
  {
    && i < j <= |s| && SortedBy(TaggedLe, s)
    && (i > 0 ==> s[i - 1].0 < s[i].0)
    && (j < |s| ==> s[j].0 != s[i].0)
    && forall k :: i <= k < j ==> s[k].0 == s[i].0
  }

  lemma BlockRank(s: seq<Tagged>, i: nat, j: nat)
    requires Block(s, i, j)
    ensures TwiceRank(s, s[i].0) == i + j + 1
    ensures j < |s| ==> s[j - 1].0 < s[j].0
  {
    var x := s[i].0;
    assert j < |s| ==> TaggedLe(s[i], s[j]);
    forall k | 0 <= k < |s| ensures (s[k].0 < x <==> k < i) && (s[k].0 <= x <==> k < j) {
      assert k < i ==> s[k] == s[i - 1] || TaggedLe(s[k], s[i - 1]);
      assert k > j ==> TaggedLe(s[j], s[k]);
    }
    PrefixCount(s, i, Lt(x));
    PrefixCount(s, j, Le(x));
  }

  lemma {:induction false} PrefixCount(s: seq<Tagged>, n: nat, p: Tagged -> bool)
    requires n <= |s| && forall k :: 0 <= k < |s| ==> (p(s[k]) <==> k < n)
    ensures Count(s, p) == n
  {
    assert s == s[..n] + s[n..];
    CountConcat(s[..n], s[n..], p);
    CountBound(s[..n], p);
    CountBound(s[n..], p);
  }

  function Half(n: int): real { n as real / 2.0 }

  /** The tie loop of auroc: every member of a tie block gets the average of the block's ranks. */
  method AverageRanks(all: seq<Tagged>) returns (ranks: seq<real>)
    requires SortedBy(TaggedLe, all)
    ensures |ranks| == |all|
    ensures forall k :: 0 <= k < |all| ==> ranks[k] == Half(TwiceRank(all, all[k].0))
  {
    ranks := [];
    var i := 0;
    while i < |all|
      invariant 0 <= i <= |all| && |ranks| == i
      invariant 0 < i < |all| ==> all[i - 1].0 < all[i].0
      invariant forall k :: 0 <= k < i ==> ranks[k] == Half(TwiceRank(all, all[k].0))
    {
      var j := i;
      while j < |all| && all[j].0 == all[i].0
        invariant i <= j <= |all|
        invariant forall k :: i <= k < j ==> all[k].0 == all[i].0
      {
        j := j + 1;
      }
      BlockRank(all, i, j);
      ranks := ranks + seq(j - i, _ => Half(i + j + 1));
      i := j;
    }
  }

  method Auroc(pos: seq<real>, neg: seq<real>) returns (r: Option<real>)
    ensures pos == [] || neg == [] ==> r == None
    ensures pos != [] && neg != [] ==> r == Some(PairShare(pos, neg))
  {
    if pos == [] || neg == [] {
      return None;
    }
    SortSorts(TaggedLe, Tag(pos, true) + Tag(neg, false));
    var all := Sort(TaggedLe, Tag(pos, true) + Tag(neg, false));
    var ranks := AverageRanks(all);
    var rp := SumPositive(all, ranks);
    RankSumIsPairs(pos, neg);
    var n, m := |pos|, |neg|;
    var won := rp - (n * (n + 1)) as real / 2.0;
    assert won == AllPoints(pos, neg) as real / 2.0 by {
      ScaleRankSum(rp, n, AllPoints(pos, neg));
    }
    r := Some(won / (n * m) as real);
  }

  method SumPositive(all: seq<Tagged>, ranks: seq<real>) returns (rp: real)
    requires |ranks| == |all|
    requires forall k :: 0 <= k < |all| ==> ranks[k] == Half(TwiceRank(all, all[k].0))
    ensures rp == Half(TwiceRankSum(all, all))
  {
    rp := 0.0;
    for k := 0 to |all|
      invariant rp + Half(TwiceRankSum(all[k..], all)) == Half(TwiceRankSum(all, all))
    {
      if all[k].1 {
        rp := rp + ranks[k];
      }
    }
  }

  lemma ScaleRankSum(rp: real, n: nat, points: int)
    requires rp == Half(n * n + n + points)
    ensures rp - (n * (n + 1)) as real / 2.0 == points as real / 2.0
  {
    assert n * (n + 1) == n * n + n;
  }

  // ------------------------------------------------------------------ rank sum as pairs

  lemma {:induction false} RankSumInsert(x: Tagged, s: seq<Tagged>, all: seq<Tagged>)
    ensures TwiceRankSum(Insert(TaggedLe, x, s), all) == (if x.1 then TwiceRank(all, x.0) else 0) + TwiceRankSum(s, all)
  {
    if s == [] || TaggedLe(x, s[0]) {
      assert ([x] + s)[1..] == s;
    } else {
      RankSumInsert(x, s[1..], all);
      assert ([s[0]] + Insert(TaggedLe, x, s[1..]))[1..] == Insert(TaggedLe, x, s[1..]);
    }
  }

  lemma {:induction false} RankSumSort(s: seq<Tagged>, all: seq<Tagged>)
    ensures TwiceRankSum(Sort(TaggedLe, s), all) == TwiceRankSum(s, all)
  {
    if s != [] {
      RankSumSort(s[1..], all);
      RankSumInsert(s[0], Sort(TaggedLe, s[1..]), all);
    }
  }

  lemma {:induction false} RankSumConcat(s: seq<Tagged>, t: seq<Tagged>, all: seq<Tagged>)
    ensures TwiceRankSum(s + t, all) == TwiceRankSum(s, all) + TwiceRankSum(t, all)
  {
    if s == [] {
      assert s + t == t;
    } else {
      assert (s + t)[1..] == s[1..] + t;
      RankSumConcat(s[1..], t, all);
    }
  }

  ghost function LtR(x: real): real -> bool { (y: real) => y < x }

  ghost function LeR(x: real): real -> bool { (y: real) => y <= x }

  ghost function GtR(x: real): real -> bool { (y: real) => y > x }

  ghost function GeR(x: real): real -> bool { (y: real) => y >= x }

  /** Elements of t below each element of s, plus those not above it. */
  ghost function Dominated(s: seq<real>, t: seq<real>): int
  {
    if s == [] then 0 else Count(t, LtR(s[0])) + Count(t, LeR(s[0])) + Dominated(s[1..], t)
  }

  lemma {:induction false} TagCounts(values: seq<real>, y: bool, x: real)
    ensures Count(Tag(values, y), Lt(x)) == Count(values, LtR(x))
    ensures Count(Tag(values, y), Le(x)) == Count(values, LeR(x))
  {
    if values != [] {
      TagCounts(values[1..], y, x);
      assert Tag(values, y)[1..] == Tag(values[1..], y);
    }
  }

  lemma {:induction false} PositiveRanks(s: seq<real>, pos: seq<real>, neg: seq<real>, all: seq<Tagged>)
    requires all == Sort(TaggedLe, Tag(pos, true) + Tag(neg, false))
    ensures TwiceRankSum(Tag(s, true), all) == |s| + Dominated(s, pos) + Dominated(s, neg)
  {
    if s != [] {
      PositiveRanks(s[1..], pos, neg, all);
      assert Tag(s, true)[1..] == Tag(s[1..], true);
      RankAmong(s[0], pos, neg, all);
    }
  }

  lemma {:induction false} RankAmong(x: real, pos: seq<real>, neg: seq<real>, all: seq<Tagged>)
    requires all == Sort(TaggedLe, Tag(pos, true) + Tag(neg, false))
    ensures TwiceRank(all, x) == 1 + Count(pos, LtR(x)) + Count(pos, LeR(x)) + Count(neg, LtR(x)) + Count(neg, LeR(x))
  {
    CountSort(TaggedLe, Tag(pos, true) + Tag(neg, false), Lt(x));
    CountSort(TaggedLe, Tag(pos, true) + Tag(neg, false), Le(x));
    CountConcat(Tag(pos, true), Tag(neg, false), Lt(x));
    CountConcat(Tag(pos, true), Tag(neg, false), Le(x));
    TagCounts(pos, true, x);
    TagCounts(neg, false, x);
  }

  lemma {:induction false} NegativesDoNotRank(neg: seq<real>, all: seq<Tagged>)
    ensures TwiceRankSum(Tag(neg, false), all) == 0
  {
    if neg != [] {
      NegativesDoNotRank(neg[1..], all);
      assert Tag(neg, false)[1..] == Tag(neg[1..], false);
    }
  }

  lemma {:induction false} Complements(s: seq<real>, x: real)
    ensures Count(s, LtR(x)) + Count(s, GeR(x)) == |s|
    ensures Count(s, LeR(x)) + Count(s, GtR(x)) == |s|
  {
    if s != [] {
      Complements(s[1..], x);
    }
  }

  lemma {:induction false} DominatedCons(s: seq<real>, x: real, t: seq<real>)
    ensures Dominated(s, [x] + t) == Dominated(s, t) + Count(s, GtR(x)) + Count(s, GeR(x))
  {
    if s != [] {
      DominatedCons(s[1..], x, t);
      assert ([x] + t)[1..] == t;
    }
  }

  /** Comparing a list with itself: each ordered pair is counted once from each side. */
  lemma {:induction false} SelfDominated(s: seq<real>)
    ensures Dominated(s, s) == |s| * |s|
  {
    if s != [] {
      var x, t := s[0], s[1..];
      assert s == [x] + t;
      SelfDominated(t);
      DominatedCons(t, x, t);
      Complements(t, x);
      assert ([x] + t)[1..] == t;
      assert |s| * |s| == |t| * |t| + 2 * |t| + 1;
    }
  }

  lemma {:induction false} PointsAreDominated(x: real, neg: seq<real>)
    ensures Points(x, neg) == Count(neg, LtR(x)) + Count(neg, LeR(x))
  {
    if neg != [] {
      PointsAreDominated(x, neg[1..]);
    }
  }

  lemma {:induction false} AllPointsAreDominated(pos: seq<real>, neg: seq<real>)
    ensures AllPoints(pos, neg) == Dominated(pos, neg)
  {
    if pos != [] {
      PointsAreDominated(pos[0], neg);
      AllPointsAreDominated(pos[1..], neg);
    }
  }

  /** The rank sum of the positives is a constant plus the points they score against the negatives. */
  lemma {:induction false} RankSumIsPairs(pos: seq<real>, neg: seq<real>)
    ensures var all := Sort(TaggedLe, Tag(pos, true) + Tag(neg, false));
      TwiceRankSum(all, all) == |pos| * |pos| + |pos| + AllPoints(pos, neg)
  {
    var all := Sort(TaggedLe, Tag(pos, true) + Tag(neg, false));
    RankSumSort(Tag(pos, true) + Tag(neg, false), all);
    RankSumConcat(Tag(pos, true), Tag(neg, false), all);
    PositiveRanks(pos, pos, neg, all);
    NegativesDoNotRank(neg, all);
    SelfDominated(pos);
    AllPointsAreDominated(pos, neg);
  }
}
