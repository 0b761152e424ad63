/**
  * The fixed-sequence threshold search of src/pccf.py takes its grid from the very pool it tests. Its
  * chance of missing the target is at most its level all the same, for every distribution of scores
  * and labels.
  */
module SequenceSearch {
  import opened ClopperPearson
  import opened Sorting
  import opened Counting
  import opened Precision
  import opened Sampling
  import opened MonotoneStopping
  import opened Coupling
  import opened Overlaps
  import opened FairCuts

  // ------------------------------------------------------------------ bad scores

  /** The scores of the given items whose threshold falls short of the target. */
  ghost function BadAmong(d: Source, items: seq<Item>, target: real): seq<real>
    requires |d.items| == |d.q|
  {
    if items == [] then []
    else (if TrueShare(d)(items[0].0) < target then [items[0].0] else []) + BadAmong(d, items[1..], target)
  }

  /** All bad scores, in increasing order. */
  ghost function BadScores(d: Source, target: real): seq<real>
    requires |d.items| == |d.q|
  {
    SortedSet(BadAmong(d, d.items, target))
  }

  ghost predicate HasScore(items: seq<Item>, l: real)
  {
    exists x :: x in items && x.0 == l
  }

  lemma {:induction false} BadAmongIs(d: Source, items: seq<Item>, target: real, l: real)
    requires |d.items| == |d.q|
    ensures l in BadAmong(d, items, target) <==> HasScore(items, l) && TrueShare(d)(l) < target
  {
    if items != [] {
      BadAmongIs(d, items[1..], target, l);
      assert forall x :: x in items <==> x == items[0] || x in items[1..];
    }
  }

  lemma BadScoresAre(d: Source, target: real)
    requires |d.items| == |d.q|
    ensures Increasing(BadScores(d, target))
    ensures forall l :: l in BadScores(d, target) <==> HasScore(d.items, l) && TrueShare(d)(l) < target
  {
    SortedSetIs(BadAmong(d, d.items, target));
    forall l ensures l in BadScores(d, target) <==> HasScore(d.items, l) && TrueShare(d)(l) < target {
      BadAmongIs(d, d.items, target, l);
    }
  }

  // ------------------------------------------------------------------ cells whose two items agree with the scores

  /** Up to a bad score, the second item is there whenever the first is; up to a good one, the other way round. */
  ghost predicate IsFit(d: Source, bad: seq<real>, c: Cell)
    requires bad != []
  {
    && c.won in d.items && c.lost in d.items
    && (forall l :: l in bad && c.won.0 <= l ==> c.lost.0 <= l)
    && (forall l :: HasScore(d.items, l) && l !in bad && l <= bad[|bad| - 1] && c.lost.0 <= l ==> c.won.0 <= l)
    && (c.lost.1 ==> c.lost.0 > bad[|bad| - 1])
  }

  ghost function Fit(d: Source, bad: seq<real>): Cell -> bool
    requires bad != []
  {
    (c: Cell) => IsFit(d, bad, c)
  }

  lemma PieceMeets(c: Cuts, i: nat, j: nat)
    requires Piece(c, i, j) > 0.0
    ensures c.won(i) < c.lost(j + 1) && c.lost(j) < c.won(i + 1)
  {
  }

  /** If the first cutting lags behind at e, a piece of it before e meets only pieces of the other before e. */
  lemma LagKeepsBefore(c: Cuts, n: nat, e: nat, i: nat, j: nat)
    requires IsCut(c.won, n) && IsCut(c.lost, n) && e <= n && i < n && j < n && Piece(c, i, j) > 0.0
    ensures c.won(e) <= c.lost(e) && i < e ==> j < e
    ensures c.won(e) >= c.lost(e) && j < e ==> i < e
  {
    PieceMeets(c, i, j);
    if i < e {
      CutRises(c.won, n, i + 1, e);
    } else {
      CutRises(c.won, n, e, i);
    }
    if j < e {
      CutRises(c.lost, n, j + 1, e);
    } else {
      CutRises(c.lost, n, e, j);
    }
  }

  /** How the cuttings compare at the end of the items up to a score. */
  lemma LagsAtBad(d: Source, p: real, top: real, l: real, xs: Weighed, c: Cuts) returns (e: nat)
    requires IsSource(d) && 0.0 < p < 1.0 && l <= top && xs == Ordered(d) && c == CutsOf(xs, p, top)
    ensures EndsAt(xs, l, e)
    ensures TrueShare(d)(l) < p ==> c.won(e) <= c.lost(e)
    ensures TrueShare(d)(l) >= p ==> c.won(e) >= c.lost(e)
  {
    e := SplitAt(d, l, top);
    var m := SplitOf(d, l);
    SourceSplits(d, l);
    ShareOfKept(m);
    var w, t := m.t + m.f, m.t;
    ShareCompares(t, w, Share(m), p);
    var z := FirstPart(xs, p, top, e);
    DueShare(p, w);
    Stretched(z, w, p, 1.0 - p);
  }

  lemma ShareCompares(t: real, w: real, s: real, p: real)
    requires w >= 0.0 && t == w * s
    ensures s < p ==> t <= p * w
    ensures s >= p ==> t >= p * w
  {
    if s < p {
      TimesLe(w, s, p);
    } else {
      TimesLe(w, p, s);
    }
  }

  lemma DueShare(p: real, w: real)
    requires 0.0 < p < 1.0 && w <= 1.0
    ensures p - 1.0 + w <= p * w
  {
    Nonneg(1.0 - p, 1.0 - w);
    assert (1.0 - p) * (1.0 - w) == 1.0 - p - w + p * w;
  }

  lemma {:induction false} BadTopMass(d: Source, p: real, top: real, xs: Weighed)
    requires IsSource(d) && 0.0 < p < 1.0 && TrueShare(d)(top) < p && xs == Ordered(d)
    ensures TrueMass(xs, |xs|, top) <= p
  {
    OrderedMass(d);
    var e := SplitAt(d, top, top);
    TrueMassAtMost(xs, top, e, |xs|);
    BadKeepsLittle(d, top, p);
  }

  lemma BadKeepsLittle(d: Source, l: real, p: real)
    requires IsSource(d) && 0.0 < p && TrueShare(d)(l) < p
    ensures SplitOf(d, l).t <= p
  {
    var m := SplitOf(d, l);
    SourceSplits(d, l);
    ShareOfKept(m);
    var t, w, s := m.t, m.t + m.f, Share(m);
    ShareBelow(t, w, s, p);
  }

  lemma ShareBelow(t: real, w: real, s: real, p: real)
    requires 0.0 <= w <= 1.0 && t == w * s && s < p && 0.0 < p
    ensures t <= p
  {
    var u := w * p;
    ProductLe(w, s, p, t, u);
    PartAtMost(w, p, u);
  }

  lemma ProductLe(w: real, s: real, p: real, t: real, u: real)
    requires w >= 0.0 && s <= p && t == w * s && u == w * p
    ensures t <= u
  {
    TimesLe(w, s, p);
  }

  lemma PartAtMost(w: real, p: real, u: real)
    requires w <= 1.0 && p > 0.0 && u == w * p
    ensures u <= p
  {
    Nonneg(1.0 - w, p);
    assert (1.0 - w) * p == p - w * p;
  }

  /** Below the largest bad score, what is labelled true goes to the first cutting entirely. */
  lemma NoTrueLost(xs: Weighed, c: Cuts, p: real, top: real, j: nat)
    requires 0.0 < p < 1.0 && c == CutsOf(xs, p, top) && Weights(xs) && j < |xs| && IsTrue(xs[j].0, top)
    ensures c.lost(j) == c.lost(j + 1)
  {
    FirstPartSteps(xs, p, top, j);
  }

  lemma PieceIsFit(d: Source, p: real, bad: seq<real>, xs: Weighed, c: Cuts, i: nat, j: nat)
    requires IsSource(d) && 0.0 < p < 1.0 && bad == BadScores(d, p) && bad != []
    requires xs == Ordered(d) && c == CutsOf(xs, p, bad[|bad| - 1]) && i < |xs| && j < |xs| && Piece(c, i, j) > 0.0
    requires IsCut(c.won, |xs|) && IsCut(c.lost, |xs|)
    ensures IsFit(d, bad, Cell(xs[i].0, xs[j].0))
  {
    var top, cell := bad[|bad| - 1], Cell(xs[i].0, xs[j].0);
    OrderedMass(d);
    BadScoresAre(d, p);
    assert xs[i] in xs && xs[j] in xs;
    forall l | l in bad && cell.won.0 <= l ensures cell.lost.0 <= l {
      LastIsTop(bad, l);
      var e := LagsAtBad(d, p, top, l, xs, c);
      LagKeepsBefore(c, |xs|, e, i, j);
    }
    forall l | HasScore(d.items, l) && l !in bad && l <= top && cell.lost.0 <= l ensures cell.won.0 <= l {
      var e := LagsAtBad(d, p, top, l, xs, c);
      LagKeepsBefore(c, |xs|, e, i, j);
    }
    if IsTrue(cell.lost, top) {
      NoTrueLost(xs, c, p, top, j);
      PieceMeetsNothing(c, i, j);
    }
  }

  lemma PieceMeetsNothing(c: Cuts, i: nat, j: nat)
    requires c.lost(j) == c.lost(j + 1)
    ensures Piece(c, i, j) <= 0.0
  {
  }

  lemma LastIsTop(s: seq<real>, l: real)
    requires Increasing(s) && l in s
    ensures l <= s[|s| - 1]
  {
    var i :| 0 <= i < |s| && s[i] == l;
    assert i < |s| - 1 ==> s[i] < s[|s| - 1];
  }

  ghost predicate IsPiece(c: Cuts, xs: Weighed, e: (Cell, real), i: nat, j: nat)
  {
    i < |xs| && j < |xs| && e == (Cell(xs[i].0, xs[j].0), Piece(c, i, j))
  }

  lemma {:induction false} RowPieces(c: Cuts, xs: Weighed, i: nat, k: nat)
    requires i < |xs| && k <= |xs|
    ensures forall e :: e in Row(c, xs, i, k) ==> exists j: nat :: IsPiece(c, xs, e, i, j)
  {
    if k > 0 {
      RowPieces(c, xs, i, k - 1);
      assert IsPiece(c, xs, (Cell(xs[i].0, xs[k - 1].0), Piece(c, i, k - 1)), i, k - 1);
    }
  }

  lemma {:induction false} RowsPieces(c: Cuts, xs: Weighed, k: nat)
    requires k <= |xs|
    ensures forall e :: e in Rows(c, xs, k) ==> exists i: nat, j: nat :: IsPiece(c, xs, e, i, j)
  {
    if k > 0 {
      RowsPieces(c, xs, k - 1);
      RowPieces(c, xs, k - 1, |xs|);
    }
  }

  lemma {:induction false} WeightIsMean(p: real, cells: Cells, k: nat)
    requires k <= |cells|
    ensures Weight(cells, k) == CellMean(p, cells, k, One())
  {
    if k > 0 {
      WeightIsMean(p, cells, k - 1);
      BlendSame(p, 1.0);
      assert cells[k - 1].1 * 1.0 == cells[k - 1].1;
    }
  }

  /** Every distribution with a bad score can be drawn by fit cells. */
  lemma FairCells(d: Source, p: real, bad: seq<real>) returns (cells: Cells)
    requires IsSource(d) && 0.0 < p < 1.0 && bad == BadScores(d, p) && bad != []
    ensures Couples(d, p, cells) && OnlyFit(cells, Fit(d, bad)) && Weight(cells, |cells|) == 1.0
  {
    var top, xs := bad[|bad| - 1], Ordered(d);
    var c := CutsOf(xs, p, top);
    BadScoresAre(d, p);
    assert top in bad;
    OrderedMass(d);
    BadTopMass(d, p, top, xs);
    CutsFit(xs, c, p, top);
    cells := Rows(c, xs, |xs|);
    forall g: Item -> real ensures CellMean(p, cells, |cells|, g) == ItemMean(d, |d.q|, g) {
      OverlapsCouple(p, c, xs, g);
      OrderedMean(d, g);
    }
    RowsPieces(c, xs, |xs|);
    forall n | 0 <= n < |cells| ensures cells[n].1 >= 0.0 && (cells[n].1 > 0.0 ==> Fit(d, bad)(cells[n].0)) {
      assert cells[n] in cells;
      var i: nat, j: nat :| IsPiece(c, xs, cells[n], i, j);
      if cells[n].1 > 0.0 {
        PieceIsFit(d, p, bad, xs, c, i, j);
      }
    }
    WeightIsMean(p, cells, |cells|);
    TotalIsMean(d, |d.q|);
    assert d.q[..|d.q|] == d.q;
  }

  // ------------------------------------------------------------------ counts in the picked pool

  lemma PickFront(cs: seq<Cell>, zs: seq<bool>)
    requires |zs| == |cs| && cs != []
    ensures Pick(cs, zs) == [if zs[0] then cs[0].won else cs[0].lost] + Pick(cs[1..], zs[1..])
  {
  }

  lemma {:induction false} KeptFront(cs: seq<Cell>, zs: seq<bool>, l: real)
    requires |zs| == |cs| && cs != []
    ensures var x, rest := (if zs[0] then cs[0].won else cs[0].lost), Kept(Pick(cs[1..], zs[1..]), l);
      Kept(Pick(cs, zs), l) == (if x.0 <= l then [x.1] else []) + rest
      && |Kept(Pick(cs, zs), l)| == (if x.0 <= l then 1 else 0) + |rest|
      && Trues(Kept(Pick(cs, zs), l)) == (if x.0 <= l && x.1 then 1 else 0) + Trues(rest)
  {
    PickFront(cs, zs);
    var x := if zs[0] then cs[0].won else cs[0].lost;
    assert ([x] + Pick(cs[1..], zs[1..]))[1..] == Pick(cs[1..], zs[1..]);
    var rest := Kept(Pick(cs[1..], zs[1..]), l);
    if x.0 <= l {
      assert ([x.1] + rest)[1..] == rest;
    } else {
      assert [] + rest == rest;
    }
  }

  /** More firsts keep no more up to a bad score, and no fewer up to a good one. */
  lemma {:induction false} KeptMoves(cs: seq<Cell>, zs: seq<bool>, ys: seq<bool>, l: real)
    requires |zs| == |cs| && Below(zs, ys)
    ensures (forall c :: c in cs && c.won.0 <= l ==> c.lost.0 <= l) ==> |Kept(Pick(cs, ys), l)| <= |Kept(Pick(cs, zs), l)|
    ensures (forall c :: c in cs && c.lost.0 <= l ==> c.won.0 <= l) ==> |Kept(Pick(cs, zs), l)| <= |Kept(Pick(cs, ys), l)|
  {
    if cs != [] {
      KeptMoves(cs[1..], zs[1..], ys[1..], l);
      KeptFront(cs, zs, l);
      KeptFront(cs, ys, l);
      assert cs[0] in cs && forall c :: c in cs[1..] ==> c in cs;
    }
  }

  ghost predicate SameSide(cs: seq<Cell>, zs: seq<bool>, ys: seq<bool>, l: real)
    requires |zs| == |cs| == |ys|
  {
    forall i :: 0 <= i < |cs| ==> zs[i] == ys[i] || (cs[i].won.0 > l && cs[i].lost.0 > l)
  }

  lemma {:induction false} KeptSame(cs: seq<Cell>, zs: seq<bool>, ys: seq<bool>, l: real)
    requires |zs| == |cs| == |ys| && SameSide(cs, zs, ys, l)
    ensures Kept(Pick(cs, zs), l) == Kept(Pick(cs, ys), l)
  {
    if cs != [] {
      KeptSame(cs[1..], zs[1..], ys[1..], l);
      KeptFront(cs, zs, l);
      KeptFront(cs, ys, l);
    }
  }

  // ------------------------------------------------------------------ the ranks of the pool's scores

  ghost function AtMost(l: real): real -> bool
  {
    (x: real) => x <= l
  }

  lemma {:induction false} CountKept(pool: Pool, l: real)
    ensures Count(Scores(pool), AtMost(l)) == |Kept(pool, l)|
  {
    if pool != [] {
      CountKept(pool[1..], l);
      assert Scores(pool)[1..] == Scores(pool[1..]) && Scores(pool)[0] == pool[0].0;
    }
  }

  lemma {:induction false} CountUpTo(s: seq<real>, r: nat, l: real)
    requires SortedBy(RealLe, s) && r < |s| && s[r] <= l
    ensures r < Count(s, AtMost(l))
  {
    assert s == s[..r + 1] + s[r + 1..];
    CountConcat(s[..r + 1], s[r + 1..], AtMost(l));
    forall x | x in s[..r + 1] ensures AtMost(l)(x) {
      var i :| 0 <= i < r + 1 && s[i] == x;
      assert i < r ==> RealLe(s[i], s[r]);
    }
    CountBound(s[..r + 1], AtMost(l));
  }

  lemma {:induction false} CountBefore(s: seq<real>, r: nat, l: real)
    requires SortedBy(RealLe, s) && r < |s| && s[r] > l
    ensures Count(s, AtMost(l)) <= r
  {
    assert s == s[..r] + s[r..];
    CountConcat(s[..r], s[r..], AtMost(l));
    forall x | x in s[r..] ensures !AtMost(l)(x) {
      var i :| r <= i < |s| && s[i] == x;
      assert i > r ==> RealLe(s[r], s[i]);
    }
    CountBound(s[r..], AtMost(l));
    CountBound(s[..r], AtMost(l));
  }

  /** The r-th smallest score of a pool. */
  ghost function RankScore(pool: Pool, r: nat): real
    requires r < |pool|
  {
    SortedLength(pool);
    Sort(RealLe, Scores(pool))[r]
  }

  lemma SortedLength(pool: Pool)
    ensures |Sort(RealLe, Scores(pool))| == |pool| && SortedBy(RealLe, Sort(RealLe, Scores(pool)))
    ensures forall x :: x in Sort(RealLe, Scores(pool)) ==> x in Scores(pool)
  {
    assert TotalPreorder(RealLe);
    SortSorts(RealLe, Scores(pool));
    SameElements(Scores(pool), Sort(RealLe, Scores(pool)));
  }

  lemma {:induction false} RankByCount(pool: Pool, r: nat, l: real)
    requires r < |pool|
    ensures RankScore(pool, r) <= l <==> r < |Kept(pool, l)|
  {
    SortedLength(pool);
    if RankScore(pool, r) <= l {
      CountUpTo(Sort(RealLe, Scores(pool)), r, l);
    } else {
      CountBefore(Sort(RealLe, Scores(pool)), r, l);
    }
    CountSort(RealLe, Scores(pool), AtMost(l));
    CountKept(pool, l);
  }

  ghost predicate RankGives(pool: Pool, size: nat, l: real, q: nat)
    requires |pool| > 0 && size > 0
  {
    q < size && RankScore(pool, QuantileIndex(|pool|, q + 1, size)) == l
  }

  /** The grid holds the scores at certain ranks, the same ranks for every pool of the size. */
  lemma GridIsRanks(pool: Pool, size: nat, l: real)
    requires |pool| > 0 && size > 0
    ensures l in Grid(pool, size) <==> exists q: nat :: RankGives(pool, size, l, q)
  {
    SortedLength(pool);
    var rs := Sort(RealLe, Scores(pool));
    SortedSetIs(Picked(rs, size));
    if l in Grid(pool, size) {
      var q: nat :| q < size && Picked(rs, size)[q] == l;
      assert RankGives(pool, size, l, q);
    }
    if q: nat :| RankGives(pool, size, l, q) {
      assert Picked(rs, size)[q] == l;
    }
  }

  // ------------------------------------------------------------------ the search as a scheme of tests

  /** How many bad scores are below x. */
  function RankOf(bad: seq<real>, x: real): (r: nat)
    ensures r <= |bad|
  {
    if bad == [] || x <= bad[0] then 0 else 1 + RankOf(bad[1..], x)
  }

  lemma {:induction false} RankOfIs(bad: seq<real>, x: real, j: nat)
    requires Increasing(bad) && j < |bad|
    ensures RankOf(bad, x) <= j <==> x <= bad[j]
  {
    if x > bad[0] && j > 0 {
      RankOfIs(bad[1..], x, j - 1);
    } else if j > 0 {
      assert bad[0] < bad[j];
    }
  }

  function Ranks(bad: seq<real>, cs: seq<Cell>): seq<nat>
  {
    seq(|cs|, i requires 0 <= i < |cs| => RankOf(bad, cs[i].lost.0))
  }

  /** No bad score up to x is on the grid. */
  ghost predicate NoneHit(bad: seq<real>, size: nat, pool: Pool, x: real)
    requires |pool| > 0 && size > 0
  {
    forall l :: l in bad && l in Grid(pool, size) ==> l > x
  }

  ghost function GoOf(bad: seq<real>, size: nat, cs: seq<Cell>): Go
    requires size > 0
  {
    (j: nat, k: nat, zs: seq<bool>) =>
      j >= |bad| || |zs| != |cs| || |cs| == 0 || NoneHit(bad, size, Pick(cs, zs), bad[j])
  }

  /** The least count whose tail is within the level. */
  ghost function NeedFrom(m: nat, p: real, level: real, c: nat): nat
    decreases m + 1 - c
  {
    if c > m || Tail(c, m, p) <= level then c else NeedFrom(m, p, level, c + 1)
  }

  lemma {:induction false} NeedIsRare(m: nat, p: real, level: real, c: nat)
    requires level >= 0.0
    ensures Tail(NeedFrom(m, p, level, c), m, p) <= level
    decreases m + 1 - c
  {
    if c <= m {
      NeedIsRare(m, p, level, c + 1);
    }
  }

  lemma {:induction false} RareIsNeeded(m: nat, p: real, level: real, c: nat, k: nat)
    requires c <= k && Tail(k, m, p) <= level
    ensures NeedFrom(m, p, level, c) <= k
    decreases m + 1 - c
  {
    if c <= m && c < k {
      RareIsNeeded(m, p, level, c + 1, k);
    }
  }

  ghost function SchemeOf(bad: seq<real>, size: nat, cs: seq<Cell>, p: real, level: real): Scheme
    requires size > 0
  {
    Scheme(Ranks(bad, cs), GoOf(bad, size, cs), |bad|, (j: nat) => NeedFrom(In(Ranks(bad, cs), j), p, level, 0))
  }

  lemma SchemeIsRare(bad: seq<real>, size: nat, cs: seq<Cell>, p: real, level: real)
    requires size > 0 && level >= 0.0
    ensures RareFrom(SchemeOf(bad, size, cs, p, level), 0, p, level, 0)
  {
    forall j: nat {
      NeedIsRare(In(Ranks(bad, cs), j), p, level, 0);
    }
  }

  ghost predicate FitCells(d: Source, bad: seq<real>, cs: seq<Cell>)
    requires bad != []
  {
    forall i :: 0 <= i < |cs| ==> IsFit(d, bad, cs[i])
  }

  lemma PickedFromItems(d: Source, bad: seq<real>, cs: seq<Cell>, zs: seq<bool>)
    requires bad != [] && FitCells(d, bad, cs) && |zs| == |cs|
    ensures DrawnFrom(d, Pick(cs, zs))
    ensures forall l :: l in Scores(Pick(cs, zs)) ==> HasScore(d.items, l)
  {
    forall x | x in Pick(cs, zs) ensures x in d.items {
      var i :| 0 <= i < |cs| && Pick(cs, zs)[i] == x;
      assert IsFit(d, bad, cs[i]);
    }
    forall l | l in Scores(Pick(cs, zs)) ensures HasScore(d.items, l) {
      var i :| 0 <= i < |cs| && Pick(cs, zs)[i].0 == l;
      assert Pick(cs, zs)[i] in Pick(cs, zs);
    }
  }

  lemma RankScoreIsScore(pool: Pool, r: nat)
    requires r < |pool|
    ensures RankScore(pool, r) in Scores(pool)
  {
    SortedLength(pool);
  }

  /** Up to a bad score more firsts keep no more, and up to a good one no fewer. */
  lemma {:induction false} FitMoves(d: Source, bad: seq<real>, cs: seq<Cell>, zs: seq<bool>, ys: seq<bool>, l: real)
    requires bad != [] && FitCells(d, bad, cs) && |zs| == |cs| && Below(zs, ys) && HasScore(d.items, l) && l <= bad[|bad| - 1]
    ensures l in bad ==> |Kept(Pick(cs, ys), l)| <= |Kept(Pick(cs, zs), l)|
    ensures l !in bad ==> |Kept(Pick(cs, zs), l)| <= |Kept(Pick(cs, ys), l)|
  {
    KeptMoves(cs, zs, ys, l);
    forall c | c in cs ensures IsFit(d, bad, c) {
      var i :| 0 <= i < |cs| && cs[i] == c;
    }
  }

  /** A rank that misses the bad scores up to x still misses them with more firsts. */
  lemma RankStaysOff(d: Source, bad: seq<real>, cs: seq<Cell>, zs: seq<bool>, ys: seq<bool>, r: nat, x: real)
    requires bad != [] && Increasing(bad) && FitCells(d, bad, cs) && |zs| == |cs| && Below(zs, ys) && r < |cs|
    requires forall l :: l in bad ==> HasScore(d.items, l)
    requires RankScore(Pick(cs, zs), r) in bad ==> RankScore(Pick(cs, zs), r) > x
    ensures RankScore(Pick(cs, ys), r) in bad ==> RankScore(Pick(cs, ys), r) > x
  {
    var now, more := Pick(cs, zs), Pick(cs, ys);
    var s, l := RankScore(now, r), RankScore(more, r);
    if l in bad && l <= x {
      LastIsTop(bad, l);
      RankByCount(more, r, l);
      FitMoves(d, bad, cs, zs, ys, l);
      RankByCount(now, r, l);
      RankByCount(now, r, s);
      RankScoreIsScore(now, r);
      PickedFromItems(d, bad, cs, zs);
      FitMoves(d, bad, cs, zs, ys, s);
      RankByCount(more, r, s);
      assert false;
    }
  }

  lemma GoIsMonotone(d: Source, bad: seq<real>, size: nat, cs: seq<Cell>, zs: seq<bool>, ys: seq<bool>, x: real)
    requires bad != [] && Increasing(bad) && FitCells(d, bad, cs) && |zs| == |cs| > 0 && Below(zs, ys) && size > 0
    requires forall l :: l in bad ==> HasScore(d.items, l)
    requires NoneHit(bad, size, Pick(cs, zs), x)
    ensures NoneHit(bad, size, Pick(cs, ys), x)
  {
    var now, more := Pick(cs, zs), Pick(cs, ys);
    forall l | l in bad && l in Grid(more, size) ensures l > x {
      GridIsRanks(more, size, l);
      var q: nat :| RankGives(more, size, l, q);
      var r := QuantileIndex(|cs|, q + 1, size);
      var s := RankScore(now, r);
      GridIsRanks(now, size, s);
      assert RankGives(now, size, s, q);
      RankStaysOff(d, bad, cs, zs, ys, r, x);
    }
  }

  lemma SchemeIsMonotone(d: Source, bad: seq<real>, size: nat, cs: seq<Cell>, p: real, level: real)
    requires bad != [] && Increasing(bad) && FitCells(d, bad, cs) && size > 0 && forall l :: l in bad ==> HasScore(d.items, l)
    ensures Monotone(SchemeOf(bad, size, cs, p, level))
  {
    var g := SchemeOf(bad, size, cs, p, level);
    forall j: nat, k: nat, m: nat, zs, ys | k <= m && |zs| == |g.ranks| && Below(zs, ys) && g.go(j, k, zs) ensures g.go(j, m, ys) {
      if j < |bad| && |cs| > 0 {
        GoIsMonotone(d, bad, size, cs, zs, ys, bad[j]);
      }
    }
  }

  /** Trials that agree on the items that can lie at or below a bad score agree on what is kept up to it. */
  lemma {:induction false} SameBelow(d: Source, bad: seq<real>, cs: seq<Cell>, zs: seq<bool>, ys: seq<bool>, j: nat, l: real)
    requires Increasing(bad) && j < |bad| && FitCells(d, bad, cs) && SameUpTo(Ranks(bad, cs), zs, ys, j) && l <= bad[j]
    ensures Kept(Pick(cs, zs), l) == Kept(Pick(cs, ys), l)
  {
    forall i | 0 <= i < |cs| ensures zs[i] == ys[i] || (cs[i].won.0 > l && cs[i].lost.0 > l) {
      RankOfIs(bad, cs[i].lost.0, j);
      assert Ranks(bad, cs)[i] == RankOf(bad, cs[i].lost.0);
      assert IsFit(d, bad, cs[i]) && bad[j] in bad;
    }
    KeptSame(cs, zs, ys, l);
  }

  lemma NoneHitSame(d: Source, bad: seq<real>, size: nat, cs: seq<Cell>, zs: seq<bool>, ys: seq<bool>, j: nat)
    requires Increasing(bad) && j < |bad| && FitCells(d, bad, cs) && SameUpTo(Ranks(bad, cs), zs, ys, j) && size > 0 && |cs| > 0
    requires NoneHit(bad, size, Pick(cs, zs), bad[j])
    ensures NoneHit(bad, size, Pick(cs, ys), bad[j])
  {
    var here, there := Pick(cs, zs), Pick(cs, ys);
    forall l | l in bad && l in Grid(there, size) ensures l > bad[j] {
      if l <= bad[j] {
        GridIsRanks(there, size, l);
        var q: nat :| RankGives(there, size, l, q);
        var r := QuantileIndex(|cs|, q + 1, size);
        SameRank(d, bad, cs, zs, ys, j, r);
        assert RankGives(here, size, l, q);
        GridIsRanks(here, size, l);
        assert false;
      }
    }
  }

  lemma SameRank(d: Source, bad: seq<real>, cs: seq<Cell>, zs: seq<bool>, ys: seq<bool>, j: nat, r: nat)
    requires Increasing(bad) && j < |bad| && FitCells(d, bad, cs) && SameUpTo(Ranks(bad, cs), zs, ys, j) && r < |cs|
    requires RankScore(Pick(cs, ys), r) <= bad[j]
    ensures RankScore(Pick(cs, zs), r) == RankScore(Pick(cs, ys), r)
  {
    var here, there := Pick(cs, zs), Pick(cs, ys);
    var l, s := RankScore(there, r), RankScore(here, r);
    SameBelow(d, bad, cs, zs, ys, j, l);
    RankByCount(there, r, l);
    RankByCount(here, r, l);
    SameBelow(d, bad, cs, zs, ys, j, s);
    RankByCount(here, r, s);
    RankByCount(there, r, s);
  }

  lemma SchemeIsLocal(d: Source, bad: seq<real>, size: nat, cs: seq<Cell>, p: real, level: real)
    requires bad != [] && Increasing(bad) && FitCells(d, bad, cs) && size > 0
    ensures Local(SchemeOf(bad, size, cs, p, level))
  {
    var g := SchemeOf(bad, size, cs, p, level);
    forall j: nat, k: nat, zs, ys | SameUpTo(g.ranks, zs, ys, j) ensures g.go(j, k, zs) == g.go(j, k, ys) {
      if j < |bad| && |cs| > 0 {
        assert SameUpTo(g.ranks, ys, zs, j);
        if NoneHit(bad, size, Pick(cs, zs), bad[j]) {
          NoneHitSame(d, bad, size, cs, zs, ys, j);
        }
        if NoneHit(bad, size, Pick(cs, ys), bad[j]) {
          NoneHitSame(d, bad, size, cs, ys, zs, j);
        }
      }
    }
  }

  // ------------------------------------------------------------------ a miss is a pass

  /** A bound that reaches p means that the observation was improbable under p. */
  lemma PassIsImprobable(k: nat, n: nat, level: real, p: real)
    requires k <= n && level > 0.0 && 0.0 < p <= 1.0 && Bound(k, n, level, ROUNDS) >= p
    ensures Tail(k, n, p) <= level
  {
    RatioRange(k, n);
    TailAtZero(k, n);
    BisectKeepsTail(k, n, level, 0.0, k as real / n as real, ROUNDS);
    TailMonotone(k, n, p, Bound(k, n, level, ROUNDS));
  }

  lemma {:induction false} MoreTrials(k: nat, n: nat, p: real, i: nat)
    requires 0.0 <= p <= 1.0
    ensures AtLeast(k + i, n + i, p) <= AtLeast(k, n, p)
    decreases i
  {
    if i > 0 {
      MoreTrials(k, n, p, i - 1);
      OneMore(k + i - 1, n + i - 1, p);
    }
  }

  lemma OneMore(k: nat, n: nat, p: real)
    requires 0.0 <= p <= 1.0
    ensures AtLeast(k + 1, n + 1, p) <= AtLeast(k, n, p)
  {
    AtLeastShrinks(k, n, p);
    var a, b, u := Condition(k + 1, n + 1, p);
    MixAtMost(p, a, b, u);
  }

  lemma MixAtMost(p: real, a: real, b: real, u: real)
    requires 0.0 <= p <= 1.0 && b <= a && u == p * a + (1.0 - p) * b
    ensures u <= a
  {
    Product(1.0 - p, a - b);
    assert (1.0 - p) * (a - b) == a - p * a - (1.0 - p) * b;
  }

  lemma {:induction false} FewerAtLeast(k: nat, l: nat, n: nat, p: real)
    requires 0.0 <= p <= 1.0 && k <= l
    ensures AtLeast(l, n, p) <= AtLeast(k, n, p)
    decreases l
  {
    if k < l {
      FewerAtLeast(k, l - 1, n, p);
      AtLeastShrinks(l - 1, n, p);
    }
  }

  /** As many further successes as further trials, or more, only make the observation less probable. */
  lemma StillImprobable(k: nat, n: nat, l: nat, m: nat, p: real, level: real)
    requires 0.0 <= p <= 1.0 && n <= m && l + n >= k + m && Tail(k, n, p) <= level
    ensures Tail(l, m, p) <= level
  {
    TailIsAtLeast(k, n, p);
    TailIsAtLeast(l, m, p);
    MoreTrials(k, n, p, m - n);
    FewerAtLeast(k + (m - n), l, m, p);
  }

  /** The group of a bad score holds all that is kept up to it, and every further trial in it is a success. */
  lemma {:induction false} GroupCounts(d: Source, bad: seq<real>, cs: seq<Cell>, zs: seq<bool>, j: nat)
    requires Increasing(bad) && j < |bad| && FitCells(d, bad, cs) && |zs| == |cs|
    ensures var kept, ranks := Kept(Pick(cs, zs), bad[j]), Ranks(bad, cs);
      |kept| <= In(ranks, j) && Ups(ranks, zs, j) + |kept| >= Trues(kept) + In(ranks, j)
  {
    if cs != [] {
      GroupCounts(d, bad, cs[1..], zs[1..], j);
      KeptFront(cs, zs, bad[j]);
      assert Ranks(bad, cs)[1..] == Ranks(bad, cs[1..]);
      RankOfIs(bad, cs[0].lost.0, j);
      LastIsTop(bad, bad[j]);
      assert IsFit(d, bad, cs[0]) && bad[j] in bad;
    }
  }

  lemma {:induction false} WinsAt(g: Scheme, i: nat, j: nat, k: nat, zs: seq<bool>)
    requires i <= j < g.stages && (forall n: nat :: i <= n < j ==> g.go(n, k, zs)) && !g.go(j, k, zs)
    requires k + Ups(g.ranks, zs, j) >= g.need(j)
    ensures Wins(g, i, k, zs)
    decreases j - i
  {
    if i < j {
      WinsAt(g, i + 1, j, k, zs);
    }
  }

  lemma IndexOf(s: seq<real>, l: real) returns (j: nat)
    requires l in s
    ensures j < |s| && s[j] == l
  {
    j :| j < |s| && s[j] == l;
  }

  /** A miss passes at the first bad score that the grid hits. */
  lemma FirstHit(d: Source, bad: seq<real>, size: nat, pool: Pool, p: real, level: real) returns (j: nat)
    requires IsSource(d) && size > 0 && bad == BadScores(d, p) && |pool| > 0 && SequenceMisses(d, size, p, level)(pool)
    requires forall l :: l in Scores(pool) ==> HasScore(d.items, l)
    ensures j < |bad| && BoundAt(pool, bad[j], level) >= p && !NoneHit(bad, size, pool, bad[j])
    ensures forall n: nat :: n < j ==> NoneHit(bad, size, pool, bad[n])
  {
    var truth, grid := TrueShare(d), Grid(pool, size);
    BadScoresAre(d, p);
    GridEndsAtMaximum(pool, size);
    var i := FixedSequenceErrsAtFirstBad(pool, truth, grid, p, level);
    assert grid[i] in grid;
    j := IndexOf(bad, grid[i]);
    forall n: nat | n < j ensures NoneHit(bad, size, pool, bad[n]) {
      assert bad[n] < bad[j];
      forall l | l in bad && l in grid ensures l > bad[n] {
        var e := IndexOf(grid, l);
        assert truth(l) < p;
        assert e > i ==> grid[i] < grid[e];
      }
    }
  }

  /** Where the search misses the target, the scheme passes. */
  lemma {:induction false} MissWins(d: Source, bad: seq<real>, size: nat, cs: seq<Cell>, p: real, level: real, zs: seq<bool>)
    requires IsSource(d) && 0.0 < p <= 1.0 && level > 0.0 && size > 0 && bad == BadScores(d, p) && bad != []
    requires FitCells(d, bad, cs) && |zs| == |cs| && SequenceMisses(d, size, p, level)(Pick(cs, zs))
    ensures Wins(SchemeOf(bad, size, cs, p, level), 0, 0, zs)
  {
    BadScoresAre(d, p);
    PickedFromItems(d, bad, cs, zs);
    var j := FirstHit(d, bad, size, Pick(cs, zs), p, level);
    PassCounts(d, bad, size, cs, p, level, zs, j);
    WinsAt(SchemeOf(bad, size, cs, p, level), 0, j, 0, zs);
  }

  lemma {:induction false} PassCounts(d: Source, bad: seq<real>, size: nat, cs: seq<Cell>, p: real, level: real, zs: seq<bool>, j: nat)
    requires 0.0 < p <= 1.0 && level > 0.0 && size > 0 && Increasing(bad) && j < |bad|
    requires FitCells(d, bad, cs) && |zs| == |cs| && BoundAt(Pick(cs, zs), bad[j], level) >= p
    ensures Ups(Ranks(bad, cs), zs, j) >= SchemeOf(bad, size, cs, p, level).need(j)
  {
    var kept, ranks := Kept(Pick(cs, zs), bad[j]), Ranks(bad, cs);
    PassIsImprobable(Trues(kept), |kept|, level, p);
    GroupCounts(d, bad, cs, zs, j);
    StillImprobable(Trues(kept), |kept|, Ups(ranks, zs, j), In(ranks, j), p, level);
    RareIsNeeded(In(ranks, j), p, level, 0, Ups(ranks, zs, j));
  }

  lemma {:induction false} NoGroup(p: real, r: nat, e: Value)
    ensures Group(p, 0, r, e) == Flips(p, r, 0, [], e)
  {
    var w := Weighted(PmfOf(0, p), FlipsOf(p, r, e));
    assert Pmf(0, 0, p) == 1.0;
    assert w(0) == 1.0 * Flips(p, r, 0, [], e) && Sum(w, 1, 0) == 0.0;
  }

  lemma ChoicesRarelyMiss(d: Source, bad: seq<real>, size: nat, n: nat, p: real, level: real)
    requires IsSource(d) && 0.0 < p <= 1.0 && level > 0.0 && size > 0 && bad == BadScores(d, p) && bad != []
    ensures ChoicesBounded(p, n, Fit(d, bad), SequenceMisses(d, size, p, level), level)
  {
    var e := SequenceMisses(d, size, p, level);
    BadScoresAre(d, p);
    forall cs: seq<Cell> | AllFit(cs, Fit(d, bad)) && |cs| == n ensures Flips(p, n, 0, [], EventValue(cs, e)) <= level {
      var g := SchemeOf(bad, size, cs, p, level);
      forall ys: seq<bool> | |ys| == n ensures EventValue(cs, e)(0, ys) <= WinValue(g, 0)(0, ys) {
        if e(Pick(cs, ys)) {
          MissWins(d, bad, size, cs, p, level, ys);
        }
      }
      FlipsMonotone(p, n, 0, [], EventValue(cs, e), WinValue(g, 0), n);
      NoGroup(p, n, WinValue(g, 0));
      SchemeIsMonotone(d, bad, size, cs, p, level);
      SchemeIsLocal(d, bad, size, cs, p, level);
      SchemeIsRare(bad, size, cs, p, level);
      SchemeBound(p, level, g, 0, 0);
    }
  }

  // ------------------------------------------------------------------ the guarantee

  lemma {:induction false} ChanceAtMostOne(d: Source, n: nat, pool: Pool, e: Sampling.Event)
    requires IsSource(d)
    ensures Chance(d, n, pool, e) <= 1.0
    decreases n, |d.q| + 1
  {
    if n > 0 {
      OverAtMostTotal(d, |d.q|, n, pool, e);
      assert d.q[..|d.q|] == d.q;
    }
  }

  lemma {:induction false} OverAtMostTotal(d: Source, k: nat, n: nat, pool: Pool, e: Sampling.Event)
    requires IsSource(d) && k <= |d.q| && n > 0
    ensures ChanceOver(d, k, n, pool, e) <= Total(d.q[..k])
    decreases n, k
  {
    if k > 0 {
      OverAtMostTotal(d, k - 1, n, pool, e);
      ChanceAtMostOne(d, n - 1, pool + [d.items[k - 1]], e);
      TimesLe(d.q[k - 1], Chance(d, n - 1, pool + [d.items[k - 1]], e), 1.0);
      assert d.q[..k][..k - 1] == d.q[..k - 1];
    } else {
      assert |d.q[..0]| == 0;
    }
  }

  /** No pool misses a target of at most 0, a target above what a bound can reach, or one no score falls short of. */
  lemma NoMiss(d: Source, pool: Pool, size: nat, target: real, level: real)
    requires IsSource(d) && 0.0 < level < 1.0 && size > 0 && DrawnFrom(d, pool)
    requires target <= 0.0 || target >= 1.0 || BadScores(d, target) == []
    ensures !SequenceMisses(d, size, target, level)(pool)
  {
    if SequenceMisses(d, size, target, level)(pool) {
      var grid := Grid(pool, size);
      var i := FixedSequenceErrsAtFirstBad(pool, TrueShare(d), grid, target, level);
      var l := grid[i];
      SourceSplits(d, l);
      ShareOfKept(SplitOf(d, l));
      assert target > 0.0;
      if target >= 1.0 {
        ReachesNoOne(Trues(Kept(pool, l)), |Kept(pool, l)|, level, target);
      } else {
        assert l in grid;
        GridEndsAtMaximum(pool, size);
        var j: nat :| j < |pool| && Scores(pool)[j] == l;
        assert pool[j] in pool;
        BadScoresAre(d, target);
        assert HasScore(d.items, l);
      }
    }
  }

  /** A bound stays below 1 when the level does. */
  lemma ReachesNoOne(k: nat, n: nat, level: real, target: real)
    requires k <= n && 0.0 < level < 1.0 && target >= 1.0
    ensures Bound(k, n, level, ROUNDS) < target
  {
    if Bound(k, n, level, ROUNDS) >= target {
      PassIsImprobable(k, n, level, 1.0);
      TailAtOne(k, n);
    }
  }

  /**
    * The guarantee of the default search, with nothing assumed but independent draws: the chance that it
    * settles on a threshold whose true precision misses the target is at most its level, although the
    * thresholds it tries are quantiles of the same pool.
    */
  lemma {:induction false} FixedSequenceErrsRarely(d: Source, n: nat, gridSize: nat, target: real, level: real)
    requires IsSource(d) && gridSize > 0 && level > 0.0
    ensures Chance(d, n, [], SequenceMisses(d, gridSize, target, level)) <= level
  {
    var e, bad := SequenceMisses(d, gridSize, target, level), BadScores(d, target);
    if level >= 1.0 {
      ChanceAtMostOne(d, n, [], e);
    } else if 0.0 < target < 1.0 && bad != [] {
      var cells := FairCells(d, target, bad);
      ChoicesRarelyMiss(d, bad, gridSize, n, target, level);
      ChanceBoundByChoices(d, target, cells, n, e, Fit(d, bad), level);
    } else {
      var never: Sampling.Event := (x: Pool) => false;
      forall x: Pool | DrawnFrom(d, x) ensures !e(x) {
        NoMiss(d, x, gridSize, target, level);
      }
      ChanceMonotone(d, n, [], e, never);
      ChanceOfNothing(d, n, [], never);
    }
  }
}
