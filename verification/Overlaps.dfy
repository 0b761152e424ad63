/**
  * Two ways of cutting the unit interval into as many pieces as there are items. Where a piece of the
  * one meets a piece of the other there is a cell, as likely as their overlap is long.
  */
module Overlaps {
  import ClopperPearson
  import opened Precision
  import opened Sampling
  import opened MonotoneStopping
  import opened Coupling

  /** `won(i)` and `lost(i)` are where the two cuttings begin piece i. */
  datatype Cuts = Cuts(won: nat -> real, lost: nat -> real)

  type Weighed = seq<(Item, real)>

  ghost predicate StepsUp(f: nat -> real, i: nat)
  {
    f(i) <= f(i + 1)
  }

  ghost predicate IsCut(f: nat -> real, n: nat)
  {
    f(0) == 0.0 && f(n) == 1.0 && forall i: nat :: i < n ==> StepsUp(f, i)
  }

  lemma {:induction false} CutRises(f: nat -> real, n: nat, i: nat, j: nat)
    requires IsCut(f, n) && i <= j <= n
    ensures f(i) <= f(j)
    decreases j - i
  {
    if i < j {
      CutRises(f, n, i, j - 1);
      assert StepsUp(f, j - 1);
    }
  }

  ghost predicate MassAt(c: Cuts, p: real, xs: Weighed, i: nat)
    requires i < |xs|
  {
    p * (c.won(i + 1) - c.won(i)) + (1.0 - p) * (c.lost(i + 1) - c.lost(i)) == xs[i].1
  }

  /** Together the two pieces of an item make up its probability. */
  ghost predicate Fits(c: Cuts, p: real, xs: Weighed)
  {
    IsCut(c.won, |xs|) && IsCut(c.lost, |xs|) && forall i: nat :: i < |xs| ==> MassAt(c, p, xs, i)
  }

  ghost function Overlap(a: real, b: real, c: real, d: real): real
  {
    var lo, hi := if a >= c then a else c, if b <= d then b else d;
    if lo <= hi then hi - lo else 0.0
  }

  lemma OverlapAdds(a: real, b: real, c: real, d: real, e: real)
    requires a <= b && c <= d <= e
    ensures Overlap(a, b, c, d) + Overlap(a, b, d, e) == Overlap(a, b, c, e)
  {
  }

  lemma OverlapTurned(a: real, b: real, c: real, d: real)
    ensures Overlap(a, b, c, d) == Overlap(c, d, a, b)
  {
  }

  lemma OverlapInside(a: real, b: real)
    requires 0.0 <= a <= b <= 1.0
    ensures Overlap(a, b, 0.0, 1.0) == b - a && Overlap(a, b, 0.0, 0.0) == 0.0
  {
  }

  ghost function Piece(c: Cuts, i: nat, j: nat): real
  {
    Overlap(c.won(i), c.won(i + 1), c.lost(j), c.lost(j + 1))
  }

  ghost function Row(c: Cuts, xs: Weighed, i: nat, k: nat): Cells
    requires i < |xs| && k <= |xs|
  {
    if k == 0 then [] else Row(c, xs, i, k - 1) + [(Cell(xs[i].0, xs[k - 1].0), Piece(c, i, k - 1))]
  }

  ghost function Rows(c: Cuts, xs: Weighed, k: nat): Cells
    requires k <= |xs|
  {
    if k == 0 then [] else Rows(c, xs, k - 1) + Row(c, xs, k - 1, |xs|)
  }

  // ------------------------------------------------------------------ means over the cells

  lemma {:induction false} MeanOfPrefix(p: real, a: Cells, b: Cells, k: nat, g: Item -> real)
    requires k <= |a|
    ensures CellMean(p, a + b, k, g) == CellMean(p, a, k, g)
  {
    if k > 0 {
      MeanOfPrefix(p, a, b, k - 1, g);
    }
  }

  lemma {:induction false} MeanOfBoth(p: real, a: Cells, b: Cells, k: nat, g: Item -> real)
    requires k <= |b|
    ensures CellMean(p, a + b, |a| + k, g) == CellMean(p, a, |a|, g) + CellMean(p, b, k, g)
  {
    if k > 0 {
      MeanOfBoth(p, a, b, k - 1, g);
      assert (a + b)[|a| + k - 1] == b[k - 1];
    } else {
      MeanOfPrefix(p, a, b, |a|, g);
    }
  }

  ghost function RowTail(c: Cuts, xs: Weighed, i: nat, k: nat, g: Item -> real): real
    requires k <= |xs|
  {
    if k == 0 then 0.0 else RowTail(c, xs, i, k - 1, g) + Piece(c, i, k - 1) * g(xs[k - 1].0)
  }

  lemma BlendMore(p: real, q: real, r: real, t: real, x: real, w: real, y: real, z: real, r': real, t': real, mean: real, mean': real)
    requires q == 1.0 - p && z == Blend(p, x, y) && r' == r + w && t' == t + w * y
    requires mean == p * (r * x) + q * t && mean' == mean + w * z
    ensures mean' == p * (r' * x) + q * t'
  {
    SwapFactors(w, p, q, x, y);
    ClopperPearson.Distribute(p, r * x, w * x);
    ClopperPearson.Distribute(q, t, w * y);
    ClopperPearson.Distribute(x, r, w);
  }

  /** How far a row reaches after its first k pieces. */
  ghost function Reach(c: Cuts, i: nat, k: nat): real
  {
    Overlap(c.won(i), c.won(i + 1), 0.0, c.lost(k))
  }

  lemma ReachGrows(c: Cuts, n: nat, i: nat, j: nat)
    requires IsCut(c.won, n) && IsCut(c.lost, n) && i < n && j < n
    ensures Reach(c, i, j + 1) == Reach(c, i, j) + Piece(c, i, j)
  {
    CutRises(c.won, n, i, i + 1);
    CutRises(c.lost, n, 0, j);
    CutRises(c.lost, n, j, j + 1);
    OverlapAdds(c.won(i), c.won(i + 1), 0.0, c.lost(j), c.lost(j + 1));
  }

  lemma NoReach(c: Cuts, n: nat, i: nat)
    requires IsCut(c.won, n) && IsCut(c.lost, n) && i < n
    ensures Reach(c, i, 0) == 0.0 && Reach(c, i, n) == c.won(i + 1) - c.won(i)
  {
    CutRises(c.won, n, 0, i);
    CutRises(c.won, n, i, i + 1);
    CutRises(c.won, n, i + 1, n);
    OverlapInside(c.won(i), c.won(i + 1));
  }

  lemma RowStep(p: real, c: Cuts, xs: Weighed, i: nat, j: nat, g: Item -> real, mean: real, mean': real, w: real, z: real)
    requires i < |xs| && j < |xs| && |Row(c, xs, i, j)| == j
    requires mean == CellMean(p, Row(c, xs, i, j), j, g) && mean' == CellMean(p, Row(c, xs, i, j + 1), j + 1, g)
    requires w == Piece(c, i, j) && z == Blend(p, g(xs[i].0), g(xs[j].0))
    ensures mean' == mean + w * z
  {
    MeanOfPrefix(p, Row(c, xs, i, j), [(Cell(xs[i].0, xs[j].0), Piece(c, i, j))], j, g);
  }

  lemma TailStep(c: Cuts, xs: Weighed, i: nat, j: nat, g: Item -> real, t: real, t': real, w: real, y: real)
    requires j < |xs| && w == Piece(c, i, j) && y == g(xs[j].0)
    requires t == RowTail(c, xs, i, j, g) && t' == RowTail(c, xs, i, j + 1, g)
    ensures t' == t + w * y
  {
  }

  lemma {:induction false} RowLength(c: Cuts, xs: Weighed, i: nat, k: nat)
    requires i < |xs| && k <= |xs|
    ensures |Row(c, xs, i, k)| == k
  {
    if k > 0 {
      RowLength(c, xs, i, k - 1);
    }
  }

  lemma {:induction false} RowMean(p: real, q: real, c: Cuts, xs: Weighed, i: nat, k: nat, g: Item -> real,
                                   mean: real, r: real, x: real, t: real)
    requires q == 1.0 - p && IsCut(c.won, |xs|) && IsCut(c.lost, |xs|) && i < |xs| && k <= |xs| && |Row(c, xs, i, k)| == k
    requires mean == CellMean(p, Row(c, xs, i, k), k, g) && r == Reach(c, i, k) && x == g(xs[i].0) && t == RowTail(c, xs, i, k, g)
    ensures mean == p * (r * x) + q * t
    decreases k
  {
    if k > 0 {
      var j: nat := k - 1;
      RowLength(c, xs, i, j);
      var prev, s, u := CellMean(p, Row(c, xs, i, j), j, g), Reach(c, i, j), RowTail(c, xs, i, j, g);
      var w, y := Piece(c, i, j), g(xs[j].0);
      var z := Blend(p, x, y);
      RowMean(p, q, c, xs, i, j, g, prev, s, x, u);
      RowStep(p, c, xs, i, j, g, prev, mean, w, z);
      TailStep(c, xs, i, j, g, u, t, w, y);
      ReachGrows(c, |xs|, i, j);
      BlendMore(p, q, s, u, x, w, y, z, r, t, prev, mean);
    } else {
      NoReach(c, |xs|, i);
      ZeroTimes(x);
      ZeroTimes(p);
      ZeroTimes(q);
    }
  }

  /** What the first `i` rows have put on item j by its second choice. */
  ghost function Column(c: Cuts, i: nat, j: nat): real
  {
    Overlap(0.0, c.won(i), c.lost(j), c.lost(j + 1))
  }

  ghost function Columns(c: Cuts, xs: Weighed, i: nat, k: nat, g: Item -> real): real
    requires k <= |xs|
  {
    if k == 0 then 0.0 else Columns(c, xs, i, k - 1, g) + Column(c, i, k - 1) * g(xs[k - 1].0)
  }

  lemma ColumnGrows(c: Cuts, xs: Weighed, i: nat, j: nat)
    requires IsCut(c.won, |xs|) && IsCut(c.lost, |xs|) && i < |xs| && j < |xs|
    ensures Column(c, i + 1, j) == Column(c, i, j) + Piece(c, i, j)
  {
    CutRises(c.won, |xs|, 0, i);
    CutRises(c.won, |xs|, i, i + 1);
    CutRises(c.lost, |xs|, j, j + 1);
    OverlapAdds(c.lost(j), c.lost(j + 1), 0.0, c.won(i), c.won(i + 1));
    OverlapTurned(c.lost(j), c.lost(j + 1), 0.0, c.won(i));
    OverlapTurned(c.lost(j), c.lost(j + 1), 0.0, c.won(i + 1));
    OverlapTurned(c.lost(j), c.lost(j + 1), c.won(i), c.won(i + 1));
  }

  lemma ColumnsStep(c: Cuts, xs: Weighed, i: nat, j: nat, g: Item -> real, t: real, t': real, w: real, y: real)
    requires j < |xs| && w == Column(c, i, j) && y == g(xs[j].0)
    requires t == Columns(c, xs, i, j, g) && t' == Columns(c, xs, i, j + 1, g)
    ensures t' == t + w * y
  {
  }

  lemma SumTerms(a: real, a': real, b: real, b': real, c: real, c': real, u: real, v: real, w: real, x: real)
    requires w == u + v && c == a + b && a' == a + u * x && b' == b + v * x && c' == c + w * x
    ensures c' == a' + b'
  {
    ClopperPearson.Distribute(x, u, v);
  }

  lemma {:induction false} ColumnsGrow(c: Cuts, xs: Weighed, i: nat, k: nat, g: Item -> real)
    requires IsCut(c.won, |xs|) && IsCut(c.lost, |xs|) && i < |xs| && k <= |xs|
    ensures Columns(c, xs, i + 1, k, g) == Columns(c, xs, i, k, g) + RowTail(c, xs, i, k, g)
  {
    if k > 0 {
      var j: nat := k - 1;
      ColumnsGrow(c, xs, i, j, g);
      ColumnGrows(c, xs, i, j);
      var t, u, v := Columns(c, xs, i, j, g), RowTail(c, xs, i, j, g), Columns(c, xs, i + 1, j, g);
      var t', u', v' := Columns(c, xs, i, k, g), RowTail(c, xs, i, k, g), Columns(c, xs, i + 1, k, g);
      var a, b, w, y := Column(c, i, j), Piece(c, i, j), Column(c, i + 1, j), g(xs[j].0);
      ColumnsStep(c, xs, i, j, g, t, t', a, y);
      TailStep(c, xs, i, j, g, u, u', b, y);
      ColumnsStep(c, xs, i + 1, j, g, v, v', w, y);
      SumTerms(t, t', u, u', v, v', a, b, w, y);
    }
  }

  /** The first choices of the first `k` rows. */
  ghost function Heads(c: Cuts, xs: Weighed, k: nat, g: Item -> real): real
    requires k <= |xs|
  {
    if k == 0 then 0.0 else Heads(c, xs, k - 1, g) + (c.won(k) - c.won(k - 1)) * g(xs[k - 1].0)
  }

  lemma HeadsStep(c: Cuts, xs: Weighed, i: nat, g: Item -> real, h: real, h': real, r: real, x: real)
    requires i < |xs| && r == c.won(i + 1) - c.won(i) && x == g(xs[i].0)
    requires h == Heads(c, xs, i, g) && h' == Heads(c, xs, i + 1, g)
    ensures h' == h + r * x
  {
  }

  lemma AddRow(p: real, q: real, mean: real, h: real, t: real, row: real, r: real, x: real, u: real, mean': real, h': real, t': real)
    requires mean == p * h + q * t && row == p * (r * x) + q * u
    requires mean' == mean + row && h' == h + r * x && t' == t + u
    ensures mean' == p * h' + q * t'
  {
    ClopperPearson.Distribute(p, h, r * x);
    ClopperPearson.Distribute(q, t, u);
  }

  lemma RowsStep(p: real, c: Cuts, xs: Weighed, i: nat, g: Item -> real, mean: real, mean': real, row: real)
    requires i < |xs| && |Row(c, xs, i, |xs|)| == |xs|
    requires mean == CellMean(p, Rows(c, xs, i), |Rows(c, xs, i)|, g)
    requires mean' == CellMean(p, Rows(c, xs, i + 1), |Rows(c, xs, i + 1)|, g)
    requires row == CellMean(p, Row(c, xs, i, |xs|), |xs|, g)
    ensures mean' == mean + row
  {
    MeanOfBoth(p, Rows(c, xs, i), Row(c, xs, i, |xs|), |xs|, g);
  }

  lemma {:induction false} RowsMean(p: real, q: real, c: Cuts, xs: Weighed, k: nat, g: Item -> real, mean: real, h: real, t: real)
    requires q == 1.0 - p && IsCut(c.won, |xs|) && IsCut(c.lost, |xs|) && k <= |xs|
    requires mean == CellMean(p, Rows(c, xs, k), |Rows(c, xs, k)|, g) && h == Heads(c, xs, k, g) && t == Columns(c, xs, k, |xs|, g)
    ensures mean == p * h + q * t
    decreases k
  {
    var n := |xs|;
    if k > 0 {
      var i: nat := k - 1;
      RowLength(c, xs, i, n);
      var mean0, h0, t0 := CellMean(p, Rows(c, xs, i), |Rows(c, xs, i)|, g), Heads(c, xs, i, g), Columns(c, xs, i, n, g);
      var row, r, x, u := CellMean(p, Row(c, xs, i, n), n, g), Reach(c, i, n), g(xs[i].0), RowTail(c, xs, i, n, g);
      RowsMean(p, q, c, xs, i, g, mean0, h0, t0);
      RowMean(p, q, c, xs, i, n, g, row, r, x, u);
      RowsStep(p, c, xs, i, g, mean0, mean, row);
      NoReach(c, n, i);
      ColumnsGrow(c, xs, i, n, g);
      HeadsStep(c, xs, i, g, h0, h, r, x);
      AddRow(p, q, mean0, h0, t0, row, r, x, u, mean, h, t);
    } else {
      NoColumns(c, xs, n, g);
      ZeroTimes(p);
      ZeroTimes(q);
    }
  }

  lemma {:induction false} NoColumns(c: Cuts, xs: Weighed, k: nat, g: Item -> real)
    requires IsCut(c.won, |xs|) && IsCut(c.lost, |xs|) && k <= |xs|
    ensures Columns(c, xs, 0, k, g) == 0.0
  {
    if k > 0 {
      NoColumns(c, xs, k - 1, g);
      CutRises(c.lost, |xs|, 0, k - 1);
      assert Column(c, 0, k - 1) == 0.0;
      ZeroTimes(g(xs[k - 1].0));
    }
  }

  ghost function ListMean(xs: Weighed, k: nat, g: Item -> real): real
    requires k <= |xs|
  {
    if k == 0 then 0.0 else ListMean(xs, k - 1, g) + xs[k - 1].1 * g(xs[k - 1].0)
  }

  lemma ListStep(xs: Weighed, i: nat, g: Item -> real, l: real, l': real, m: real, x: real)
    requires i < |xs| && m == xs[i].1 && x == g(xs[i].0) && l == ListMean(xs, i, g) && l' == ListMean(xs, i + 1, g)
    ensures l' == l + m * x
  {
  }

  lemma FullColumn(c: Cuts, n: nat, j: nat)
    requires IsCut(c.won, n) && IsCut(c.lost, n) && j < n
    ensures Column(c, n, j) == c.lost(j + 1) - c.lost(j)
  {
    CutRises(c.lost, n, 0, j);
    CutRises(c.lost, n, j, j + 1);
    CutRises(c.lost, n, j + 1, n);
    OverlapTurned(0.0, 1.0, c.lost(j), c.lost(j + 1));
    OverlapInside(c.lost(j), c.lost(j + 1));
  }

  lemma {:induction false} HeadsAndColumns(p: real, q: real, c: Cuts, xs: Weighed, k: nat, g: Item -> real, h: real, t: real, l: real)
    requires q == 1.0 - p && Fits(c, p, xs) && k <= |xs|
    requires h == Heads(c, xs, k, g) && t == Columns(c, xs, |xs|, k, g) && l == ListMean(xs, k, g)
    ensures p * h + q * t == l
    decreases k
  {
    if k > 0 {
      var i, n: nat := k - 1, |xs|;
      var h0, t0, l0 := Heads(c, xs, i, g), Columns(c, xs, n, i, g), ListMean(xs, i, g);
      var a, b, m, x := c.won(i + 1) - c.won(i), c.lost(i + 1) - c.lost(i), xs[i].1, g(xs[i].0);
      HeadsAndColumns(p, q, c, xs, i, g, h0, t0, l0);
      MassIs(c, p, q, xs, i, a, b, m);
      FullColumn(c, n, i);
      HeadsStep(c, xs, i, g, h0, h, a, x);
      ColumnsStep(c, xs, n, i, g, t0, t, b, x);
      ListStep(xs, i, g, l0, l, m, x);
      MassTimes(p, q, a, b, m, x, h0, t0, l0, h, t, l);
    } else {
      ZeroTimes(p);
      ZeroTimes(q);
    }
  }

  lemma MassIs(c: Cuts, p: real, q: real, xs: Weighed, i: nat, a: real, b: real, m: real)
    requires Fits(c, p, xs) && q == 1.0 - p && i < |xs|
    requires a == c.won(i + 1) - c.won(i) && b == c.lost(i + 1) - c.lost(i) && m == xs[i].1
    ensures p * a + q * b == m
  {
    assert MassAt(c, p, xs, i);
  }

  lemma MassTimes(p: real, q: real, a: real, b: real, m: real, x: real, h: real, t: real, l: real, h': real, t': real, l': real)
    requires p * a + q * b == m && p * h + q * t == l
    requires h' == h + a * x && t' == t + b * x && l' == l + m * x
    ensures p * h' + q * t' == l'
  {
    ClopperPearson.Distribute(p, h, a * x);
    ClopperPearson.Distribute(q, t, b * x);
    Factored(p, q, a, b, x);
  }

  lemma Factored(p: real, q: real, a: real, b: real, x: real)
    ensures p * (a * x) + q * (b * x) == (p * a + q * b) * x
  {
  }

  /** Drawing an overlap and then one of its two items draws every item with its own probability. */
  lemma {:induction false} OverlapsCouple(p: real, c: Cuts, xs: Weighed, g: Item -> real)
    requires Fits(c, p, xs)
    ensures var cells := Rows(c, xs, |xs|);
      CellMean(p, cells, |cells|, g) == ListMean(xs, |xs|, g)
  {
    var q, cells, n := 1.0 - p, Rows(c, xs, |xs|), |xs|;
    var mean, h, t, l := CellMean(p, cells, |cells|, g), Heads(c, xs, n, g), Columns(c, xs, n, n, g), ListMean(xs, n, g);
    RowsMean(p, q, c, xs, n, g, mean, h, t);
    HeadsAndColumns(p, q, c, xs, n, g, h, t, l);
  }
}
