/**
  * Another way to draw an item: first a cell, a pair of items, and then, with a probability that is the
  * same for all cells, one of the two. What a whole pool comes to is the same, but the second choices
  * can be left to the end (the independence argument for the search in src/pccf.py).
  */
module Coupling {
  import ClopperPearson
  import opened Precision
  import opened Sampling
  import opened MonotoneStopping

  type Item = (real, bool)

  /** `won` is drawn with probability p, `lost` otherwise. */
  datatype Cell = Cell(won: Item, lost: Item)

  type Cells = seq<(Cell, real)>

  ghost function ItemMean(d: Source, k: nat, g: Item -> real): real
    requires |d.items| == |d.q| && k <= |d.q|
  {
    if k == 0 then 0.0 else ItemMean(d, k - 1, g) + d.q[k - 1] * g(d.items[k - 1])
  }

  ghost function CellMean(p: real, cells: Cells, k: nat, g: Item -> real): real
    requires k <= |cells|
  {
    if k == 0 then 0.0
    else CellMean(p, cells, k - 1, g) + cells[k - 1].1 * Blend(p, g(cells[k - 1].0.won), g(cells[k - 1].0.lost))
  }

  /** Drawing by cells draws every item with its own probability. */
  ghost predicate Couples(d: Source, p: real, cells: Cells)
    requires |d.items| == |d.q|
  {
    forall g: Item -> real :: CellMean(p, cells, |cells|, g) == ItemMean(d, |d.q|, g)
  }

  /** The pool that `zs` picks from the cells. */
  function Pick(cs: seq<Cell>, zs: seq<bool>): Pool
    requires |zs| == |cs|
  {
    seq(|cs|, i requires 0 <= i < |cs| => if zs[i] then cs[i].won else cs[i].lost)
  }

  ghost function EventValue(cs: seq<Cell>, e: Event): Value
  {
    (k: nat, zs: seq<bool>) => if |zs| == |cs| && e(Pick(cs, zs)) then 1.0 else 0.0
  }

  /** The chance of the event after `n` more cells, and then the choices that `zs` leaves open. */
  ghost function CellsFirst(p: real, cells: Cells, n: nat, cs: seq<Cell>, zs: seq<bool>, e: Event): real
    requires |zs| <= |cs|
    decreases n, |cells| + 1
  {
    if n == 0 then Flips(p, |cs| - |zs|, 0, zs, EventValue(cs, e)) else CellsOver(p, cells, |cells|, n, cs, zs, e)
  }

  ghost function CellsOver(p: real, cells: Cells, k: nat, n: nat, cs: seq<Cell>, zs: seq<bool>, e: Event): real
    requires |zs| <= |cs| && k <= |cells| && n > 0
    decreases n, k
  {
    if k == 0 then 0.0
    else CellsOver(p, cells, k - 1, n, cs, zs, e) + cells[k - 1].1 * CellsFirst(p, cells, n - 1, cs + [cells[k - 1].0], zs, e)
  }

  // ------------------------------------------------------------------ the order of choices does not matter

  lemma BlendAdds(p: real, x0: real, y0: real, z0: real, w: real, x1: real, y1: real, z1: real, x: real, y: real, z: real)
    requires x0 == Blend(p, y0, z0) && x1 == Blend(p, y1, z1)
    requires x == x0 + w * x1 && y == y0 + w * y1 && z == z0 + w * z1
    ensures x == Blend(p, y, z)
  {
    var q := 1.0 - p;
    SwapFactors(w, p, q, y1, z1);
    ClopperPearson.Distribute(p, y0, w * y1);
    ClopperPearson.Distribute(q, z0, w * z1);
  }

  /** The next open choice can be made before the remaining cells are drawn. */
  lemma {:induction false} ChoiceFirst(p: real, cells: Cells, n: nat, cs: seq<Cell>, zs: seq<bool>, e: Event)
    requires |zs| < |cs|
    ensures CellsFirst(p, cells, n, cs, zs, e)
         == Blend(p, CellsFirst(p, cells, n, cs, zs + [true], e), CellsFirst(p, cells, n, cs, zs + [false], e))
    decreases n, |cells| + 1
  {
    if n > 0 {
      ChoiceFirstOver(p, cells, |cells|, n, cs, zs, e);
    }
  }

  lemma OverStep(p: real, cells: Cells, k: nat, n: nat, cs: seq<Cell>, zs: seq<bool>, e: Event,
                 whole: real, prev: real, w: real, next: real)
    requires |zs| <= |cs| && 0 < k <= |cells| && n > 0
    requires whole == CellsOver(p, cells, k, n, cs, zs, e) && prev == CellsOver(p, cells, k - 1, n, cs, zs, e)
    requires w == cells[k - 1].1 && next == CellsFirst(p, cells, n - 1, cs + [cells[k - 1].0], zs, e)
    ensures whole == prev + w * next
  {
  }

  lemma {:induction false} ChoiceFirstOver(p: real, cells: Cells, k: nat, n: nat, cs: seq<Cell>, zs: seq<bool>, e: Event)
    requires |zs| < |cs| && k <= |cells| && n > 0
    ensures CellsOver(p, cells, k, n, cs, zs, e)
         == Blend(p, CellsOver(p, cells, k, n, cs, zs + [true], e), CellsOver(p, cells, k, n, cs, zs + [false], e))
    decreases n, k
  {
    var ys, ws := zs + [true], zs + [false];
    if k == 0 {
      BlendSame(p, 0.0);
    } else {
      var c, w := cells[k - 1].0, cells[k - 1].1;
      ChoiceFirstOver(p, cells, k - 1, n, cs, zs, e);
      ChoiceFirst(p, cells, n - 1, cs + [c], zs, e);
      var x, y, z := CellsOver(p, cells, k, n, cs, zs, e), CellsOver(p, cells, k, n, cs, ys, e), CellsOver(p, cells, k, n, cs, ws, e);
      var x0, y0, z0 := CellsOver(p, cells, k - 1, n, cs, zs, e), CellsOver(p, cells, k - 1, n, cs, ys, e),
                        CellsOver(p, cells, k - 1, n, cs, ws, e);
      var x1, y1, z1 := CellsFirst(p, cells, n - 1, cs + [c], zs, e), CellsFirst(p, cells, n - 1, cs + [c], ys, e),
                        CellsFirst(p, cells, n - 1, cs + [c], ws, e);
      OverStep(p, cells, k, n, cs, zs, e, x, x0, w, x1);
      OverStep(p, cells, k, n, cs, ys, e, y, y0, w, y1);
      OverStep(p, cells, k, n, cs, ws, e, z, z0, w, z1);
      BlendAdds(p, x0, y0, z0, w, x1, y1, z1, x, y, z);
    }
  }

  lemma PickMore(cs: seq<Cell>, zs: seq<bool>, c: Cell, y: bool)
    requires |zs| == |cs|
    ensures Pick(cs + [c], zs + [y]) == Pick(cs, zs) + [if y then c.won else c.lost]
  {
  }

  ghost function NextChance(d: Source, n: nat, pool: Pool, e: Event): Item -> real
    requires |d.items| == |d.q|
  {
    (x: Item) => Chance(d, n, pool + [x], e)
  }

  lemma {:induction false} OverIsMean(d: Source, k: nat, n: nat, pool: Pool, e: Event)
    requires |d.items| == |d.q| && k <= |d.q| && n > 0
    ensures ChanceOver(d, k, n, pool, e) == ItemMean(d, k, NextChance(d, n - 1, pool, e))
    decreases k
  {
    if k > 0 {
      OverIsMean(d, k - 1, n, pool, e);
    }
  }

  /** Drawing the cells first and choosing afterwards gives every event the chance it has. */
  lemma {:induction false} CellsFirstIsChance(d: Source, p: real, cells: Cells, n: nat, cs: seq<Cell>, zs: seq<bool>, e: Event)
    requires IsSource(d) && Couples(d, p, cells) && |zs| == |cs|
    ensures CellsFirst(p, cells, n, cs, zs, e) == Chance(d, n, Pick(cs, zs), e)
    decreases n, |cells| + 1
  {
    if n > 0 {
      var pool := Pick(cs, zs);
      CellsOverIsMean(d, p, cells, |cells|, n, cs, zs, e);
      OverIsMean(d, |d.q|, n, pool, e);
      assert CellMean(p, cells, |cells|, NextChance(d, n - 1, pool, e)) == ItemMean(d, |d.q|, NextChance(d, n - 1, pool, e));
    }
  }

  lemma {:induction false} CellsOverIsMean(d: Source, p: real, cells: Cells, k: nat, n: nat, cs: seq<Cell>, zs: seq<bool>, e: Event)
    requires IsSource(d) && Couples(d, p, cells) && |zs| == |cs| && k <= |cells| && n > 0
    ensures CellsOver(p, cells, k, n, cs, zs, e) == CellMean(p, cells, k, NextChance(d, n - 1, Pick(cs, zs), e))
    decreases n, k
  {
    if k > 0 {
      var c := cells[k - 1].0;
      CellsOverIsMean(d, p, cells, k - 1, n, cs, zs, e);
      NextIsBlend(d, p, cells, n - 1, cs, zs, c, e);
    }
  }

  lemma {:induction false} NextIsBlend(d: Source, p: real, cells: Cells, n: nat, cs: seq<Cell>, zs: seq<bool>, c: Cell, e: Event)
    requires IsSource(d) && Couples(d, p, cells) && |zs| == |cs|
    ensures var g := NextChance(d, n, Pick(cs, zs), e);
      CellsFirst(p, cells, n, cs + [c], zs, e) == Blend(p, g(c.won), g(c.lost))
    decreases n, |cells| + 2
  {
    ChoiceFirst(p, cells, n, cs + [c], zs, e);
    PickMore(cs, zs, c, true);
    PickMore(cs, zs, c, false);
    CellsFirstIsChance(d, p, cells, n, cs + [c], zs + [true], e);
    CellsFirstIsChance(d, p, cells, n, cs + [c], zs + [false], e);
  }

  // ------------------------------------------------------------------ bounding a chance cell by cell

  ghost function Weight(cells: Cells, k: nat): real
    requires k <= |cells|
  {
    if k == 0 then 0.0 else Weight(cells, k - 1) + cells[k - 1].1
  }

  /** Every cell that can be drawn is fit. */
  ghost predicate OnlyFit(cells: Cells, fit: Cell -> bool)
  {
    forall i :: 0 <= i < |cells| ==> cells[i].1 >= 0.0 && (cells[i].1 > 0.0 ==> fit(cells[i].0))
  }

  ghost predicate AllFit(cs: seq<Cell>, fit: Cell -> bool)
  {
    forall i :: 0 <= i < |cs| ==> fit(cs[i])
  }

  /** For every fit list of cells, the choices alone keep the event within the level. */
  ghost predicate ChoicesBounded(p: real, size: nat, fit: Cell -> bool, e: Event, level: real)
  {
    forall cs: seq<Cell> :: AllFit(cs, fit) && |cs| == size ==> Flips(p, size, 0, [], EventValue(cs, e)) <= level
  }

  lemma {:induction false} CellsFirstBound(p: real, cells: Cells, n: nat, cs: seq<Cell>, e: Event, fit: Cell -> bool, level: real)
    requires OnlyFit(cells, fit) && Weight(cells, |cells|) == 1.0 && AllFit(cs, fit) && level >= 0.0
    requires ChoicesBounded(p, |cs| + n, fit, e, level)
    ensures CellsFirst(p, cells, n, cs, [], e) <= level
    decreases n, |cells| + 1
  {
    if n > 0 {
      CellsOverBound(p, cells, |cells|, n, cs, e, fit, level);
      assert 1.0 * level == level;
    }
  }

  lemma {:induction false} CellsOverBound(p: real, cells: Cells, k: nat, n: nat, cs: seq<Cell>, e: Event, fit: Cell -> bool, level: real)
    requires OnlyFit(cells, fit) && Weight(cells, |cells|) == 1.0 && AllFit(cs, fit) && k <= |cells| && n > 0 && level >= 0.0
    requires ChoicesBounded(p, |cs| + n, fit, e, level)
    ensures CellsOver(p, cells, k, n, cs, [], e) <= Weight(cells, k) * level
    decreases n, k
  {
    if k > 0 {
      CellsOverBound(p, cells, k - 1, n, cs, e, fit, level);
      var c, w := cells[k - 1].0, cells[k - 1].1;
      var x, x0, x1 := CellsOver(p, cells, k, n, cs, [], e), CellsOver(p, cells, k - 1, n, cs, [], e),
                       CellsFirst(p, cells, n - 1, cs + [c], [], e);
      OverStep(p, cells, k, n, cs, [], e, x, x0, w, x1);
      if w > 0.0 {
        CellsFirstBound(p, cells, n - 1, cs + [c], e, fit, level);
      }
      AddBound(x0, w, x1, Weight(cells, k - 1), level);
    } else {
      ZeroTimes(level);
    }
  }

  lemma AddBound(x0: real, w: real, x1: real, prev: real, level: real)
    requires x0 <= prev * level && w >= 0.0 && (w > 0.0 ==> x1 <= level)
    ensures x0 + w * x1 <= (prev + w) * level
  {
    if w > 0.0 {
      TimesLe(w, x1, level);
    } else {
      ZeroTimes(x1);
      ZeroTimes(level);
    }
    ClopperPearson.Distribute(level, prev, w);
  }

  /** If drawing by cells couples, the chance of an event is bounded by what the choices leave to it. */
  lemma {:induction false} ChanceBoundByChoices(d: Source, p: real, cells: Cells, size: nat, e: Event, fit: Cell -> bool, level: real)
    requires IsSource(d) && Couples(d, p, cells) && OnlyFit(cells, fit) && Weight(cells, |cells|) == 1.0 && level >= 0.0
    requires ChoicesBounded(p, size, fit, e, level)
    ensures Chance(d, size, [], e) <= level
  {
    assert Pick([], []) == [];
    CellsFirstIsChance(d, p, cells, size, [], [], e);
    CellsFirstBound(p, cells, size, [], e, fit, level);
  }
}
