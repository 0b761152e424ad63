/**
  * The cuttings for a distribution of scored and labelled items and a share p: true items up to `top`
  * go to the first cutting, and as much of the rest as makes it up to p, from the largest scores down.
  * Up to a score whose true share is below p the first cutting then lags behind the second, and up to
  * one whose share is at least p it is ahead.
  */
module FairCuts {
  import ClopperPearson
  import opened Sorting
  import opened Precision
  import opened Sampling
  import opened MonotoneStopping
  import opened Coupling
  import opened Overlaps

  predicate ScoreLe(x: (Item, real), y: (Item, real))
  {
    x.0.0 <= y.0.0
  }

  function Zip(d: Source): Weighed
    requires |d.items| == |d.q|
  {
    seq(|d.q|, i requires 0 <= i < |d.q| => (d.items[i], d.q[i]))
  }

  function Ordered(d: Source): Weighed
    requires |d.items| == |d.q|
  {
    Sort(ScoreLe, Zip(d))
  }

  lemma {:induction false} ZipMean(d: Source, k: nat, g: Item -> real)
    requires |d.items| == |d.q| && k <= |d.q|
    ensures ListMean(Zip(d), k, g) == ItemMean(d, k, g)
  {
    if k > 0 {
      ZipMean(d, k - 1, g);
    }
  }

  lemma {:induction false} FrontMean(x: (Item, real), s: Weighed, k: nat, g: Item -> real)
    requires k <= |s|
    ensures ListMean([x] + s, k + 1, g) == x.1 * g(x.0) + ListMean(s, k, g)
  {
    if k > 0 {
      FrontMean(x, s, k - 1, g);
      assert ([x] + s)[k] == s[k - 1];
    } else {
      assert ListMean([x] + s, 0, g) == 0.0;
    }
  }

  lemma FrontAndRest(x: (Item, real), s: Weighed, n: nat, g: Item -> real, w: real)
    requires n == |s| && w == x.1 * g(x.0)
    ensures ListMean([x] + s, n + 1, g) == w + ListMean(s, n, g)
  {
    FrontMean(x, s, n, g);
  }

  lemma {:induction false} InsertMean(x: (Item, real), s: Weighed, n: nat, g: Item -> real, w: real)
    requires n == |s| && w == x.1 * g(x.0)
    ensures |Insert(ScoreLe, x, s)| == n + 1
    ensures ListMean(Insert(ScoreLe, x, s), n + 1, g) == w + ListMean(s, n, g)
  {
    if s == [] || ScoreLe(x, s[0]) {
      FrontAndRest(x, s, n, g, w);
      assert [x] + [] == [x];
    } else {
      var y, rest := s[0], s[1..];
      assert s == [y] + rest;
      InsertMean(x, rest, n - 1, g, w);
      InsertLater(x, y, rest, Insert(ScoreLe, x, rest), n - 1, g, w, y.1 * g(y.0));
    }
  }

  lemma InsertLater(x: (Item, real), y: (Item, real), rest: Weighed, more: Weighed, n: nat, g: Item -> real, w: real, v: real)
    requires n == |rest| && |more| == n + 1 && v == y.1 * g(y.0) && ListMean(more, n + 1, g) == w + ListMean(rest, n, g)
    ensures ListMean([y] + more, n + 2, g) == w + ListMean([y] + rest, n + 1, g)
  {
    FrontAndRest(y, rest, n, g, v);
    FrontAndRest(y, more, n + 1, g, v);
  }

  lemma {:induction false} SortMean(s: Weighed, n: nat, g: Item -> real)
    requires n == |s|
    ensures |Sort(ScoreLe, s)| == n
    ensures ListMean(Sort(ScoreLe, s), n, g) == ListMean(s, n, g)
  {
    if s != [] {
      var x, rest := s[0], s[1..];
      var w := x.1 * g(x.0);
      assert s == [x] + rest;
      SortMean(rest, n - 1, g);
      InsertMean(x, Sort(ScoreLe, rest), n - 1, g, w);
      FrontAndRest(x, rest, n - 1, g, w);
    }
  }

  /** Sorting the items changes no mean. */
  lemma {:induction false} OrderedMean(d: Source, g: Item -> real)
    requires |d.items| == |d.q|
    ensures |Ordered(d)| == |d.q| && ListMean(Ordered(d), |d.q|, g) == ItemMean(d, |d.q|, g)
  {
    SortMean(Zip(d), |d.q|, g);
    ZipMean(d, |d.q|, g);
  }

  // ------------------------------------------------------------------ masses

  ghost function IsKept(l: real, y: bool): Item -> real
  {
    (x: Item) => if x.0 <= l && x.1 == y then 1.0 else 0.0
  }

  ghost function One(): Item -> real
  {
    (x: Item) => 1.0
  }

  lemma {:induction false} KeptIsMean(d: Source, k: nat, l: real, y: bool)
    requires |d.items| == |d.q| && k <= |d.q|
    ensures KeptMass(d, k, l, y) == ItemMean(d, k, IsKept(l, y))
  {
    if k > 0 {
      KeptIsMean(d, k - 1, l, y);
      ZeroTimes(d.q[k - 1]);
      assert d.q[k - 1] * 1.0 == d.q[k - 1];
    }
  }

  lemma {:induction false} TotalIsMean(d: Source, k: nat)
    requires |d.items| == |d.q| && k <= |d.q|
    ensures Total(d.q[..k]) == ItemMean(d, k, One())
  {
    if k > 0 {
      TotalIsMean(d, k - 1);
      assert d.q[..k][..k - 1] == d.q[..k - 1];
      assert d.q[k - 1] * 1.0 == d.q[k - 1];
    } else {
      assert |d.q[..0]| == 0;
    }
  }

  ghost function Mass(xs: Weighed, k: nat): real
    requires k <= |xs|
  {
    if k == 0 then 0.0 else Mass(xs, k - 1) + xs[k - 1].1
  }

  /** The mass of the true items up to `top`. */
  ghost function TrueMass(xs: Weighed, k: nat, top: real): real
    requires k <= |xs|
  {
    if k == 0 then 0.0 else TrueMass(xs, k - 1, top) + if IsTrue(xs[k - 1].0, top) then xs[k - 1].1 else 0.0
  }

  predicate IsTrue(x: Item, top: real)
  {
    x.1 && x.0 <= top
  }

  ghost predicate Weights(xs: Weighed)
  {
    forall i :: 0 <= i < |xs| ==> xs[i].1 >= 0.0
  }

  lemma {:induction false} MassIsMean(xs: Weighed, k: nat)
    requires k <= |xs|
    ensures Mass(xs, k) == ListMean(xs, k, One())
  {
    if k > 0 {
      MassIsMean(xs, k - 1);
      assert xs[k - 1].1 * 1.0 == xs[k - 1].1;
    }
  }

  lemma {:induction false} MassRises(xs: Weighed, j: nat, k: nat)
    requires Weights(xs) && j <= k <= |xs|
    ensures Mass(xs, j) <= Mass(xs, k)
    decreases k - j
  {
    if j < k {
      MassRises(xs, j, k - 1);
    }
  }

  /** The items with scores up to `l` come first. */
  ghost predicate EndsAt(xs: Weighed, l: real, e: nat)
  {
    e <= |xs| && forall i :: 0 <= i < |xs| ==> (xs[i].0.0 <= l <==> i < e)
  }

  lemma {:induction false} FindEnd(xs: Weighed, l: real, k: nat) returns (e: nat)
    requires SortedBy(ScoreLe, xs) && k <= |xs| && forall i :: 0 <= i < k ==> xs[i].0.0 <= l
    ensures EndsAt(xs, l, e)
    decreases |xs| - k
  {
    if k == |xs| || xs[k].0.0 > l {
      e := k;
      forall i | k <= i < |xs| ensures xs[i].0.0 > l {
        assert i > k ==> ScoreLe(xs[k], xs[i]);
      }
    } else {
      e := FindEnd(xs, l, k + 1);
    }
  }

  function Least(a: nat, b: nat): nat
  {
    if a <= b then a else b
  }

  lemma {:induction false} KeptUpTo(xs: Weighed, l: real, e: nat, top: real, k: nat)
    requires EndsAt(xs, l, e) && l <= top && k <= |xs|
    ensures ListMean(xs, k, IsKept(l, true)) == TrueMass(xs, Least(k, e), top)
    ensures ListMean(xs, k, IsKept(l, true)) + ListMean(xs, k, IsKept(l, false)) == Mass(xs, Least(k, e))
  {
    if k > 0 {
      KeptUpTo(xs, l, e, top, k - 1);
      var x := xs[k - 1];
      assert x.0.0 <= l <==> k - 1 < e;
      ZeroTimes(x.1);
      assert x.1 * 1.0 == x.1;
    }
  }

  /** What a threshold keeps is the mass of a beginning of the ordered list. */
  lemma SplitAt(d: Source, l: real, top: real) returns (e: nat)
    requires IsSource(d) && l <= top
    ensures EndsAt(Ordered(d), l, e)
    ensures SplitOf(d, l).t == TrueMass(Ordered(d), e, top) && SplitOf(d, l).t + SplitOf(d, l).f == Mass(Ordered(d), e)
  {
    var xs := Ordered(d);
    assert TotalPreorder(ScoreLe);
    SortSorts(ScoreLe, Zip(d));
    e := FindEnd(xs, l, 0);
    KeptUpTo(xs, l, e, top, |xs|);
    OrderedMean(d, IsKept(l, true));
    OrderedMean(d, IsKept(l, false));
    KeptIsMean(d, |d.q|, l, true);
    KeptIsMean(d, |d.q|, l, false);
  }

  lemma OrderedMass(d: Source)
    requires IsSource(d)
    ensures |Ordered(d)| == |d.q| && Mass(Ordered(d), |d.q|) == 1.0 && Weights(Ordered(d))
    ensures forall x :: x in Ordered(d) ==> x.0 in d.items
  {
    OrderedMean(d, One());
    TotalIsMean(d, |d.q|);
    assert d.q[..|d.q|] == d.q;
    MassIsMean(Ordered(d), |d.q|);
    assert TotalPreorder(ScoreLe);
    SortSorts(ScoreLe, Zip(d));
    SameElements(Ordered(d), Zip(d));
    forall x | x in Ordered(d) ensures x.0 in d.items && x.1 >= 0.0 {
      assert x in Zip(d);
    }
  }

  // ------------------------------------------------------------------ the cuttings

  /** What goes to the first cutting among the first k items. */
  ghost function FirstPart(xs: Weighed, p: real, top: real, k: nat): real
    requires k <= |xs|
  {
    var c, f := TrueMass(xs, k, top), p - 1.0 + Mass(xs, k);
    if c >= f then c else f
  }

  ghost function CutsOf(xs: Weighed, p: real, top: real): Cuts
    requires 0.0 < p < 1.0
  {
    Cuts((k: nat) => if k <= |xs| then FirstPart(xs, p, top, k) / p else 0.0,
         (k: nat) => if k <= |xs| then (Mass(xs, k) - FirstPart(xs, p, top, k)) / (1.0 - p) else 0.0)
  }

  lemma {:induction false} TrueMassAtMost(xs: Weighed, top: real, e: nat, k: nat)
    requires Weights(xs) && EndsAt(xs, top, e) && k <= |xs|
    ensures TrueMass(xs, k, top) == TrueMass(xs, Least(k, e), top)
  {
    if k > e {
      TrueMassAtMost(xs, top, e, k - 1);
      assert !(xs[k - 1].0.0 <= top);
    }
  }

  lemma FirstPartSteps(xs: Weighed, p: real, top: real, k: nat)
    requires Weights(xs) && k < |xs|
    ensures var step := FirstPart(xs, p, top, k + 1) - FirstPart(xs, p, top, k);
      0.0 <= step <= xs[k].1 && (IsTrue(xs[k].0, top) ==> step == xs[k].1)
  {
  }

  lemma Quotients(a: real, b: real, p: real)
    requires p > 0.0 && a <= b
    ensures a / p <= b / p
  {
  }

  lemma CutEnds(p: real)
    requires 0.0 < p
    ensures 0.0 / p == 0.0 && p / p == 1.0
  {
  }

  /** The true mass up to `top` is at most p. */
  lemma {:induction false} CutsAreCuts(xs: Weighed, p: real, q: real, top: real)
    requires 0.0 < p < 1.0 && q == 1.0 - p && Weights(xs) && Mass(xs, |xs|) == 1.0 && TrueMass(xs, |xs|, top) <= p
    ensures IsCut(CutsOf(xs, p, top).won, |xs|) && IsCut(CutsOf(xs, p, top).lost, |xs|)
  {
    var c := CutsOf(xs, p, top);
    CutEnds(p);
    CutEnds(q);
    assert FirstPart(xs, p, top, 0) == 0.0 && FirstPart(xs, p, top, |xs|) == p;
    forall i: nat | i < |xs| ensures StepsUp(c.won, i) && StepsUp(c.lost, i) {
      FirstPartSteps(xs, p, top, i);
      Quotients(FirstPart(xs, p, top, i), FirstPart(xs, p, top, i + 1), p);
      Quotients(Mass(xs, i) - FirstPart(xs, p, top, i), Mass(xs, i + 1) - FirstPart(xs, p, top, i + 1), q);
    }
  }

  lemma BackTogether(p: real, q: real, z: real, z': real, r: real, r': real, m: real, a: real, b: real)
    requires p > 0.0 && q > 0.0 && m == (z' - z) + (r' - r) && a == z' / p - z / p && b == r' / q - r / q
    ensures p * a + q * b == m
  {
    assert p * a == z' - z by {
      Undone(p, z, z', a);
    }
    assert q * b == r' - r by {
      Undone(q, r, r', b);
    }
  }

  lemma Undone(p: real, z: real, z': real, a: real)
    requires p > 0.0 && a == z' / p - z / p
    ensures p * a == z' - z
  {
    DivideBack(p, z);
    DivideBack(p, z');
    var u, v := z / p, z' / p;
    assert p * (v - u) == p * v - p * u;
  }

  lemma MassFits(xs: Weighed, c: Cuts, p: real, q: real, top: real, i: nat)
    requires 0.0 < p < 1.0 && q == 1.0 - p && i < |xs| && c == CutsOf(xs, p, top)
    ensures MassAt(c, p, xs, i)
  {
    var a, b := c.won(i + 1) - c.won(i), c.lost(i + 1) - c.lost(i);
    BackTogether(p, q, FirstPart(xs, p, top, i), FirstPart(xs, p, top, i + 1), Mass(xs, i) - FirstPart(xs, p, top, i),
                 Mass(xs, i + 1) - FirstPart(xs, p, top, i + 1), xs[i].1, a, b);
  }

  lemma {:induction false} CutsFit(xs: Weighed, c: Cuts, p: real, top: real)
    requires 0.0 < p < 1.0 && c == CutsOf(xs, p, top)
    requires Weights(xs) && Mass(xs, |xs|) == 1.0 && TrueMass(xs, |xs|, top) <= p
    ensures Fits(c, p, xs)
  {
    CutsAreCuts(xs, p, 1.0 - p, top);
    forall i: nat | i < |xs| ensures MassAt(c, p, xs, i) {
      MassFits(xs, c, p, 1.0 - p, top, i);
    }
  }

  /** A part z of w compared with its due share p w, after stretching both parts to length one. */
  lemma Stretched(z: real, w: real, p: real, q: real)
    requires 0.0 < p && 0.0 < q && p + q == 1.0
    ensures z <= p * w ==> z / p <= (w - z) / q
    ensures z >= p * w ==> z / p >= (w - z) / q
  {
    var a, b := z / p, (w - z) / q;
    DivideBack(p, z);
    DivideBack(q, w - z);
    assert w == p * a + q * b;
    StretchedParts(a, b, p, q, p * a + q * b);
  }

  lemma StretchedParts(a: real, b: real, p: real, q: real, w: real)
    requires 0.0 < p && 0.0 < q && p + q == 1.0 && w == p * a + q * b
    ensures p * a <= p * w ==> a <= b
    ensures p * a >= p * w ==> a >= b
  {
    var s := b - a;
    assert w == a + q * s by {
      assert q * s == q * b - q * a;
      assert p * a + q * a == a by {
        SplitLevel(p, q, a);
      }
    }
    assert p * w == p * a + p * (q * s) by {
      ClopperPearson.Distribute(p, a, q * s);
    }
    if s < 0.0 {
      NegativeProduct(q, s);
      NegativeProduct(p, q * s);
    } else if s > 0.0 {
      NegativeProduct(q, -s);
      NegativeProduct(p, -(q * s));
    }
  }

  lemma NegativeProduct(p: real, x: real)
    requires p > 0.0 && x < 0.0
    ensures p * x < 0.0 && p * -x > 0.0
  {
  }
}
