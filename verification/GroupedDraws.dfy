/**
  * Independent draws that fall into groups by a key. However many draws a group gets and whatever the
  * others are, its own are independent draws from the distribution within the group (the calibration
  * pools of PCCF.fit, src/pccf.py).
  */
module GroupedDraws {
  import ClopperPearson
  import opened Precision
  import opened Sampling
  import opened MonotoneStopping
  import opened Coupling

  datatype Draws<T> = Draws(items: seq<T>, q: seq<real>)

  ghost predicate IsDraws<T>(d: Draws<T>)
  {
    |d.items| == |d.q| && (forall i :: 0 <= i < |d.q| ==> d.q[i] >= 0.0) && Total(d.q) == 1.0
  }

  /** What a list of draws is worth. */
  type Value<!T> = seq<T> -> real

  /** The mean worth after `n` more draws. */
  ghost function MeanWorth<T>(d: Draws<T>, n: nat, pool: seq<T>, f: Value<T>): real
    requires |d.items| == |d.q|
    decreases n, |d.q| + 1
  {
    if n == 0 then f(pool) else MeanOver(d, |d.q|, n, pool, f)
  }

  ghost function MeanOver<T>(d: Draws<T>, k: nat, n: nat, pool: seq<T>, f: Value<T>): real
    requires |d.items| == |d.q| && k <= |d.q| && n > 0
    decreases n, k
  {
    if k == 0 then 0.0 else MeanOver(d, k - 1, n, pool, f) + d.q[k - 1] * MeanWorth(d, n - 1, pool + [d.items[k - 1]], f)
  }

  // ------------------------------------------------------------------ laws of means

  lemma TermAdds(w: real, a: real, b: real, c: real)
    requires c == a + b
    ensures w * c == w * a + w * b
  {
  }

  lemma {:induction false} MeanAdds<T>(d: Draws<T>, n: nat, pool: seq<T>, f: Value<T>, g: Value<T>, u: Value<T>)
    requires |d.items| == |d.q| && forall x :: u(x) == f(x) + g(x)
    ensures MeanWorth(d, n, pool, u) == MeanWorth(d, n, pool, f) + MeanWorth(d, n, pool, g)
    decreases n, |d.q| + 1
  {
    if n > 0 {
      OverAdds(d, |d.q|, n, pool, f, g, u);
    }
  }

  lemma {:induction false} OverAdds<T>(d: Draws<T>, k: nat, n: nat, pool: seq<T>, f: Value<T>, g: Value<T>, u: Value<T>)
    requires |d.items| == |d.q| && k <= |d.q| && n > 0 && forall x :: u(x) == f(x) + g(x)
    ensures MeanOver(d, k, n, pool, u) == MeanOver(d, k, n, pool, f) + MeanOver(d, k, n, pool, g)
    decreases n, k
  {
    if k > 0 {
      var more, q := pool + [d.items[k - 1]], d.q[k - 1];
      var a, b, c := MeanWorth(d, n - 1, more, f), MeanWorth(d, n - 1, more, g), MeanWorth(d, n - 1, more, u);
      var a0, b0, c0 := MeanOver(d, k - 1, n, pool, f), MeanOver(d, k - 1, n, pool, g), MeanOver(d, k - 1, n, pool, u);
      var a1, b1, c1 := MeanOver(d, k, n, pool, f), MeanOver(d, k, n, pool, g), MeanOver(d, k, n, pool, u);
      OverAdds(d, k - 1, n, pool, f, g, u);
      MeanAdds(d, n - 1, more, f, g, u);
      OverStep(d, k - 1, n, pool, f, q, a0, a, a1);
      OverStep(d, k - 1, n, pool, g, q, b0, b, b1);
      OverStep(d, k - 1, n, pool, u, q, c0, c, c1);
      TermsAdd(q, a0, b0, c0, a, b, c, a1, b1, c1);
    }
  }

  lemma OverStep<T>(d: Draws<T>, i: nat, n: nat, pool: seq<T>, f: Value<T>, q: real, prev: real, next: real, whole: real)
    requires |d.items| == |d.q| && i < |d.q| && n > 0 && q == d.q[i]
    requires prev == MeanOver(d, i, n, pool, f) && whole == MeanOver(d, i + 1, n, pool, f)
    requires next == MeanWorth(d, n - 1, pool + [d.items[i]], f)
    ensures whole == prev + q * next
  {
  }

  lemma TermsAdd(q: real, a0: real, b0: real, c0: real, a: real, b: real, c: real, a1: real, b1: real, c1: real)
    requires c0 == a0 + b0 && c == a + b && a1 == a0 + q * a && b1 == b0 + q * b && c1 == c0 + q * c
    ensures c1 == a1 + b1
  {
    TermAdds(q, a, b, c);
  }

  ghost predicate DrawnOf<T(!new)>(d: Draws<T>, pool: seq<T>)
  {
    forall x :: x in pool ==> x in d.items
  }

  lemma {:induction false} MeanMonotone<T(!new)>(d: Draws<T>, n: nat, pool: seq<T>, f: Value<T>, g: Value<T>)
    requires IsDraws(d) && DrawnOf(d, pool) && forall x :: DrawnOf(d, x) && |x| == |pool| + n ==> f(x) <= g(x)
    ensures MeanWorth(d, n, pool, f) <= MeanWorth(d, n, pool, g)
    decreases n, |d.q| + 1
  {
    if n > 0 {
      OverIsMonotone(d, |d.q|, n, pool, f, g);
    }
  }

  lemma {:induction false} OverIsMonotone<T(!new)>(d: Draws<T>, k: nat, n: nat, pool: seq<T>, f: Value<T>, g: Value<T>)
    requires IsDraws(d) && DrawnOf(d, pool) && forall x :: DrawnOf(d, x) && |x| == |pool| + n ==> f(x) <= g(x)
    requires k <= |d.q| && n > 0
    ensures MeanOver(d, k, n, pool, f) <= MeanOver(d, k, n, pool, g)
    decreases n, k
  {
    if k > 0 {
      var more, q := pool + [d.items[k - 1]], d.q[k - 1];
      var a, b := MeanWorth(d, n - 1, more, f), MeanWorth(d, n - 1, more, g);
      var a0, b0 := MeanOver(d, k - 1, n, pool, f), MeanOver(d, k - 1, n, pool, g);
      var a1, b1 := MeanOver(d, k, n, pool, f), MeanOver(d, k, n, pool, g);
      OverIsMonotone(d, k - 1, n, pool, f, g);
      MeanMonotone(d, n - 1, more, f, g);
      OverStep(d, k - 1, n, pool, f, q, a0, a, a1);
      OverStep(d, k - 1, n, pool, g, q, b0, b, b1);
      AddTerms(a0, b0, q, a, b, a1, b1);
    }
  }

  lemma TermLe(q: real, x: real, y: real)
    requires q >= 0.0 && (q == 0.0 || x <= y)
    ensures q * x <= q * y
  {
    if q == 0.0 {
      ZeroTimes(x);
      ZeroTimes(y);
    } else {
      TimesLe(q, x, y);
    }
  }

  lemma AddTerms(a: real, b: real, q: real, x: real, y: real, a': real, b': real)
    requires a <= b && q >= 0.0 && (q == 0.0 || x <= y) && a' == a + q * x && b' == b + q * y
    ensures a' <= b'
  {
    TermLe(q, x, y);
  }

  lemma {:induction false} MeanOfConstant<T>(d: Draws<T>, n: nat, pool: seq<T>, f: Value<T>, x: real)
    requires IsDraws(d) && forall p :: f(p) == x
    ensures MeanWorth(d, n, pool, f) == x
    decreases n, |d.q| + 1
  {
    if n > 0 {
      OverOfConstant(d, |d.q|, n, pool, f, x);
      assert d.q[..|d.q|] == d.q && 1.0 * x == x;
    }
  }

  lemma {:induction false} OverOfConstant<T>(d: Draws<T>, k: nat, n: nat, pool: seq<T>, f: Value<T>, x: real)
    requires IsDraws(d) && (forall p :: f(p) == x) && k <= |d.q| && n > 0
    ensures MeanOver(d, k, n, pool, f) == Total(d.q[..k]) * x
    decreases n, k
  {
    if k > 0 {
      OverOfConstant(d, k - 1, n, pool, f, x);
      MeanOfConstant(d, n - 1, pool + [d.items[k - 1]], f, x);
      assert d.q[..k][..k - 1] == d.q[..k - 1];
      TermAdds(x, Total(d.q[..k - 1]), d.q[k - 1], Total(d.q[..k]));
    } else {
      assert |d.q[..0]| == 0;
      ZeroTimes(x);
    }
  }

  // ------------------------------------------------------------------ one group among the draws

  /** How draws are grouped, and the scored and labelled item that a draw gives its group. */
  datatype Grouping<!T, !K> = Grouping(key: T -> K, item: T -> Item)

  /** A group's own items in the order of the draws. */
  function OwnDraws<T, K(==)>(how: Grouping<T, K>, cs: seq<T>, g: K): Pool
  {
    if cs == [] then []
    else OwnDraws(how, cs[..|cs| - 1], g) + if how.key(cs[|cs| - 1]) == g then [how.item(cs[|cs| - 1])] else []
  }

  function Keys<T, K(==)>(how: Grouping<T, K>, cs: seq<T>): set<K>
  {
    set i | 0 <= i < |cs| :: how.key(cs[i])
  }

  lemma {:induction false} MoreOf<T, K>(how: Grouping<T, K>, cs: seq<T>, c: T, g: K)
    ensures OwnDraws(how, cs + [c], g) == OwnDraws(how, cs, g) + if how.key(c) == g then [how.item(c)] else []
    ensures Keys(how, cs + [c]) == Keys(how, cs) + {how.key(c)}
  {
    assert (cs + [c])[..|cs|] == cs;
    forall k ensures k in Keys(how, cs + [c]) <==> k in Keys(how, cs) || k == how.key(c) {
      if k in Keys(how, cs) {
        var i :| 0 <= i < |cs| && how.key(cs[i]) == k;
        assert (cs + [c])[i] == cs[i];
      }
      assert (cs + [c])[|cs|] == c;
    }
  }

  lemma {:induction false} SeenDraws<T, K>(how: Grouping<T, K>, cs: seq<T>, g: K)
    ensures g in Keys(how, cs) <==> OwnDraws(how, cs, g) != []
    ensures g in Keys(how, cs) ==> |Keys(how, cs)| > 0
  {
    if cs != [] {
      var init, c := cs[..|cs| - 1], cs[|cs| - 1];
      assert cs == init + [c];
      SeenDraws(how, init, g);
      MoreOf(how, init, c, g);
    }
  }

  /** What a group's pool and the other groups seen are worth. */
  type GroupValue<!K> = (Pool, set<K>) -> real

  ghost function SeenValue<T, K>(how: Grouping<T, K>, g: K, f: GroupValue<K>): Value<T>
  {
    (cs: seq<T>) => f(OwnDraws(how, cs, g), Keys(how, cs) - {g})
  }

  /** The same mean, keeping only the group's pool and the other groups. */
  ghost function GroupMean<T, K>(d: Draws<T>, how: Grouping<T, K>, g: K, n: nat, pool: Pool, others: set<K>, f: GroupValue<K>): real
    requires |d.items| == |d.q|
    decreases n, |d.q| + 1
  {
    if n == 0 then f(pool, others) else GroupOver(d, how, g, |d.q|, n, pool, others, f)
  }

  ghost function GroupOver<T, K>(d: Draws<T>, how: Grouping<T, K>, g: K, k: nat, n: nat, pool: Pool, others: set<K>, f: GroupValue<K>): real
    requires |d.items| == |d.q| && k <= |d.q| && n > 0
    decreases n, k
  {
    if k == 0 then 0.0
    else GroupOver(d, how, g, k - 1, n, pool, others, f) + d.q[k - 1] * GroupNext(d, how, g, d.items[k - 1], n - 1, pool, others, f)
  }

  ghost function GroupNext<T, K>(d: Draws<T>, how: Grouping<T, K>, g: K, c: T, n: nat, pool: Pool, others: set<K>, f: GroupValue<K>): real
    requires |d.items| == |d.q|
    decreases n, |d.q| + 2
  {
    if how.key(c) == g then GroupMean(d, how, g, n, pool + [how.item(c)], others, f)
    else GroupMean(d, how, g, n, pool, others + {how.key(c)}, f)
  }

  lemma {:induction false} MeanIsGroupMean<T, K>(d: Draws<T>, how: Grouping<T, K>, g: K, n: nat, cs: seq<T>, f: GroupValue<K>)
    requires |d.items| == |d.q|
    ensures MeanWorth(d, n, cs, SeenValue(how, g, f)) == GroupMean(d, how, g, n, OwnDraws(how, cs, g), Keys(how, cs) - {g}, f)
    decreases n, |d.q| + 1
  {
    if n > 0 {
      OverIsGroupOver(d, how, g, |d.q|, n, cs, f);
    }
  }

  lemma {:induction false} OverIsGroupOver<T, K>(d: Draws<T>, how: Grouping<T, K>, g: K, k: nat, n: nat, cs: seq<T>, f: GroupValue<K>)
    requires |d.items| == |d.q| && k <= |d.q| && n > 0
    ensures MeanOver(d, k, n, cs, SeenValue(how, g, f)) == GroupOver(d, how, g, k, n, OwnDraws(how, cs, g), Keys(how, cs) - {g}, f)
    decreases n, k
  {
    if k > 0 {
      var c := d.items[k - 1];
      OverIsGroupOver(d, how, g, k - 1, n, cs, f);
      MeanIsGroupMean(d, how, g, n - 1, cs + [c], f);
      MoreOf(how, cs, c, g);
      if how.key(c) == g {
        assert Keys(how, cs + [c]) - {g} == Keys(how, cs) - {g};
        assert OwnDraws(how, cs + [c], g) == OwnDraws(how, cs, g) + [how.item(c)];
      } else {
        assert Keys(how, cs + [c]) - {g} == Keys(how, cs) - {g} + {how.key(c)};
        assert OwnDraws(how, cs + [c], g) == OwnDraws(how, cs, g);
      }
    }
  }

  // ------------------------------------------------------------------ the distribution within a group

  ghost function KeyMass<T, K>(d: Draws<T>, how: Grouping<T, K>, g: K, k: nat): real
    requires |d.items| == |d.q| && k <= |d.q|
  {
    if k == 0 then 0.0 else KeyMass(d, how, g, k - 1) + if how.key(d.items[k - 1]) == g then d.q[k - 1] else 0.0
  }

  ghost function KeyMean<T, K>(d: Draws<T>, how: Grouping<T, K>, g: K, k: nat, h: Item -> real): real
    requires |d.items| == |d.q| && k <= |d.q|
  {
    if k == 0 then 0.0
    else KeyMean(d, how, g, k - 1, h) + if how.key(d.items[k - 1]) == g then d.q[k - 1] * h(how.item(d.items[k - 1])) else 0.0
  }

  /** The items of the first `k` that belong to the group, with their probabilities divided by `w`. */
  ghost function GivenUpTo<T, K>(d: Draws<T>, how: Grouping<T, K>, g: K, k: nat, w: real): (s: Source)
    requires |d.items| == |d.q| && k <= |d.q| && w > 0.0
    ensures |s.items| == |s.q|
  {
    if k == 0 then Source([], [])
    else
      var s := GivenUpTo(d, how, g, k - 1, w);
      if how.key(d.items[k - 1]) == g then Source(s.items + [how.item(d.items[k - 1])], s.q + [d.q[k - 1] / w]) else s
  }

  /** The distribution within a group; a group that cannot be drawn has none. */
  ghost function Given<T, K>(d: Draws<T>, how: Grouping<T, K>, g: K): (s: Source)
    requires |d.items| == |d.q|
    ensures |s.items| == |s.q|
  {
    var w := KeyMass(d, how, g, |d.q|);
    if w > 0.0 then GivenUpTo(d, how, g, |d.q|, w) else Source([], [])
  }

  lemma {:induction false} MeanOfLonger(s: Source, x: Item, q: real, k: nat, h: Item -> real)
    requires |s.items| == |s.q| && k <= |s.q|
    ensures ItemMean(Source(s.items + [x], s.q + [q]), k, h) == ItemMean(s, k, h)
  {
    if k > 0 {
      MeanOfLonger(s, x, q, k - 1, h);
    }
  }

  lemma LastTerm(s: Source, x: Item, q: real, h: Item -> real, more: Source, m: real, m': real, v: real)
    requires |s.items| == |s.q| && more == Source(s.items + [x], s.q + [q]) && v == h(x)
    requires m == ItemMean(s, |s.q|, h) && m' == ItemMean(more, |s.q| + 1, h)
    ensures m' == m + q * v
  {
    MeanOfLonger(s, x, q, |s.q|, h);
    assert more.items[|s.q|] == x && more.q[|s.q|] == q;
  }

  lemma TimesQuotient(w: real, m: real, q: real, r: real, v: real, m': real)
    requires w > 0.0 && r == q / w && m' == m + r * v
    ensures w * m' == w * m + q * v
  {
    DivideBack(w, q);
    TermAdds(w, m, r * v, m');
    Reassociate(w, r, v);
  }

  lemma Reassociate(a: real, b: real, c: real)
    ensures a * (b * c) == (a * b) * c
  {
  }

  lemma {:induction false} GivenMean<T, K>(d: Draws<T>, how: Grouping<T, K>, g: K, k: nat, w: real, h: Item -> real, m: real)
    requires |d.items| == |d.q| && k <= |d.q| && w > 0.0
    requires var s := GivenUpTo(d, how, g, k, w); m == ItemMean(s, |s.q|, h)
    ensures w * m == KeyMean(d, how, g, k, h)
    decreases k
  {
    if k > 0 {
      var s := GivenUpTo(d, how, g, k - 1, w);
      var c, q, m0 := d.items[k - 1], d.q[k - 1], ItemMean(s, |s.q|, h);
      GivenMean(d, how, g, k - 1, w, h, m0);
      if how.key(c) == g {
        var more, x, r := GivenUpTo(d, how, g, k, w), how.item(c), q / w;
        var v := h(x);
        LastTerm(s, x, r, h, more, m0, m, v);
        TimesQuotient(w, m0, q, r, v, m);
      }
    } else {
      ZeroTimes(w);
    }
  }

  lemma {:induction false} TotalMore(q: seq<real>, x: real)
    ensures Total(q + [x]) == Total(q) + x
  {
    assert (q + [x])[..|q|] == q;
  }

  lemma QuotientSign(x: real, w: real)
    requires x >= 0.0 && w > 0.0
    ensures x / w >= 0.0
  {
  }

  lemma {:induction false} GivenNonneg<T, K>(d: Draws<T>, how: Grouping<T, K>, g: K, k: nat, w: real)
    requires IsDraws(d) && k <= |d.q| && w > 0.0
    ensures forall i :: 0 <= i < |GivenUpTo(d, how, g, k, w).q| ==> GivenUpTo(d, how, g, k, w).q[i] >= 0.0
  {
    if k > 0 {
      GivenNonneg(d, how, g, k - 1, w);
      QuotientSign(d.q[k - 1], w);
    }
  }

  lemma AddedWeight(w: real, t: real, q: real, r: real, t': real, m: real, m': real)
    requires w > 0.0 && r == q / w && t' == t + r && m' == m + q && w * t == m
    ensures w * t' == m'
  {
    DivideBack(w, q);
    TermAdds(w, t, r, t');
  }

  lemma TotalStep<T, K>(d: Draws<T>, how: Grouping<T, K>, g: K, i: nat, w: real, q: real, r: real, t0: real, t: real, m0: real, m: real)
    requires |d.items| == |d.q| && i < |d.q| && w > 0.0 && how.key(d.items[i]) == g && q == d.q[i] && r == q / w
    requires t0 == Total(GivenUpTo(d, how, g, i, w).q) && t == Total(GivenUpTo(d, how, g, i + 1, w).q)
    requires m0 == KeyMass(d, how, g, i) && m == KeyMass(d, how, g, i + 1)
    ensures t == t0 + r && m == m0 + q
  {
    TotalMore(GivenUpTo(d, how, g, i, w).q, r);
  }

  lemma {:induction false} GivenTotal<T, K>(d: Draws<T>, how: Grouping<T, K>, g: K, k: nat, w: real, t: real, m: real)
    requires IsDraws(d) && k <= |d.q| && w > 0.0
    requires t == Total(GivenUpTo(d, how, g, k, w).q) && m == KeyMass(d, how, g, k)
    ensures w * t == m
    decreases k
  {
    if k > 0 {
      var s, q := GivenUpTo(d, how, g, k - 1, w), d.q[k - 1];
      var t0, m0, r := Total(s.q), KeyMass(d, how, g, k - 1), q / w;
      GivenTotal(d, how, g, k - 1, w, t0, m0);
      if how.key(d.items[k - 1]) == g {
        TotalStep(d, how, g, k - 1, w, q, r, t0, t, m0, m);
        AddedWeight(w, t0, q, r, t, m0, m);
      }
    } else {
      ZeroTimes(w);
    }
  }

  lemma Cancel(w: real, x: real)
    requires w > 0.0 && w * x == w
    ensures x == 1.0
  {
  }

  lemma {:induction false} GivenIsSource<T, K>(d: Draws<T>, how: Grouping<T, K>, g: K)
    requires IsDraws(d) && KeyMass(d, how, g, |d.q|) > 0.0
    ensures IsSource(Given(d, how, g))
  {
    var w := KeyMass(d, how, g, |d.q|);
    var t := Total(Given(d, how, g).q);
    GivenNonneg(d, how, g, |d.q|, w);
    GivenTotal(d, how, g, |d.q|, w, t, w);
    Cancel(w, t);
  }

  // ------------------------------------------------------------------ a group's items can be drawn last

  function AsDraws(s: Source): Draws<Item>
  {
    Draws(s.items, s.q)
  }

  ghost function AtOthers<K>(f: GroupValue<K>, others: set<K>): Value<Item>
  {
    (pool: Pool) => f(pool, others)
  }

  /** Of a draw in the group only that it happened is kept; the items come at the end, from `s`. */
  ghost function Deferred<T, K>(d: Draws<T>, how: Grouping<T, K>, g: K, s: Source, n: nat, c: nat, pool: Pool, others: set<K>, f: GroupValue<K>): real
    requires |d.items| == |d.q| && |s.items| == |s.q|
    decreases n, |d.q| + 1
  {
    if n == 0 then MeanWorth(AsDraws(s), c, pool, AtOthers(f, others)) else DeferredOver(d, how, g, s, |d.q|, n, c, pool, others, f)
  }

  ghost function DeferredOver<T, K>(d: Draws<T>, how: Grouping<T, K>, g: K, s: Source, k: nat, n: nat, c: nat, pool: Pool, others: set<K>, f: GroupValue<K>): real
    requires |d.items| == |d.q| && |s.items| == |s.q| && k <= |d.q| && n > 0
    decreases n, k
  {
    if k == 0 then 0.0
    else DeferredOver(d, how, g, s, k - 1, n, c, pool, others, f) + d.q[k - 1] * DeferredNext(d, how, g, s, k - 1, n - 1, c, pool, others, f)
  }

  ghost function DeferredNext<T, K>(d: Draws<T>, how: Grouping<T, K>, g: K, s: Source, i: nat, n: nat, c: nat, pool: Pool, others: set<K>, f: GroupValue<K>): real
    requires |d.items| == |d.q| && |s.items| == |s.q| && i < |d.q|
    decreases n, |d.q| + 2
  {
    var k := how.key(d.items[i]);
    if k == g then Deferred(d, how, g, s, n, c + 1, pool, others, f) else Deferred(d, how, g, s, n, c, pool, others + {k}, f)
  }

  /** One of the deferred items drawn at once. */
  ghost function Now<T, K>(d: Draws<T>, how: Grouping<T, K>, g: K, s: Source, n: nat, c: nat, pool: Pool, others: set<K>, f: GroupValue<K>): Item -> real
    requires |d.items| == |d.q| && |s.items| == |s.q|
  {
    (x: Item) => Deferred(d, how, g, s, n, c, pool + [x], others, f)
  }

  ghost function NowOver<T, K>(d: Draws<T>, how: Grouping<T, K>, g: K, s: Source, k: nat, n: nat, c: nat, pool: Pool, others: set<K>, f: GroupValue<K>): Item -> real
    requires |d.items| == |d.q| && |s.items| == |s.q| && k <= |d.q| && n > 0
  {
    (x: Item) => DeferredOver(d, how, g, s, k, n, c, pool + [x], others, f)
  }

  ghost function NowNext<T, K>(d: Draws<T>, how: Grouping<T, K>, g: K, s: Source, i: nat, n: nat, c: nat, pool: Pool, others: set<K>, f: GroupValue<K>): Item -> real
    requires |d.items| == |d.q| && |s.items| == |s.q| && i < |d.q|
  {
    (x: Item) => DeferredNext(d, how, g, s, i, n, c, pool + [x], others, f)
  }

  lemma LinearTerm(q: real, r: real, a: real, b: real, u: real, m: real, l: real, v: real)
    requires u == a + r * b && v == m + r * l
    ensures v + q * u == (m + q * a) + r * (l + q * b)
  {
    TermAdds(q, a, r * b, u);
    TermAdds(r, l, q * b, l + q * b);
    assert q * (r * b) == r * (q * b);
  }

  lemma {:induction false} ItemMeanLinear(s: Source, k: nat, r: real, a: Item -> real, b: Item -> real, u: Item -> real)
    requires |s.items| == |s.q| && k <= |s.q| && forall x :: u(x) == a(x) + r * b(x)
    ensures ItemMean(s, k, u) == ItemMean(s, k, a) + r * ItemMean(s, k, b)
  {
    if k > 0 {
      ItemMeanLinear(s, k - 1, r, a, b, u);
      var x := s.items[k - 1];
      LinearTerm(s.q[k - 1], r, a(x), b(x), u(x), ItemMean(s, k - 1, a), ItemMean(s, k - 1, b), ItemMean(s, k - 1, u));
    } else {
      ZeroTimes(r);
    }
  }

  lemma {:induction false} MeanOverItems(s: Source, k: nat, n: nat, pool: Pool, f: Value<Item>, h: Item -> real)
    requires |s.items| == |s.q| && k <= |s.q| && n > 0 && forall x :: h(x) == MeanWorth(AsDraws(s), n - 1, pool + [x], f)
    ensures MeanOver(AsDraws(s), k, n, pool, f) == ItemMean(s, k, h)
    decreases k
  {
    if k > 0 {
      MeanOverItems(s, k - 1, n, pool, f, h);
    }
  }

  lemma {:induction false} DeferredFirst<T, K>(d: Draws<T>, how: Grouping<T, K>, g: K, s: Source, n: nat, c: nat, pool: Pool, others: set<K>, f: GroupValue<K>)
    requires |d.items| == |d.q| && |s.items| == |s.q|
    ensures Deferred(d, how, g, s, n, c + 1, pool, others, f) == ItemMean(s, |s.q|, Now(d, how, g, s, n, c, pool, others, f))
    decreases n, |d.q| + 1
  {
    var h := Now(d, how, g, s, n, c, pool, others, f);
    if n == 0 {
      MeanOverItems(s, |s.q|, c + 1, pool, AtOthers(f, others), h);
    } else {
      DeferredFirstOver(d, how, g, s, |d.q|, n, c, pool, others, f);
      SameMean(s, |s.q|, NowOver(d, how, g, s, |d.q|, n, c, pool, others, f), h);
    }
  }

  lemma {:induction false} SameMean(s: Source, k: nat, a: Item -> real, b: Item -> real)
    requires |s.items| == |s.q| && k <= |s.q| && forall x :: a(x) == b(x)
    ensures ItemMean(s, k, a) == ItemMean(s, k, b)
  {
    if k > 0 {
      SameMean(s, k - 1, a, b);
    }
  }

  lemma {:induction false} ZeroMean(s: Source, k: nat, a: Item -> real)
    requires |s.items| == |s.q| && k <= |s.q| && forall x :: a(x) == 0.0
    ensures ItemMean(s, k, a) == 0.0
  {
    if k > 0 {
      ZeroMean(s, k - 1, a);
      ZeroTimes(s.q[k - 1]);
    }
  }

  lemma {:induction false} DeferredFirstOver<T, K>(d: Draws<T>, how: Grouping<T, K>, g: K, s: Source, k: nat, n: nat, c: nat, pool: Pool, others: set<K>, f: GroupValue<K>)
    requires |d.items| == |d.q| && |s.items| == |s.q| && k <= |d.q| && n > 0
    ensures DeferredOver(d, how, g, s, k, n, c + 1, pool, others, f) == ItemMean(s, |s.q|, NowOver(d, how, g, s, k, n, c, pool, others, f))
    decreases n, k
  {
    var u := NowOver(d, how, g, s, k, n, c, pool, others, f);
    if k == 0 {
      ZeroMean(s, |s.q|, u);
    } else {
      var i: nat := k - 1;
      var a, b := NowOver(d, how, g, s, i, n, c, pool, others, f), NowNext(d, how, g, s, i, n - 1, c, pool, others, f);
      DeferredFirstOver(d, how, g, s, i, n, c, pool, others, f);
      NextFirst(d, how, g, s, i, n - 1, c, pool, others, f);
      ItemMeanLinear(s, |s.q|, d.q[i], a, b, u);
    }
  }

  lemma {:induction false} NextFirst<T, K>(d: Draws<T>, how: Grouping<T, K>, g: K, s: Source, i: nat, n: nat, c: nat, pool: Pool, others: set<K>, f: GroupValue<K>)
    requires |d.items| == |d.q| && |s.items| == |s.q| && i < |d.q|
    ensures DeferredNext(d, how, g, s, i, n, c + 1, pool, others, f) == ItemMean(s, |s.q|, NowNext(d, how, g, s, i, n, c, pool, others, f))
    decreases n, |d.q| + 2
  {
    var k, b := how.key(d.items[i]), NowNext(d, how, g, s, i, n, c, pool, others, f);
    if k == g {
      DeferredFirst(d, how, g, s, n, c + 1, pool, others, f);
      SameMean(s, |s.q|, Now(d, how, g, s, n, c + 1, pool, others, f), b);
    } else {
      DeferredFirst(d, how, g, s, n, c, pool, others + {k}, f);
      SameMean(s, |s.q|, Now(d, how, g, s, n, c, pool, others + {k}, f), b);
    }
  }

  /** The draws outside the group among the first `k` items. */
  ghost function Rest<T, K>(d: Draws<T>, how: Grouping<T, K>, g: K, s: Source, k: nat, n: nat, pool: Pool, others: set<K>, f: GroupValue<K>): real
    requires |d.items| == |d.q| && |s.items| == |s.q| && k <= |d.q|
  {
    if k == 0 then 0.0
    else
      var i := how.key(d.items[k - 1]);
      Rest(d, how, g, s, k - 1, n, pool, others, f)
      + if i == g then 0.0 else d.q[k - 1] * Deferred(d, how, g, s, n, 0, pool, others + {i}, f)
  }

  lemma {:induction false} DeferredSplits<T, K>(d: Draws<T>, how: Grouping<T, K>, g: K, s: Source, k: nat, n: nat, pool: Pool, others: set<K>,
                                               f: GroupValue<K>, m: real, x: real)
    requires |d.items| == |d.q| && |s.items| == |s.q| && k <= |d.q| && n > 0
    requires m == KeyMass(d, how, g, k) && x == Deferred(d, how, g, s, n - 1, 1, pool, others, f)
    ensures DeferredOver(d, how, g, s, k, n, 0, pool, others, f) == m * x + Rest(d, how, g, s, k, n - 1, pool, others, f)
    decreases k
  {
    if k > 0 {
      var m0 := KeyMass(d, how, g, k - 1);
      DeferredSplits(d, how, g, s, k - 1, n, pool, others, f, m0, x);
      if how.key(d.items[k - 1]) == g {
        TermAdds(x, m0, d.q[k - 1], m);
      }
    } else {
      ZeroTimes(x);
    }
  }

  /** Deferring a group's items to the end changes no mean. */
  lemma {:induction false} DeferIsGroupMean<T, K>(d: Draws<T>, how: Grouping<T, K>, g: K, s: Source, n: nat, pool: Pool, others: set<K>, f: GroupValue<K>)
    requires IsDraws(d) && KeyMass(d, how, g, |d.q|) > 0.0 && s == Given(d, how, g)
    ensures GroupMean(d, how, g, n, pool, others, f) == Deferred(d, how, g, s, n, 0, pool, others, f)
    decreases n, |d.q| + 1
  {
    if n > 0 {
      var w, h := KeyMass(d, how, g, |d.q|), Now(d, how, g, s, n - 1, 0, pool, others, f);
      var x := Deferred(d, how, g, s, n - 1, 1, pool, others, f);
      DeferGroupOver(d, how, g, s, |d.q|, n, pool, others, f);
      DeferredSplits(d, how, g, s, |d.q|, n, pool, others, f, w, x);
      DeferredFirst(d, how, g, s, n - 1, 0, pool, others, f);
      GivenMean(d, how, g, |d.q|, w, h, x);
    }
  }

  lemma {:induction false} DeferGroupOver<T, K>(d: Draws<T>, how: Grouping<T, K>, g: K, s: Source, k: nat, n: nat, pool: Pool, others: set<K>, f: GroupValue<K>)
    requires IsDraws(d) && KeyMass(d, how, g, |d.q|) > 0.0 && s == Given(d, how, g) && k <= |d.q| && n > 0
    ensures GroupOver(d, how, g, k, n, pool, others, f)
         == KeyMean(d, how, g, k, Now(d, how, g, s, n - 1, 0, pool, others, f)) + Rest(d, how, g, s, k, n - 1, pool, others, f)
    decreases n, k
  {
    if k > 0 {
      var i: nat, h: Item -> real := k - 1, Now(d, how, g, s, n - 1, 0, pool, others, f);
      var c, q := d.items[i], d.q[i];
      var x := GroupNext(d, how, g, c, n - 1, pool, others, f);
      var a, a' := GroupOver(d, how, g, i, n, pool, others, f), GroupOver(d, how, g, k, n, pool, others, f);
      DeferGroupOver(d, how, g, s, i, n, pool, others, f);
      GroupStep(d, how, g, i, n, pool, others, f, a, a', q, x);
      NextIsDeferred(d, how, g, s, c, n - 1, pool, others, f, x);
      KeyStep(d, how, g, i, h, q, x);
      RestStep(d, how, g, s, i, n - 1, pool, others, f, q, x);
    }
  }

  lemma {:induction false} NextIsDeferred<T, K>(d: Draws<T>, how: Grouping<T, K>, g: K, s: Source, c: T, n: nat, pool: Pool, others: set<K>, f: GroupValue<K>, x: real)
    requires IsDraws(d) && KeyMass(d, how, g, |d.q|) > 0.0 && s == Given(d, how, g) && x == GroupNext(d, how, g, c, n, pool, others, f)
    ensures x == if how.key(c) == g then Now(d, how, g, s, n, 0, pool, others, f)(how.item(c))
                 else Deferred(d, how, g, s, n, 0, pool, others + {how.key(c)}, f)
    decreases n, |d.q| + 2
  {
    if how.key(c) == g {
      DeferIsGroupMean(d, how, g, s, n, pool + [how.item(c)], others, f);
    } else {
      DeferIsGroupMean(d, how, g, s, n, pool, others + {how.key(c)}, f);
    }
  }

  lemma KeyStep<T, K>(d: Draws<T>, how: Grouping<T, K>, g: K, i: nat, h: Item -> real, q: real, x: real)
    requires |d.items| == |d.q| && i < |d.q| && q == d.q[i] && (how.key(d.items[i]) == g ==> x == h(how.item(d.items[i])))
    ensures KeyMean(d, how, g, i + 1, h) == KeyMean(d, how, g, i, h) + if how.key(d.items[i]) == g then q * x else 0.0
  {
  }

  lemma RestStep<T, K>(d: Draws<T>, how: Grouping<T, K>, g: K, s: Source, i: nat, n: nat, pool: Pool, others: set<K>, f: GroupValue<K>, q: real, x: real)
    requires |d.items| == |d.q| && |s.items| == |s.q| && i < |d.q| && q == d.q[i]
    requires how.key(d.items[i]) != g ==> x == Deferred(d, how, g, s, n, 0, pool, others + {how.key(d.items[i])}, f)
    ensures Rest(d, how, g, s, i + 1, n, pool, others, f)
         == Rest(d, how, g, s, i, n, pool, others, f) + if how.key(d.items[i]) == g then 0.0 else q * x
  {
  }

  lemma GroupStep<T, K>(d: Draws<T>, how: Grouping<T, K>, g: K, i: nat, n: nat, pool: Pool, others: set<K>, f: GroupValue<K>,
                        a: real, a': real, q: real, x: real)
    requires |d.items| == |d.q| && i < |d.q| && n > 0 && q == d.q[i]
    requires a == GroupOver(d, how, g, i, n, pool, others, f) && a' == GroupOver(d, how, g, i + 1, n, pool, others, f)
    requires x == GroupNext(d, how, g, d.items[i], n - 1, pool, others, f)
    ensures a' == a + q * x
  {
  }

  // ------------------------------------------------------------------ comparing what a group is worth

  /** For any number of independent draws in the group and any others seen, `f` is worth at most `u`. */
  ghost predicate NoMore<K(!new)>(s: Source, f: GroupValue<K>, u: GroupValue<K>)
    requires |s.items| == |s.q|
  {
    forall c: nat, others: set<K> :: MeanWorth(AsDraws(s), c, [], AtOthers(f, others)) <= MeanWorth(AsDraws(s), c, [], AtOthers(u, others))
  }

  lemma {:induction false} DeferredNoMore<T, K(!new)>(d: Draws<T>, how: Grouping<T, K>, g: K, s: Source, n: nat, c: nat, others: set<K>,
                                               f: GroupValue<K>, u: GroupValue<K>)
    requires IsDraws(d) && |s.items| == |s.q| && NoMore(s, f, u)
    ensures Deferred(d, how, g, s, n, c, [], others, f) <= Deferred(d, how, g, s, n, c, [], others, u)
    decreases n, |d.q| + 1
  {
    if n > 0 {
      DeferredOverNoMore(d, how, g, s, |d.q|, n, c, others, f, u);
    }
  }

  lemma {:induction false} DeferredOverNoMore<T, K(!new)>(d: Draws<T>, how: Grouping<T, K>, g: K, s: Source, k: nat, n: nat, c: nat, others: set<K>,
                                                   f: GroupValue<K>, u: GroupValue<K>)
    requires IsDraws(d) && |s.items| == |s.q| && NoMore(s, f, u) && k <= |d.q| && n > 0
    ensures DeferredOver(d, how, g, s, k, n, c, [], others, f) <= DeferredOver(d, how, g, s, k, n, c, [], others, u)
    decreases n, k
  {
    if k > 0 {
      var i: nat := k - 1;
      DeferredOverNoMore(d, how, g, s, i, n, c, others, f, u);
      if how.key(d.items[i]) == g {
        DeferredNoMore(d, how, g, s, n - 1, c + 1, others, f, u);
      } else {
        DeferredNoMore(d, how, g, s, n - 1, c, others + {how.key(d.items[i])}, f, u);
      }
      TimesLe(d.q[i], DeferredNext(d, how, g, s, i, n - 1, c, [], others, f), DeferredNext(d, how, g, s, i, n - 1, c, [], others, u));
    }
  }

  lemma {:induction false} KeyMassRises<T, K>(d: Draws<T>, how: Grouping<T, K>, g: K, j: nat, k: nat)
    requires IsDraws(d) && j <= k <= |d.q|
    ensures 0.0 <= KeyMass(d, how, g, j) <= KeyMass(d, how, g, k)
    decreases k
  {
    if j < k {
      KeyMassRises(d, how, g, j, k - 1);
    } else if k > 0 {
      KeyMassRises(d, how, g, j - 1, k - 1);
    }
  }

  /** A group that cannot be drawn stays empty. */
  lemma {:induction false} NeverDrawn<T, K>(d: Draws<T>, how: Grouping<T, K>, g: K, n: nat, others: set<K>, f: GroupValue<K>, u: GroupValue<K>)
    requires IsDraws(d) && KeyMass(d, how, g, |d.q|) <= 0.0 && forall o: set<K> :: f([], o) <= u([], o)
    ensures GroupMean(d, how, g, n, [], others, f) <= GroupMean(d, how, g, n, [], others, u)
    decreases n, |d.q| + 1
  {
    if n > 0 {
      NeverDrawnOver(d, how, g, |d.q|, n, others, f, u);
    }
  }

  lemma {:induction false} NeverDrawnOver<T, K>(d: Draws<T>, how: Grouping<T, K>, g: K, k: nat, n: nat, others: set<K>, f: GroupValue<K>, u: GroupValue<K>)
    requires IsDraws(d) && KeyMass(d, how, g, |d.q|) <= 0.0 && (forall o: set<K> :: f([], o) <= u([], o)) && k <= |d.q| && n > 0
    ensures GroupOver(d, how, g, k, n, [], others, f) <= GroupOver(d, how, g, k, n, [], others, u)
    decreases n, k
  {
    if k > 0 {
      var i: nat := k - 1;
      var q, x, y := d.q[i], GroupNext(d, how, g, d.items[i], n - 1, [], others, f), GroupNext(d, how, g, d.items[i], n - 1, [], others, u);
      NeverDrawnOver(d, how, g, i, n, others, f, u);
      NeverDrawnNext(d, how, g, i, n - 1, others, f, u, q, x, y);
      var a, b := GroupOver(d, how, g, i, n, [], others, f), GroupOver(d, how, g, i, n, [], others, u);
      var a', b' := GroupOver(d, how, g, k, n, [], others, f), GroupOver(d, how, g, k, n, [], others, u);
      GroupStep(d, how, g, i, n, [], others, f, a, a', q, x);
      GroupStep(d, how, g, i, n, [], others, u, b, b', q, y);
      AddTerms(a, b, q, x, y, a', b');
    }
  }

  lemma {:induction false} NeverDrawnNext<T, K>(d: Draws<T>, how: Grouping<T, K>, g: K, i: nat, n: nat, others: set<K>, f: GroupValue<K>, u: GroupValue<K>,
                                                q: real, x: real, y: real)
    requires IsDraws(d) && KeyMass(d, how, g, |d.q|) <= 0.0 && (forall o: set<K> :: f([], o) <= u([], o)) && i < |d.q|
    requires q == d.q[i] && x == GroupNext(d, how, g, d.items[i], n, [], others, f) && y == GroupNext(d, how, g, d.items[i], n, [], others, u)
    ensures q >= 0.0 && (q == 0.0 || x <= y)
    decreases n, |d.q| + 2
  {
    if how.key(d.items[i]) == g {
      KeyMassRises(d, how, g, i + 1, |d.q|);
      KeyMassRises(d, how, g, i, i + 1);
    } else {
      NeverDrawn(d, how, g, n, others + {how.key(d.items[i])}, f, u);
    }
  }

  /** What holds for independent draws in the group, however many, holds for the group among all draws. */
  lemma {:induction false} GroupBound<T, K(!new)>(d: Draws<T>, how: Grouping<T, K>, g: K, n: nat, f: GroupValue<K>, u: GroupValue<K>)
    requires IsDraws(d) && (forall o: set<K> :: f([], o) <= u([], o))
    requires KeyMass(d, how, g, |d.q|) > 0.0 ==> NoMore(Given(d, how, g), f, u)
    ensures MeanWorth(d, n, [], SeenValue(how, g, f)) <= MeanWorth(d, n, [], SeenValue(how, g, u))
  {
    MeanIsGroupMean(d, how, g, n, [], f);
    MeanIsGroupMean(d, how, g, n, [], u);
    var o := Keys(how, []) - {g};
    if KeyMass(d, how, g, |d.q|) > 0.0 {
      var s := Given(d, how, g);
      DeferIsGroupMean(d, how, g, s, n, [], o, f);
      DeferIsGroupMean(d, how, g, s, n, [], o, u);
      DeferredNoMore(d, how, g, s, n, 0, o, f, u);
    } else {
      NeverDrawn(d, how, g, n, o, f, u);
    }
  }
}
