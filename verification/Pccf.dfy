/**
  * PCCF, the object that is fitted on calibration candidates and then decides which candidates to keep
  * (src/pccf.py): both modes, any grouping, nested masks, the small-group rule and the statistics.
  */
module Pccf {
  import opened Conformal
  import opened Counting
  import opened Optional
  import opened Precision
  import PrecisionMode

  datatype Mode = Coverage(alpha: real) | Target(target: real, delta: real, search: PrecisionMode.Search)

  datatype Model<!K> = Model(part: Partition<K>, mode: Mode, minGroupTrue: nat, keepSmall: bool)

  /** The model's rule in coverage mode, and in precision mode. */
  function CoverageRule<K>(m: Model<K>): Conformal.Settings<K>
    requires m.mode.Coverage?
  {
    Conformal.Settings(m.part, m.mode.alpha, m.minGroupTrue, m.keepSmall)
  }

  function PrecisionRule<K>(m: Model<K>): PrecisionMode.Settings<K>
    requires m.mode.Target?
  {
    PrecisionMode.Settings(m.part, m.mode.target, m.mode.delta, m.mode.search, m.minGroupTrue, m.keepSmall)
  }

  predicate Proper<K>(m: Model<K>)
  {
    if m.mode.Coverage? then 0.0 < m.mode.alpha < 1.0 else PrecisionMode.Proper(PrecisionRule(m))
  }

  /** The threshold of a group that some candidate counts toward. */
  function CutOf<K(==)>(m: Model<K>, cs: seq<Labelled>, g: K): Cut
    requires Proper(m) && g in PrecisionMode.Groups(m.part, cs)
  {
    if m.mode.Coverage? then
      PrecisionMode.GroupsAreSeen(m.part, cs, g);
      Fitted(CoverageRule(m), cs, g).value
    else PrecisionMode.Fitted(PrecisionRule(m), cs, g)
  }

  // ------------------------------------------------------------------ statistics

  /** What is recorded for a group; the share among what is kept is None if nothing is. */
  datatype Stats = Stats(n: nat, nTrue: nat, precisionAll: real, threshold: Cut, kept: nat, precisionKept: Option<real>, fallback: bool)

  /** The labels of what a threshold keeps. */
  function KeptBy(pool: Pool, cut: Cut): seq<bool>
  {
    if pool == [] then [] else KeptBy(pool[..|pool| - 1], cut) + if Keeps(cut, pool[|pool| - 1].0) then [pool[|pool| - 1].1] else []
  }

  function RatioOf(k: nat, n: nat): real
    requires n > 0
  {
    k as real / n as real
  }

  function StatsOf<K>(m: Model<K>, pool: Pool, cut: Cut): Stats
    requires pool != []
  {
    var kept, n := KeptBy(pool, cut), |TruesOf(pool)|;
    Stats(|pool|, n, RatioOf(n, |pool|), cut, |kept|, if kept == [] then None else Some(RatioOf(Trues(kept), |kept|)), n < m.minGroupTrue)
  }

  // ------------------------------------------------------------------ the object

  ghost predicate PoolsOf<K(!new)>(p: Partition<K>, pools: map<K, Pool>, cs: seq<Labelled>)
  {
    && (forall g :: g in pools <==> Seen(p, cs, g))
    && (forall g :: g in pools ==> pools[g] == PoolOf(p, cs, g))
  }

  /** The pools after the next candidate has been counted toward the groups done so far. */
  ghost predicate PoolsAmid<K(!new)>(p: Partition<K>, pools: map<K, Pool>, cs: seq<Labelled>, c: Labelled, left: set<K>)
  {
    && left <= p.groups(c.0)
    && (forall g :: g in pools <==> Seen(p, cs, g) || g in p.groups(c.0) - left)
    && (forall g :: g in pools ==> pools[g] == if g in left then PoolOf(p, cs, g) else PoolOf(p, cs + [c], g))
  }

  ghost predicate FitsAll<K(!new)>(m: Model<K>, cs: seq<Labelled>, cuts: map<K, Cut>, stats: map<K, Stats>)
    requires Proper(m)
  {
    && cuts.Keys == stats.Keys && cuts.Keys <= PrecisionMode.Groups(m.part, cs)
    && forall g :: g in cuts ==> FitsAt(m, cs, cuts[g], stats[g], g)
  }

  ghost predicate FitsAt<K>(m: Model<K>, cs: seq<Labelled>, cut: Cut, stat: Stats, g: K)
    requires Proper(m) && g in PrecisionMode.Groups(m.part, cs)
  {
    PrecisionMode.GroupsAreSeen(m.part, cs, g);
    cut == CutOf(m, cs, g) && stat == StatsOf(m, PoolOf(m.part, cs, g), cut)
  }

  class PCCF<K(==, !new)> {
    const model: Model<K>
    var thresholds: map<K, Cut>
    var stats: map<K, Stats>

    constructor (model: Model<K>)
      ensures this.model == model && thresholds == map[] && stats == map[]
    {
      this.model := model;
      thresholds, stats := map[], map[];
    }

    ghost predicate FittedOn(cs: seq<Labelled>)
      requires Proper(model)
      reads this
    {
      thresholds.Keys == PrecisionMode.Groups(model.part, cs) && FitsAll(model, cs, thresholds, stats)
    }

    method CountToward(pools: map<K, Pool>, cs: seq<Labelled>, c: Labelled) returns (more: map<K, Pool>)
      requires PoolsOf(model.part, pools, cs)
      ensures PoolsOf(model.part, more, cs + [c])
    {
      var left := model.part.groups(c.0);
      more := pools;
      while left != {}
        invariant PoolsAmid(model.part, more, cs, c, left)
        decreases |left|
      {
        var g :| g in left;
        OneToward(model.part, more, cs, c, left, g);
        more := more[g := (if g in more then more[g] else []) + [(model.part.score(c.0, g), c.1)]];
        left := left - {g};
      }
      AllToward(model.part, more, cs, c);
    }

    method BuildPools(cs: seq<Labelled>) returns (pools: map<K, Pool>)
      ensures PoolsOf(model.part, pools, cs)
    {
      pools := map[];
      for i := 0 to |cs|
        invariant PoolsOf(model.part, pools, cs[..i])
      {
        assert cs[..i + 1] == cs[..i] + [cs[i]];
        pools := CountToward(pools, cs[..i], cs[i]);
      }
      assert cs[..|cs|] == cs;
    }

    /** One pool at one level, in either mode. */
    method Test(pool: Pool, level: real) returns (cut: Cut)
      requires Proper(model) && level > 0.0 && (model.mode.Target? ==> pool != [])
      ensures cut == if model.mode.Coverage? then Quantile(TruesOf(pool), model.mode.alpha)
                     else PrecisionMode.CutOf(PrecisionMode.Tested(PrecisionRule(model), pool, level))
    {
      match model.mode {
        case Coverage(alpha) => cut := Quantile(TruesOf(pool), alpha);
        case Target(target, _, FixedSequenceBy(size)) =>
          var best := FitPrecision(pool, size, target, level);
          cut := PrecisionMode.CutOf(best);
        case Target(target, _, BonferroniOn(grid)) =>
          var best := FitPrecisionBonferroni(pool, grid, target, level);
          cut := PrecisionMode.CutOf(best);
      }
    }

    function Level(): real
    {
      if model.mode.Coverage? then 1.0 else model.mode.delta
    }

    method FitGroup(cs: seq<Labelled>, g: K, pool: Pool, patterns: nat, pooled: Cut) returns (cut: Cut, stat: Stats)
      requires Proper(model) && g in PrecisionMode.Groups(model.part, cs) && pool == PoolOf(model.part, cs, g)
      requires patterns == |PrecisionMode.Groups(model.part, cs)|
      requires model.minGroupTrue > 0 ==> IsPooled(model, cs, pooled)
      ensures FitsAt(model, cs, cut, stat, g)
    {
      PrecisionMode.GroupsAreSeen(model.part, cs, g);
      var level := PrecisionMode.LevelFor(Level(), patterns);
      PositiveLevel(Level(), patterns);
      cut := CutFor(cs, g, pool, level, pooled);
      stat := StatsOf(model, pool, cut);
    }

    method CutFor(cs: seq<Labelled>, g: K, pool: Pool, level: real, pooled: Cut) returns (cut: Cut)
      requires Proper(model) && g in PrecisionMode.Groups(model.part, cs) && |PrecisionMode.Groups(model.part, cs)| > 0
      requires pool == PoolOf(model.part, cs, g) && pool != []
      requires level > 0.0 && level == PrecisionMode.LevelFor(Level(), |PrecisionMode.Groups(model.part, cs)|)
      requires model.minGroupTrue > 0 ==> IsPooled(model, cs, pooled)
      ensures cut == CutOf(model, cs, g)
    {
      PrecisionMode.GroupsAreSeen(model.part, cs, g);
      cut := Test(pool, level);
      if |TruesOf(pool)| < model.minGroupTrue {
        cut := if model.keepSmall then KeepAll else pooled;
      }
    }

    /** With a small-group rule the pooled test needs a candidate: the quantile grid of none is an error. */
    method Fit(cs: seq<Labelled>) returns (ok: bool)
      requires Proper(model)
      modifies this`thresholds, this`stats
      ensures ok <==> !(cs == [] && model.minGroupTrue > 0 && model.mode.Target? && model.mode.search.FixedSequenceBy?)
      ensures FittedOn(cs)
    {
      var pools := BuildPools(cs);
      thresholds, stats := map[], map[];
      if cs == [] {
        return !(model.minGroupTrue > 0 && model.mode.Target? && model.mode.search.FixedSequenceBy?);
      }
      var pooled := KeepNone;
      if model.minGroupTrue > 0 {
        pooled := Test(AllPooled(cs), Level());
      }
      thresholds, stats := FitGroups(cs, pools, pooled);
      return true;
    }

    method FitGroups(cs: seq<Labelled>, pools: map<K, Pool>, pooled: Cut) returns (cuts: map<K, Cut>, stat: map<K, Stats>)
      requires Proper(model) && PoolsOf(model.part, pools, cs) && (model.minGroupTrue > 0 ==> IsPooled(model, cs, pooled))
      ensures cuts.Keys == PrecisionMode.Groups(model.part, cs) && FitsAll(model, cs, cuts, stat)
    {
      cuts, stat := map[], map[];
      var left := pools.Keys;
      KeysAreGroups(model.part, pools, cs);
      while left != {}
        invariant left <= pools.Keys && cuts.Keys == pools.Keys - left && FitsAll(model, cs, cuts, stat)
        decreases |left|
      {
        var g :| g in left;
        var cut, s := FitGroup(cs, g, pools[g], |pools|, pooled);
        OneMoreFits(model, cs, cuts, stat, g, cut, s);
        cuts, stat := cuts[g := cut], stat[g := s];
        left := left - {g};
      }
    }

    /** An unseen group fails open. */
    predicate Accept(c: Scores)
      reads this
    {
      var g := model.part.key(c);
      g !in thresholds || Keeps(thresholds[g], JointScore(c))
    }
  }

  ghost predicate IsPooled<K>(m: Model<K>, cs: seq<Labelled>, pooled: Cut)
    requires Proper(m)
  {
    && cs != []
    && pooled == if m.mode.Coverage? then Pooled(CoverageRule(m), cs)
                 else PrecisionMode.CutOf(PrecisionMode.Tested(PrecisionRule(m), AllPooled(cs), m.mode.delta))
  }

  lemma PositiveLevel(level: real, patterns: nat)
    requires level > 0.0 && patterns > 0
    ensures PrecisionMode.LevelFor(level, patterns) > 0.0
  {
  }

  lemma OneToward<K(!new)>(p: Partition<K>, pools: map<K, Pool>, cs: seq<Labelled>, c: Labelled, left: set<K>, g: K)
    requires PoolsAmid(p, pools, cs, c, left) && g in left
    ensures PoolsAmid(p, pools[g := (if g in pools then pools[g] else []) + [(p.score(c.0, g), c.1)]], cs, c, left - {g})
  {
    PoolMore(p, cs, c, g);
    SeenPool(p, cs, g);
  }

  lemma AllToward<K(!new)>(p: Partition<K>, pools: map<K, Pool>, cs: seq<Labelled>, c: Labelled)
    requires PoolsAmid(p, pools, cs, c, {})
    ensures PoolsOf(p, pools, cs + [c])
  {
    forall g ensures Seen(p, cs + [c], g) <==> Seen(p, cs, g) || g in p.groups(c.0) {
      PoolMore(p, cs, c, g);
    }
  }

  lemma KeysAreGroups<K(!new)>(p: Partition<K>, pools: map<K, Pool>, cs: seq<Labelled>)
    requires PoolsOf(p, pools, cs)
    ensures pools.Keys == PrecisionMode.Groups(p, cs) && |pools| == |PrecisionMode.Groups(p, cs)|
  {
    forall g ensures g in pools <==> g in PrecisionMode.Groups(p, cs) {
      PrecisionMode.GroupsAreSeen(p, cs, g);
    }
    assert pools.Keys == PrecisionMode.Groups(p, cs);
    assert |pools| == |pools.Keys|;
  }

  lemma OneMoreFits<K(!new)>(m: Model<K>, cs: seq<Labelled>, cuts: map<K, Cut>, stats: map<K, Stats>, g: K, cut: Cut, stat: Stats)
    requires Proper(m) && FitsAll(m, cs, cuts, stats) && g in PrecisionMode.Groups(m.part, cs) && FitsAt(m, cs, cut, stat, g)
    ensures FitsAll(m, cs, cuts[g := cut], stats[g := stat])
  {
  }

  // ------------------------------------------------------------------ what fitted models do

  /** A candidate counts toward the group it has to meet, with its own joint score. */
  ghost predicate CountsForItself<K>(p: Partition<K>)
  {
    forall c: Scores :: p.key(c) in p.groups(c) && p.score(c, p.key(c)) == JointScore(c)
  }

  lemma KeysCountForThemselves<K>(key: Scores -> K)
    ensures CountsForItself(ByKey(key))
  {
  }

  lemma {:induction false} AllOn(c: seq<(string, real)>, layers: set<string>)
    requires forall i :: 0 <= i < |c| ==> c[i].0 in layers
    ensures On(c, layers) == c
  {
    if c != [] {
      assert c[0].0 in layers;
      AllOn(c[1..], layers);
    }
  }

  lemma NestedCountForThemselves()
    ensures CountsForItself(Nested())
  {
    forall c: Scores ensures Mask(c) in NonEmptySubsets(Mask(c)) && ScoreOn(c, Mask(c)) == JointScore(c) {
      var entries: seq<(string, real)> := c;
      assert entries[0].0 in Mask(c);
      AllOn(entries, Mask(c));
    }
  }

  /** One model was fitted for each candidate left out. */
  ghost predicate LeaveOneOutModels<K(!new)>(models: seq<PCCF<K>>, m: Model<K>, cs: seq<Labelled>)
    requires Proper(m)
    reads models
  {
    |models| == |cs| && forall i :: 0 <= i < |cs| ==> models[i].model == m && models[i].FittedOn(Without(cs, i))
  }

  /** How many of the first n candidates are true, have to meet `g`, and are not accepted by their model. */
  ghost function NotAccepted<K(!new)>(models: seq<PCCF<K>>, p: Partition<K>, cs: seq<Labelled>, g: K, n: nat): nat
    requires n <= |cs| == |models|
    reads models
  {
    if n == 0 then 0
    else (if cs[n - 1].1 && p.key(cs[n - 1].0) == g && !models[n - 1].Accept(cs[n - 1].0) then 1 else 0)
         + NotAccepted(models, p, cs, g, n - 1)
  }

  lemma AcceptsAsFitted<K(!new)>(model: PCCF<K>, m: Model<K>, cs: seq<Labelled>, c: Scores)
    requires Proper(m) && m.mode.Coverage? && model.model == m && model.FittedOn(cs)
    ensures model.Accept(c) <==> Conformal.Passes(Fitted(CoverageRule(m), cs, m.part.key(c)), JointScore(c))
  {
    var g := m.part.key(c);
    PrecisionMode.GroupsAreSeen(m.part, cs, g);
    if g in model.thresholds {
      assert FitsAt(m, cs, model.thresholds[g], model.stats[g], g);
    }
  }

  lemma RejectedIfNotAccepted<K(!new)>(model: PCCF<K>, m: Model<K>, cs: seq<Labelled>, i: nat)
    requires i < |cs| && Proper(m) && m.mode.Coverage? && CountsForItself(m.part) && model.model == m && model.FittedOn(Without(cs, i))
    ensures !model.Accept(cs[i].0) ==> m.part.key(cs[i].0) in m.part.groups(cs[i].0)
                                       && RejectedAt(CoverageRule(m), cs, i, m.part.key(cs[i].0))
  {
    AcceptsAsFitted(model, m, Without(cs, i), cs[i].0);
  }

  lemma {:induction false} NotAcceptedAreRejections<K(!new)>(models: seq<PCCF<K>>, m: Model<K>, cs: seq<Labelled>, g: K, n: nat)
    requires n <= |cs| && Proper(m) && m.mode.Coverage? && CountsForItself(m.part) && LeaveOneOutModels(models, m, cs)
    ensures NotAccepted(models, m.part, cs, g, n) <= Rejections(CoverageRule(m), cs, g, n)
  {
    if n > 0 {
      var i: nat := n - 1;
      NotAcceptedAreRejections(models, m, cs, g, i);
      assert models[i].FittedOn(Without(cs, i));
      RejectedIfNotAccepted(models[i], m, cs, i);
      RejectionsStep(CoverageRule(m), cs, g, i);
    }
  }

  lemma RejectionsStep<K>(f: Conformal.Settings<K>, cs: seq<Labelled>, g: K, i: nat)
    requires i < |cs| && 0.0 < f.alpha < 1.0
    ensures Rejections(f, cs, g, i + 1) >= Rejections(f, cs, g, i)
    ensures cs[i].1 && g in f.part.groups(cs[i].0) && RejectedAt(f, cs, i, g) ==> Rejections(f, cs, g, i + 1) == Rejections(f, cs, g, i) + 1
  {
  }

  /**
    * The coverage of the models that fit() leaves, as accept() applies them: of the N true candidates that
    * count toward a group, at most floor(alpha * N) have to meet it and are not accepted when left out.
    * Grouped by a key these are the same candidates; with nested masks N also counts those with more layers.
    */
  lemma {:induction false} FittedModelsCover<K(!new)>(models: seq<PCCF<K>>, m: Model<K>, cs: seq<Labelled>, g: K)
    requires Proper(m) && m.mode.Coverage? && CountsForItself(m.part) && LeaveOneOutModels(models, m, cs)
    requires OwnThreshold(CoverageRule(m), cs, g)
    ensures NotAccepted(models, m.part, cs, g, |cs|) <= FloorShare(m.mode.alpha, |TrueScores(m.part, cs, g)|)
  {
    NotAcceptedAreRejections(models, m, cs, g, |cs|);
    LeaveOneOutCoverage(CoverageRule(m), cs, g);
  }

  /** How many calibration candidates have to meet `g` and are accepted. */
  ghost function Accepted<K(!new)>(model: PCCF<K>, cs: seq<Labelled>, g: K): nat
    reads model
  {
    if cs == [] then 0
    else
      var c := cs[|cs| - 1].0;
      Accepted(model, cs[..|cs| - 1], g) + if model.model.part.key(c) == g && model.Accept(c) then 1 else 0
  }

  lemma {:induction false} KeptMore(pool: Pool, x: (real, bool), cut: Cut)
    ensures |KeptBy(pool + [x], cut)| == |KeptBy(pool, cut)| + if Keeps(cut, x.0) then 1 else 0
  {
    assert (pool + [x])[..|pool|] == pool;
  }

  lemma EntryByKey<K>(p: Partition<K>, c: Labelled, g: K)
    requires p == ByKey(p.key)
    ensures Entry(p, c, g) == if p.key(c.0) == g then [(JointScore(c.0), c.1)] else []
  {
  }

  lemma {:induction false} KeptAreAccepted<K(!new)>(model: PCCF<K>, p: Partition<K>, cs: seq<Labelled>, g: K, cut: Cut)
    requires p == model.model.part == ByKey(p.key) && g in model.thresholds && cut == model.thresholds[g]
    ensures |KeptBy(PoolOf(p, cs, g), cut)| == Accepted(model, cs, g)
  {
    if cs != [] {
      var init, c := cs[..|cs| - 1], cs[|cs| - 1];
      KeptAreAccepted(model, p, init, g, cut);
      KeptStep(p, init, c, g, cut);
      assert cs == init + [c];
    }
  }

  lemma {:induction false} KeptStep<K>(p: Partition<K>, init: seq<Labelled>, c: Labelled, g: K, cut: Cut)
    requires p == ByKey(p.key)
    ensures |KeptBy(PoolOf(p, init + [c], g), cut)|
         == |KeptBy(PoolOf(p, init, g), cut)| + if p.key(c.0) == g && Keeps(cut, JointScore(c.0)) then 1 else 0
  {
    var pool := PoolOf(p, init, g);
    PoolMore(p, init, c, g);
    EntryByKey(p, c, g);
    if p.key(c.0) == g {
      KeptMore(pool, (JointScore(c.0), c.1), cut);
    } else {
      assert pool + [] == pool;
    }
  }

  /** Grouped by a key, the recorded count is that of the calibration candidates of the group that accept() keeps. */
  lemma {:induction false} StatsCountAccepted<K(!new)>(model: PCCF<K>, cs: seq<Labelled>, g: K)
    requires Proper(model.model) && model.model.part == ByKey(model.model.part.key) && model.FittedOn(cs) && g in model.thresholds
    ensures g in model.stats && model.stats[g].kept == Accepted(model, cs, g)
    ensures model.stats[g].n == |PoolOf(model.model.part, cs, g)| && model.stats[g].threshold == model.thresholds[g]
  {
    assert FitsAt(model.model, cs, model.thresholds[g], model.stats[g], g);
    KeptAreAccepted(model, model.model.part, cs, g, model.thresholds[g]);
  }
}
