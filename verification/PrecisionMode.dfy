/**
  * PCCF in precision mode (src/pccf.py): each presence pattern seen in the calibration set gets a
  * threshold of its own, tested at delta over the number of patterns seen, and how often any of these
  * thresholds misses the target.
  */
module PrecisionMode {
  import opened Conformal
  import opened Optional
  import opened Precision
  import opened Sampling
  import opened SequenceSearch
  import MonotoneStopping
  import opened Coupling
  import opened GroupedDraws

  datatype Search = FixedSequenceBy(gridSize: nat) | BonferroniOn(grid: seq<real>)

  /** As in coverage mode, groups with fewer than `minGroupTrue` true candidates keep everything or borrow. */
  datatype Settings<!K> = Settings(part: Partition<K>, target: real, delta: real, search: Search, minGroupTrue: nat, keepSmall: bool)

  predicate Proper<K>(s: Settings<K>)
  {
    s.delta > 0.0 && match s.search case FixedSequenceBy(size) => size > 0 case BonferroniOn(grid) => |grid| > 0
  }

  function CutOf(best: Option<real>): Cut
  {
    match best case None => KeepNone case Some(l) => UpTo(l)
  }

  function Tested<K>(s: Settings<K>, pool: Pool, level: real): Option<real>
    requires Proper(s) && pool != []
  {
    match s.search
    case FixedSequenceBy(size) => FixedSequence(pool, s.target, level, Grid(pool, size))
    case BonferroniOn(grid) => FitBonferroni(pool, grid, s.target, level)
  }

  /** The level for each of the patterns. */
  function LevelFor(delta: real, patterns: nat): real
    requires patterns > 0
  {
    delta / patterns as real
  }

  predicate IsSmall<K>(s: Settings<K>, pool: Pool)
  {
    |TruesOf(pool)| < s.minGroupTrue
  }

  /** The groups that some candidate counts toward. */
  function Groups<K(==)>(p: Partition<K>, cs: seq<Labelled>): set<K>
  {
    set i, g | 0 <= i < |cs| && g in p.groups(cs[i].0) :: g
  }

  lemma {:induction false} GroupsAreSeen<K>(p: Partition<K>, cs: seq<Labelled>, g: K)
    ensures g in Groups(p, cs) <==> Seen(p, cs, g)
    ensures g in Groups(p, cs) ==> PoolOf(p, cs, g) != [] && cs != [] && |Groups(p, cs)| > 0
  {
    SeenPool(p, cs, g);
  }

  /** What fit() leaves for a group that some candidate counts toward. */
  function Fitted<K(==)>(s: Settings<K>, cs: seq<Labelled>, g: K): Cut
    requires Proper(s) && g in Groups(s.part, cs)
  {
    GroupsAreSeen(s.part, cs, g);
    var pool := PoolOf(s.part, cs, g);
    if !IsSmall(s, pool) then CutOf(Tested(s, pool, LevelFor(s.delta, |Groups(s.part, cs)|)))
    else if s.keepSmall then KeepAll else CutOf(Tested(s, AllPooled(cs), s.delta))
  }

  // ------------------------------------------------------------------ patterns by a key

  function How<K>(key: Scores -> K): Grouping<Labelled, K>
  {
    Grouping((c: Labelled) => key(c.0), (c: Labelled) => (JointScore(c.0), c.1))
  }

  /** Grouping by a key gives each group the items of its own draws. */
  lemma {:induction false} SamePools<K>(key: Scores -> K, cs: seq<Labelled>, g: K)
    ensures PoolOf(ByKey(key), cs, g) == OwnDraws(How(key), cs, g)
  {
    if cs != [] {
      SamePools(key, cs[..|cs| - 1], g);
    }
  }

  lemma SameGroups<K(!new)>(key: Scores -> K, cs: seq<Labelled>)
    ensures Groups(ByKey(key), cs) == Keys(How(key), cs)
  {
    var p, how := ByKey(key), How(key);
    forall g ensures g in Groups(p, cs) <==> g in Keys(how, cs) {
      if g in Groups(p, cs) {
        var i :| 0 <= i < |cs| && g in p.groups(cs[i].0);
        assert how.key(cs[i]) == g;
      }
      if i :| 0 <= i < |cs| && how.key(cs[i]) == g {
        assert p.groups(cs[i].0) == {g};
        assert g in p.groups(cs[i].0);
      }
    }
    assert Groups(p, cs) == Keys(how, cs);
  }

  // ------------------------------------------------------------------ the guarantee

  ghost predicate MissesIn(src: Source, best: Option<real>, target: real)
    requires |src.items| == |src.q|
  {
    Misses(best, TrueShare(src), target)
  }

  /** The pattern's own test, not a borrowed or open threshold, settled where the pattern's true precision is too low. */
  ghost predicate PatternMisses<K>(s: Settings<K>, d: Draws<Labelled>, cs: seq<Labelled>, g: K)
    requires Proper(s) && |d.items| == |d.q|
  {
    && g in Groups(s.part, cs) && !IsSmall(s, PoolOf(s.part, cs, g))
    && Fitted(s, cs, g).UpTo? && TrueShare(Given(d, How(s.part.key), g))(Fitted(s, cs, g).r) < s.target
  }

  ghost function MissValue<K>(s: Settings<K>, src: Source): GroupValue<K>
    requires Proper(s) && |src.items| == |src.q|
  {
    (pool: Pool, others: set<K>) =>
      if pool != [] && !IsSmall(s, pool) && MissesIn(src, Tested(s, pool, LevelFor(s.delta, |others| + 1)), s.target) then 1.0 else 0.0
  }

  /** A pattern's part of delta, if it is seen. */
  ghost function PartValue<K>(s: Settings<K>): GroupValue<K>
  {
    (pool: Pool, others: set<K>) => if pool != [] then LevelFor(s.delta, |others| + 1) else 0.0
  }

  ghost function TestMisses<K>(s: Settings<K>, src: Source, level: real): Event
    requires Proper(s) && |src.items| == |src.q|
  {
    match s.search
    case FixedSequenceBy(size) => SequenceMisses(src, size, s.target, level)
    case BonferroniOn(grid) => BonferroniMisses(src, grid, s.target, level)
  }

  ghost function Indicator(e: Event): Value<Item>
  {
    (pool: Pool) => if e(pool) then 1.0 else 0.0
  }

  lemma {:induction false} ChanceIsMean(src: Source, n: nat, pool: Pool, e: Event)
    requires |src.items| == |src.q|
    ensures Chance(src, n, pool, e) == MeanWorth(AsDraws(src), n, pool, Indicator(e))
    decreases n, |src.q| + 1
  {
    if n > 0 {
      OverIsMean(src, |src.q|, n, pool, e);
    }
  }

  lemma {:induction false} OverIsMean(src: Source, k: nat, n: nat, pool: Pool, e: Event)
    requires |src.items| == |src.q| && k <= |src.q| && n > 0
    ensures ChanceOver(src, k, n, pool, e) == MeanOver(AsDraws(src), k, n, pool, Indicator(e))
    decreases n, k
  {
    if k > 0 {
      OverIsMean(src, k - 1, n, pool, e);
      ChanceIsMean(src, n - 1, pool + [src.items[k - 1]], e);
    }
  }

  /** Either search misses with probability at most its level. */
  lemma {:induction false} TestRarelyMisses<K>(s: Settings<K>, src: Source, n: nat, level: real)
    requires Proper(s) && IsSource(src) && level > 0.0
    ensures Chance(src, n, [], TestMisses(s, src, level)) <= level
  {
    match s.search
    case FixedSequenceBy(size) => FixedSequenceErrsRarely(src, n, size, s.target, level);
    case BonferroniOn(grid) => BonferroniErrsRarely(src, n, grid, s.target, level);
  }

  lemma PatternNoMore<K(!new)>(s: Settings<K>, src: Source)
    requires Proper(s) && IsSource(src)
    ensures NoMore(src, MissValue(s, src), PartValue(s))
  {
    var f, u, d := MissValue(s, src), PartValue(s), AsDraws(src);
    forall c: nat, others: set<K> ensures MeanWorth(d, c, [], AtOthers(f, others)) <= MeanWorth(d, c, [], AtOthers(u, others)) {
      if c > 0 {
        PartCovers(s, src, c, others);
      }
    }
  }

  lemma {:induction false} PartCovers<K>(s: Settings<K>, src: Source, c: nat, others: set<K>)
    requires Proper(s) && IsSource(src) && c > 0
    ensures MeanWorth(AsDraws(src), c, [], AtOthers(MissValue(s, src), others)) <= MeanWorth(AsDraws(src), c, [], AtOthers(PartValue(s), others))
  {
    var d, level := AsDraws(src), LevelFor(s.delta, |others| + 1);
    PositiveShare(|others| + 1, s.delta);
    var e, all := TestMisses(s, src, level), (pool: Pool) => level;
    MeanMonotone(d, c, [], AtOthers(MissValue(s, src), others), Indicator(e));
    ChanceIsMean(src, c, [], e);
    TestRarelyMisses(s, src, c, level);
    MeanOfConstant(d, c, [], all, level);
    MeanMonotone(d, c, [], all, AtOthers(PartValue(s), others));
  }

  /** Some pattern of `among` misses. */
  ghost function AnyMissValue<K>(s: Settings<K>, d: Draws<Labelled>, among: seq<K>): Value<Labelled>
    requires Proper(s) && |d.items| == |d.q|
  {
    (cs: seq<Labelled>) => if exists g :: g in among && PatternMisses(s, d, cs, g) then 1.0 else 0.0
  }

  ghost function SumOver<K>(ks: seq<K>, part: K -> real): real
  {
    if ks == [] then 0.0 else SumOver(ks[1..], part) + part(ks[0])
  }

  ghost function PartsOf<K>(s: Settings<K>, cs: seq<Labelled>): K -> real
  {
    (g: K) => SeenValue(How(s.part.key), g, PartValue(s))(cs)
  }

  /** The parts of delta that go to the patterns of `among`. */
  ghost function PartsValue<K>(s: Settings<K>, among: seq<K>): Value<Labelled>
  {
    (cs: seq<Labelled>) => SumOver(among, PartsOf(s, cs))
  }

  ghost function Plus<T>(f: Value<T>, g: Value<T>): Value<T>
  {
    (x: seq<T>) => f(x) + g(x)
  }

  lemma OtherKeys<T, K>(how: Grouping<T, K>, cs: seq<T>, g: K)
    requires g in Keys(how, cs)
    ensures |Keys(how, cs) - {g}| + 1 == |Keys(how, cs)|
  {
  }

  lemma MissIsSeen<K(!new)>(s: Settings<K>, d: Draws<Labelled>, cs: seq<Labelled>, g: K)
    requires Proper(s) && |d.items| == |d.q| && s.part == ByKey(s.part.key)
    ensures PatternMisses(s, d, cs, g) ==> SeenValue(How(s.part.key), g, MissValue(s, Given(d, How(s.part.key), g)))(cs) == 1.0
    ensures SeenValue(How(s.part.key), g, MissValue(s, Given(d, How(s.part.key), g)))(cs) >= 0.0
  {
    if PatternMisses(s, d, cs, g) {
      SamePools(s.part.key, cs, g);
      SameGroups(s.part.key, cs);
      SeenDraws(How(s.part.key), cs, g);
      OtherKeys(How(s.part.key), cs, g);
    }
  }

  lemma OneOfMany<K(!new)>(s: Settings<K>, d: Draws<Labelled>, among: seq<K>, cs: seq<Labelled>)
    requires Proper(s) && |d.items| == |d.q| && among != [] && s.part == ByKey(s.part.key)
    ensures AnyMissValue(s, d, among)(cs)
         <= AnyMissValue(s, d, among[1..])(cs) + SeenValue(How(s.part.key), among[0], MissValue(s, Given(d, How(s.part.key), among[0])))(cs)
  {
    MissIsSeen(s, d, cs, among[0]);
    if h :| h in among && PatternMisses(s, d, cs, h) {
      if h != among[0] {
        assert h in among[1..];
      }
    }
  }

  lemma {:induction false} MissesAtMostParts<K(!new)>(s: Settings<K>, d: Draws<Labelled>, n: nat, among: seq<K>)
    requires Proper(s) && IsDraws(d) && s.part == ByKey(s.part.key)
    ensures MeanWorth(d, n, [], AnyMissValue(s, d, among)) <= MeanWorth(d, n, [], PartsValue(s, among))
  {
    if among == [] {
      MeanMonotone(d, n, [], AnyMissValue(s, d, among), PartsValue(s, among));
    } else {
      var g := among[0];
      var f, u := SeenValue(How(s.part.key), g, MissValue(s, Given(d, How(s.part.key), g))), SeenValue(How(s.part.key), g, PartValue(s));
      var rest, parts := AnyMissValue(s, d, among[1..]), PartsValue(s, among[1..]);
      MissesAtMostParts(s, d, n, among[1..]);
      PatternBound(s, d, n, g);
      forall cs ensures AnyMissValue(s, d, among)(cs) <= Plus(rest, f)(cs) {
        OneOfMany(s, d, among, cs);
      }
      MeanMonotone(d, n, [], AnyMissValue(s, d, among), Plus(rest, f));
      MeanAdds(d, n, [], rest, f, Plus(rest, f));
      MeanAdds(d, n, [], parts, u, PartsValue(s, among));
    }
  }

  lemma {:induction false} PatternBound<K(!new)>(s: Settings<K>, d: Draws<Labelled>, n: nat, g: K)
    requires Proper(s) && IsDraws(d)
    ensures MeanWorth(d, n, [], SeenValue(How(s.part.key), g, MissValue(s, Given(d, How(s.part.key), g)))) <= MeanWorth(d, n, [], SeenValue(How(s.part.key), g, PartValue(s)))
  {
    var src := Given(d, How(s.part.key), g);
    if KeyMass(d, How(s.part.key), g, |d.q|) > 0.0 {
      GivenIsSource(d, How(s.part.key), g);
      PatternNoMore(s, src);
    }
    GroupBound(d, How(s.part.key), g, n, MissValue(s, src), PartValue(s));
  }

  // ------------------------------------------------------------------ the parts make up delta

  predicate Distinct<K(==)>(ks: seq<K>)
  {
    forall i, j :: 0 <= i < j < |ks| ==> ks[i] != ks[j]
  }

  lemma {:induction false} EachOnce<K>(seen: set<K>) returns (ks: seq<K>)
    ensures Distinct(ks) && forall k :: k in ks <==> k in seen
    decreases |seen|
  {
    ks := [];
    if g :| g in seen {
      var rest := EachOnce(seen - {g});
      ks := [g] + rest;
    }
  }

  /** How many of `ks` are in the set. */
  function CountIn<K(==)>(ks: seq<K>, seen: set<K>): nat
  {
    if ks == [] then 0 else (if ks[0] in seen then 1 else 0) + CountIn(ks[1..], seen)
  }

  lemma {:induction false} CountDistinct<K>(ks: seq<K>, seen: set<K>)
    requires Distinct(ks)
    ensures CountIn(ks, seen) <= |seen|
    decreases |ks|
  {
    if ks != [] {
      if ks[0] in seen {
        CountDistinct(ks[1..], seen - {ks[0]});
        CountWithout(ks[1..], seen, ks[0]);
      } else {
        CountDistinct(ks[1..], seen);
      }
    }
  }

  lemma {:induction false} CountWithout<K>(ks: seq<K>, seen: set<K>, g: K)
    requires g !in ks
    ensures CountIn(ks, seen - {g}) == CountIn(ks, seen)
  {
    if ks != [] {
      CountWithout(ks[1..], seen, g);
    }
  }

  lemma OnePartMore(n: nat, v: real, x: real)
    requires x == n as real * v
    ensures x + v == (n + 1) as real * v
  {
    TimesNext(n as real, v);
  }

  lemma PartIs<K>(s: Settings<K>, cs: seq<Labelled>, g: K, seen: set<K>, v: real)
    requires seen == Keys(How(s.part.key), cs) && (|seen| > 0 ==> v == LevelFor(s.delta, |seen|))
    ensures SeenValue(How(s.part.key), g, PartValue(s))(cs) == if g in seen then v else 0.0
  {
    SeenDraws(How(s.part.key), cs, g);
    if g in seen {
      OtherKeys(How(s.part.key), cs, g);
    }
  }

  lemma {:induction false} SumByCount<K>(ks: seq<K>, part: K -> real, seen: set<K>, v: real, n: nat, x: real)
    requires (forall g :: part(g) == if g in seen then v else 0.0) && n == CountIn(ks, seen) && x == SumOver(ks, part)
    ensures x == n as real * v
    decreases |ks|
  {
    if ks == [] {
      MonotoneStopping.ZeroTimes(v);
    } else {
      var m, y := CountIn(ks[1..], seen), SumOver(ks[1..], part);
      SumByCount(ks[1..], part, seen, v, m, y);
      OnePartMore(m, v, y);
    }
  }

  lemma ShareOfDelta(n: nat, k: nat, delta: real, v: real, x: real)
    requires n <= k && k > 0 && delta > 0.0 && v == delta / k as real && x == n as real * v
    ensures x <= delta
  {
    PositiveShare(k, delta);
    TimesLe(v, n as real, k as real);
    DivideBack(k as real, delta);
  }

  lemma {:induction false} CountedParts<K>(s: Settings<K>, among: seq<K>, cs: seq<Labelled>, v: real, n: nat, x: real)
    requires |Keys(How(s.part.key), cs)| > 0 ==> v == LevelFor(s.delta, |Keys(How(s.part.key), cs)|)
    requires n == CountIn(among, Keys(How(s.part.key), cs)) && x == SumOver(among, PartsOf(s, cs))
    ensures x == n as real * v
  {
    var seen, part := Keys(How(s.part.key), cs), PartsOf(s, cs);
    forall g ensures part(g) == if g in seen then v else 0.0 {
      PartIs(s, cs, g, seen, v);
    }
    SumByCount(among, part, seen, v, n, x);
  }

  /** Distinct patterns get at most delta among them. */
  lemma {:induction false} PartsAtMostDelta<K>(s: Settings<K>, among: seq<K>, cs: seq<Labelled>, x: real)
    requires Proper(s) && Distinct(among) && x == SumOver(among, PartsOf(s, cs))
    ensures x <= s.delta
  {
    var seen := Keys(How(s.part.key), cs);
    var v := if |seen| > 0 then LevelFor(s.delta, |seen|) else 0.0;
    var n := CountIn(among, seen);
    CountedParts(s, among, cs, v, n, x);
    CountDistinct(among, seen);
    if |seen| > 0 {
      ShareOfDelta(n, |seen|, s.delta, v, x);
    } else {
      MonotoneStopping.ZeroTimes(v);
    }
  }

  /** Some pattern that was seen misses. */
  ghost function SomePatternMisses<K>(s: Settings<K>, d: Draws<Labelled>): Value<Labelled>
    requires Proper(s) && |d.items| == |d.q|
  {
    (cs: seq<Labelled>) => if exists g :: g in Groups(s.part, cs) && PatternMisses(s, d, cs, g) then 1.0 else 0.0
  }

  lemma DrawnKeys<T(!new), K>(d: Draws<T>, how: Grouping<T, K>, cs: seq<T>, k: K)
    requires DrawnOf(d, cs) && k in Keys(how, cs)
    ensures k in Keys(how, d.items)
  {
    var i :| 0 <= i < |cs| && how.key(cs[i]) == k;
    assert cs[i] in cs && cs[i] in d.items;
    var j :| 0 <= j < |d.items| && d.items[j] == cs[i];
    assert how.key(d.items[j]) == k;
  }

  /**
    * The guarantee of precision mode: candidates drawn independently from any distribution, patterns by
    * any key, either search. The number of patterns, which sets the level of each test, and the size of
    * each pool are as random as the draws; the chance that any pattern's own threshold misses the target
    * within that pattern is at most delta all the same.
    */
  lemma {:induction false} PatternsErrRarely<K(!new)>(s: Settings<K>, d: Draws<Labelled>, n: nat)
    requires Proper(s) && IsDraws(d) && s.part == ByKey(s.part.key)
    ensures MeanWorth(d, n, [], SomePatternMisses(s, d)) <= s.delta
  {
    var all := EachOnce(Keys(How(s.part.key), d.items));
    var delta := (cs: seq<Labelled>) => s.delta;
    forall cs | DrawnOf(d, cs) ensures SomePatternMisses(s, d)(cs) <= AnyMissValue(s, d, all)(cs) {
      SameGroups(s.part.key, cs);
      if g :| g in Groups(s.part, cs) && PatternMisses(s, d, cs, g) {
        DrawnKeys(d, How(s.part.key), cs, g);
      }
    }
    MeanMonotone(d, n, [], SomePatternMisses(s, d), AnyMissValue(s, d, all));
    MissesAtMostParts(s, d, n, all);
    forall cs ensures PartsValue(s, all)(cs) <= delta(cs) {
      PartsAtMostDelta(s, all, cs, SumOver(all, PartsOf(s, cs)));
    }
    MeanMonotone(d, n, [], PartsValue(s, all), delta);
    MeanOfConstant(d, n, [], delta, s.delta);
  }
}
