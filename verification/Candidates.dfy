/** Merging the hits of several detection layers into candidates (build_candidates in src/pccf.py). */
module Candidates {
  import opened Sorting
  import opened Optional

  datatype Hit = Hit(etype: string, start: int, end: int, confidence: real)

  datatype LayerHit = LayerHit(layer: string, hit: Hit)

  datatype Candidate = Candidate(etype: string, start: int, end: int, members: seq<LayerHit>, scores: map<string, real>)

  // ------------------------------------------------------------------------- sort order

  predicate StrLe(a: string, b: string)
  {
    a == [] || (b != [] && (a[0] < b[0] || (a[0] == b[0] && StrLe(a[1..], b[1..]))))
  }

  lemma {:induction false} StrLeOrder(a: string, b: string, c: string)
    ensures StrLe(a, b) || StrLe(b, a)
    ensures StrLe(a, b) && StrLe(b, a) ==> a == b
    ensures StrLe(a, b) && StrLe(b, c) ==> StrLe(a, c)
    decreases |a|
  {
    if a != [] && b != [] {
      StrLeOrder(a[1..], b[1..], if c != [] then c[1..] else []);
      assert a == [a[0]] + a[1..] && b == [b[0]] + b[1..];
    }
  }

  /** The tuple (type, start, end) that the hits are sorted by. */
  datatype Key = Key(etype: string, start: int, end: int)

  function KeyOf(x: LayerHit): Key { Key(x.hit.etype, x.hit.start, x.hit.end) }

  predicate KeyLe(a: Key, b: Key)
  {
    if a.etype != b.etype then StrLe(a.etype, b.etype)
    else a.start < b.start || (a.start == b.start && a.end <= b.end)
  }

  predicate HitLe(a: LayerHit, b: LayerHit) { KeyLe(KeyOf(a), KeyOf(b)) }

  lemma KeyOrder()
    ensures TotalPreorder(KeyLe) && TotalPreorder(HitLe)
    ensures forall a, b :: KeyLe(a, b) && KeyLe(b, a) ==> a == b
  {
    forall a: Key, b: Key, c: Key
      ensures KeyLe(a, b) || KeyLe(b, a)
      ensures KeyLe(a, b) && KeyLe(b, a) ==> a == b
      ensures KeyLe(a, b) && KeyLe(b, c) ==> KeyLe(a, c)
    {
      StrLeOrder(a.etype, b.etype, c.etype);
      StrLeOrder(b.etype, c.etype, a.etype);
    }
    assert TotalPreorder(KeyLe);
  }

  // ------------------------------------------------------------------------- the merge

  function Min(a: real, b: real): real { if a <= b then a else b }

  function Max(a: int, b: int): int { if a >= b then a else b }

  function Scored(scores: map<string, real>, x: LayerHit): map<string, real>
  {
    var r := 1.0 - x.hit.confidence;
    scores[x.layer := if x.layer in scores then Min(scores[x.layer], r) else r]
  }

  function Opened(x: LayerHit): Candidate
  {
    Candidate(x.hit.etype, x.hit.start, x.hit.end, [x], Scored(map[], x))
  }

  function Grown(c: Candidate, x: LayerHit): Candidate
  {
    c.(end := Max(c.end, x.hit.end), members := c.members + [x], scores := Scored(c.scores, x))
  }

  predicate Joins(cands: seq<Candidate>, x: LayerHit)
  {
    cands != [] && cands[|cands| - 1].etype == x.hit.etype && x.hit.start < cands[|cands| - 1].end
  }

  function Place(cands: seq<Candidate>, x: LayerHit): seq<Candidate>
  {
    if Joins(cands, x) then cands[..|cands| - 1] + [Grown(cands[|cands| - 1], x)] else cands + [Opened(x)]
  }

  function Scan(hits: seq<LayerHit>): seq<Candidate>
  {
    if hits == [] then [] else Place(Scan(hits[..|hits| - 1]), hits[|hits| - 1])
  }

  function Wanted(layer: string, hits: seq<Hit>, etype: Option<string>): seq<LayerHit>
  {
    if hits == [] then []
    else (if etype.None? || hits[0].etype == etype.value then [LayerHit(layer, hits[0])] else [])
         + Wanted(layer, hits[1..], etype)
  }

  /** All hits of all layers, optionally of one type only, in dictionary order. */
  function Flat(layers: seq<(string, seq<Hit>)>, etype: Option<string>): seq<LayerHit>
  {
    if layers == [] then [] else Wanted(layers[0].0, layers[0].1, etype) + Flat(layers[1..], etype)
  }

  function Build(flat: seq<LayerHit>): seq<Candidate>
  {
    Scan(Sort(HitLe, flat))
  }

  lemma ScanStep(hits: seq<LayerHit>, i: nat)
    requires i < |hits|
    ensures Scan(hits[..i + 1]) == Place(Scan(hits[..i]), hits[i])
  {
    assert hits[..i + 1][..i] == hits[..i];
  }

  method BuildCandidates(layers: seq<(string, seq<Hit>)>, etype: Option<string>) returns (cands: seq<Candidate>)
    ensures cands == Build(Flat(layers, etype))
  {
    var flat := Sort(HitLe, Flat(layers, etype));
    cands := [];
    for i := 0 to |flat|
      invariant cands == Scan(flat[..i])
    {
      var x := flat[i];
      ScanStep(flat, i);
      var last := |cands| - 1;
      if last >= 0 && cands[last].etype == x.hit.etype && x.hit.start < cands[last].end {
        cands := cands[..last] + [Grown(cands[last], x)];
      } else {
        cands := cands + [Opened(x)];
      }
    }
    assert flat[..|flat|] == flat;
  }

  // -------------------------------------------------------------- what a candidate holds

  predicate NonEmpty(x: LayerHit) { x.hit.start < x.hit.end }

  ghost predicate ScoresOf(scores: map<string, real>, members: seq<LayerHit>)
  {
    && (forall l :: l in scores ==>
          exists k :: 0 <= k < |members| && members[k].layer == l && scores[l] == 1.0 - members[k].hit.confidence)
    && (forall k :: 0 <= k < |members| ==>
          members[k].layer in scores && scores[members[k].layer] <= 1.0 - members[k].hit.confidence)
  }

  ghost predicate Fits(c: Candidate, x: LayerHit)
  {
    x.hit.etype == c.etype && NonEmpty(x) && c.start <= x.hit.start && x.hit.end <= c.end
  }

  ghost predicate IsHull(c: Candidate)
  {
    && c.members != [] && c.start == c.members[0].hit.start
    && (forall k :: 0 <= k < |c.members| ==> Fits(c, c.members[k]))
    && (exists k :: 0 <= k < |c.members| && c.members[k].hit.end == c.end)
  }

  /** Same-type members whose hull is exactly [start, end), each reaching back into an earlier one. */
  ghost predicate Sound(c: Candidate)
  {
    IsHull(c) && AllReachBack(c.members) && ScoresOf(c.scores, c.members)
  }

  ghost predicate AllReachBack(members: seq<LayerHit>)
  {
    forall k :: 0 < k < |members| ==> ReachesBack(members, k)
  }

  ghost predicate ReachesBack(members: seq<LayerHit>, k: nat)
    requires k < |members|
  {
    exists j :: 0 <= j < k && members[j].hit.start <= members[k].hit.start < members[j].hit.end
  }

  ghost predicate Apart(a: Candidate, b: Candidate)
  {
    a.etype == b.etype ==> a.end <= b.start
  }

  ghost predicate Separate(cands: seq<Candidate>)
  {
    forall i, j :: 0 <= i < j < |cands| ==> Apart(cands[i], cands[j])
  }

  function AllMembers(cands: seq<Candidate>): seq<LayerHit>
  {
    if cands == [] then [] else AllMembers(cands[..|cands| - 1]) + cands[|cands| - 1].members
  }

  lemma ScoresGrow(scores: map<string, real>, members: seq<LayerHit>, x: LayerHit)
    requires ScoresOf(scores, members)
    ensures ScoresOf(Scored(scores, x), members + [x])
  {
    var now, all := Scored(scores, x), members + [x];
    forall l | l in now
      ensures exists k :: 0 <= k < |all| && all[k].layer == l && now[l] == 1.0 - all[k].hit.confidence
    {
      if l == x.layer && now[l] == 1.0 - x.hit.confidence {
        assert all[|members|] == x;
      } else {
        var k :| 0 <= k < |members| && members[k].layer == l && scores[l] == 1.0 - members[k].hit.confidence;
        assert all[k] == members[k];
      }
    }
  }

  lemma FirstScore(x: LayerHit)
    ensures ScoresOf(Scored(map[], x), [x])
  {
    ScoresGrow(map[], [], x);
    assert [] + [x] == [x];
  }

  lemma OpenedIsSound(x: LayerHit)
    requires NonEmpty(x)
    ensures Sound(Opened(x))
  {
    var c := Opened(x);
    FirstScore(x);
    assert c.members == [x] && c.members[0].hit.end == c.end;
  }

  lemma MoreReachBack(members: seq<LayerHit>, x: LayerHit)
    requires AllReachBack(members)
    requires exists j :: 0 <= j < |members| && members[j].hit.start <= x.hit.start < members[j].hit.end
    ensures AllReachBack(members + [x])
  {
    var all := members + [x];
    forall k | 0 < k < |all| ensures ReachesBack(all, k) {
      if k < |members| {
        assert ReachesBack(members, k);
        var j :| 0 <= j < k && members[j].hit.start <= members[k].hit.start < members[j].hit.end;
        assert all[j] == members[j] && all[k] == members[k];
      } else {
        var j :| 0 <= j < |members| && members[j].hit.start <= x.hit.start < members[j].hit.end;
        assert all[j] == members[j];
      }
    }
  }

  lemma HullGrows(c: Candidate, x: LayerHit) returns (top: nat)
    requires IsHull(c) && NonEmpty(x) && x.hit.etype == c.etype && c.start <= x.hit.start
    ensures IsHull(Grown(c, x)) && top < |c.members| && c.members[top].hit.end == c.end
  {
    var g := Grown(c, x);
    top :| top < |c.members| && c.members[top].hit.end == c.end;
    forall k | 0 <= k < |g.members| ensures Fits(g, g.members[k]) {
      if k < |c.members| {
        assert g.members[k] == c.members[k] && Fits(c, c.members[k]);
      }
    }
    assert g.members[if x.hit.end > c.end then |c.members| else top].hit.end == g.end;
  }

  lemma GrownIsSound(c: Candidate, x: LayerHit)
    requires Sound(c) && NonEmpty(x) && x.hit.etype == c.etype && x.hit.start < c.end
    requires forall k :: 0 <= k < |c.members| ==> c.members[k].hit.start <= x.hit.start
    ensures Sound(Grown(c, x))
  {
    assert c.members[0].hit.start <= x.hit.start;
    var top := HullGrows(c, x);
    assert c.members[top].hit.start <= x.hit.start < c.members[top].hit.end;
    ScoresGrow(c.scores, c.members, x);
    MoreReachBack(c.members, x);
  }

  /** What holds of the candidates built so far from a sorted prefix. */
  ghost predicate ScanOk(cands: seq<Candidate>, hits: seq<LayerHit>)
  {
    && AllMembers(cands) == hits && Separate(cands)
    && (forall i :: 0 <= i < |cands| ==> Sound(cands[i]))
  }

  lemma {:induction false} MembersAreHits(cands: seq<Candidate>, i: nat, k: nat)
    requires i < |cands| && k < |cands[i].members|
    ensures cands[i].members[k] in AllMembers(cands)
  {
    if i < |cands| - 1 {
      MembersAreHits(cands[..|cands| - 1], i, k);
    }
  }

  lemma {:induction false} HitsAreMembers(cands: seq<Candidate>, x: LayerHit)
    requires x in AllMembers(cands)
    ensures exists i :: 0 <= i < |cands| && x in cands[i].members
  {
    var n := |cands| - 1;
    if x in cands[n].members {
    } else {
      HitsAreMembers(cands[..n], x);
      var i :| 0 <= i < |cands[..n]| && x in cands[..n][i].members;
      assert cands[i] == cands[..n][i];
    }
  }

  /** The members of an earlier candidate precede those of the last one in the sorted list. */
  lemma LastTypeIsLatest(cands: seq<Candidate>, hits: seq<LayerHit>, i: nat)
    requires ScanOk(cands, hits) && SortedBy(HitLe, hits) && i < |cands|
    ensures cands[i].etype != cands[|cands| - 1].etype ==> StrLe(cands[i].etype, cands[|cands| - 1].etype)
  {
    var n := |cands| - 1;
    assert Sound(cands[i]) && Sound(cands[n]);
    if i < n {
      MembersAreHits(cands[..n], i, 0);
      var before := AllMembers(cands[..n]);
      var a :| 0 <= a < |before| && before[a] == cands[i].members[0];
      assert hits == before + cands[n].members;
      assert HitLe(hits[a], hits[|before|]);
    }
  }

  lemma {:induction false} MemberIsBefore(cands: seq<Candidate>, hits: seq<LayerHit>, x: LayerHit, i: nat, k: nat)
    requires AllMembers(cands) == hits && SortedBy(HitLe, hits + [x]) && i < |cands| && k < |cands[i].members|
    ensures HitLe(cands[i].members[k], x)
  {
    MembersAreHits(cands, i, k);
    var a :| 0 <= a < |hits| && hits[a] == cands[i].members[k];
    assert (hits + [x])[a] == hits[a] && (hits + [x])[|hits|] == x;
  }

  lemma SortedPrefix(hits: seq<LayerHit>, x: LayerHit)
    requires SortedBy(HitLe, hits + [x])
    ensures SortedBy(HitLe, hits)
  {
    assert forall a :: 0 <= a < |hits| ==> hits[a] == (hits + [x])[a];
  }

  lemma SameTypeIsLast(cands: seq<Candidate>, hits: seq<LayerHit>, x: LayerHit, i: nat)
    requires ScanOk(cands, hits) && SortedBy(HitLe, hits + [x]) && i < |cands| && cands[i].etype == x.hit.etype
    ensures cands[i].start <= x.hit.start && cands[|cands| - 1].etype == x.hit.etype
  {
    var l := cands[|cands| - 1];
    assert Sound(cands[i]) && Sound(l);
    assert Fits(cands[i], cands[i].members[0]) && Fits(l, l.members[0]);
    SortedPrefix(hits, x);
    MemberIsBefore(cands, hits, x, i, 0);
    MemberIsBefore(cands, hits, x, |cands| - 1, 0);
    LastTypeIsLatest(cands, hits, i);
    StrLeOrder(l.etype, x.hit.etype, x.hit.etype);
  }

  lemma SameTypeStartsEarlier(cands: seq<Candidate>, hits: seq<LayerHit>, x: LayerHit, i: nat, k: nat)
    requires ScanOk(cands, hits) && SortedBy(HitLe, hits + [x]) && i < |cands| && cands[i].etype == x.hit.etype
    requires k < |cands[i].members|
    ensures cands[i].members[k].hit.start <= x.hit.start
  {
    assert Sound(cands[i]) && Fits(cands[i], cands[i].members[k]);
    MemberIsBefore(cands, hits, x, i, k);
  }

  lemma GrowSeparates(cands: seq<Candidate>, x: LayerHit)
    requires Separate(cands) && Joins(cands, x)
    ensures Separate(Place(cands, x))
  {
    var next := Place(cands, x);
    forall i, j | 0 <= i < j < |next| ensures Apart(next[i], next[j]) {
      assert Apart(cands[i], cands[j]);
    }
  }

  lemma {:induction false} GrowAddsMember(cands: seq<Candidate>, x: LayerHit)
    requires Joins(cands, x)
    ensures AllMembers(Place(cands, x)) == AllMembers(cands) + [x]
  {
    var next, n := Place(cands, x), |cands|;
    assert next[..n - 1] == cands[..n - 1];
    assert AllMembers(next) == AllMembers(cands[..n - 1]) + (cands[n - 1].members + [x]);
  }

  lemma GrowKeepsOk(cands: seq<Candidate>, hits: seq<LayerHit>, x: LayerHit, last: Candidate)
    requires ScanOk(cands, hits) && NonEmpty(x) && Joins(cands, x) && last == cands[|cands| - 1]
    requires forall k :: 0 <= k < |last.members| ==> last.members[k].hit.start <= x.hit.start
    ensures ScanOk(Place(cands, x), hits + [x])
  {
    assert Sound(last);
    GrownIsSound(last, x);
    GrowSeparates(cands, x);
    GrowAddsMember(cands, x);
  }

  lemma OpenedIsApart(cands: seq<Candidate>, hits: seq<LayerHit>, x: LayerHit, i: nat, last: Candidate)
    requires ScanOk(cands, hits) && !Joins(cands, x) && i < |cands| && last == cands[|cands| - 1]
    requires cands[i].etype == x.hit.etype ==> last.etype == x.hit.etype
    ensures Apart(cands[i], Opened(x))
  {
    if cands[i].etype == x.hit.etype && i < |cands| - 1 {
      assert Sound(last);
      assert NonEmpty(last.members[0]);
      assert Apart(cands[i], last);
    }
  }

  lemma OpenKeepsOk(cands: seq<Candidate>, hits: seq<LayerHit>, x: LayerHit)
    requires ScanOk(cands, hits) && NonEmpty(x) && !Joins(cands, x)
    requires forall i :: 0 <= i < |cands| ==> Apart(cands[i], Opened(x))
    ensures ScanOk(Place(cands, x), hits + [x])
  {
    var next, n := Place(cands, x), |cands|;
    OpenedIsSound(x);
    assert next[..n] == cands;
    forall i, j | 0 <= i < j < |next| ensures Apart(next[i], next[j]) {
      if j < n {
        assert Apart(cands[i], cands[j]);
      }
    }
  }

  lemma PlaceKeepsOk(cands: seq<Candidate>, hits: seq<LayerHit>, x: LayerHit)
    requires ScanOk(cands, hits) && SortedBy(HitLe, hits + [x]) && NonEmpty(x)
    ensures ScanOk(Place(cands, x), hits + [x])
  {
    if Joins(cands, x) {
      var last := cands[|cands| - 1];
      forall k | 0 <= k < |last.members| ensures last.members[k].hit.start <= x.hit.start {
        SameTypeStartsEarlier(cands, hits, x, |cands| - 1, k);
      }
      GrowKeepsOk(cands, hits, x, last);
    } else {
      forall i | 0 <= i < |cands| ensures Apart(cands[i], Opened(x)) {
        if cands[i].etype == x.hit.etype {
          SameTypeIsLast(cands, hits, x, i);
        }
        OpenedIsApart(cands, hits, x, i, cands[|cands| - 1]);
      }
      OpenKeepsOk(cands, hits, x);
    }
  }

  lemma {:induction false} ScanIsOk(hits: seq<LayerHit>)
    requires SortedBy(HitLe, hits) && forall x :: x in hits ==> NonEmpty(x)
    ensures ScanOk(Scan(hits), hits)
  {
    if hits != [] {
      var n := |hits| - 1;
      assert hits == hits[..n] + [hits[n]];
      ScanIsOk(hits[..n]);
      PlaceKeepsOk(Scan(hits[..n]), hits[..n], hits[n]);
    }
  }

  ghost predicate AllNonEmpty(flat: seq<LayerHit>)
  {
    forall x :: x in flat ==> NonEmpty(x)
  }

  /**
    * The candidates partition the hits: members together are the input hits, each candidate spans
    * exactly its members with the minimum score per layer, same-type candidates do not overlap.
    */
  lemma {:induction false} BuildIsOk(flat: seq<LayerHit>)
    requires AllNonEmpty(flat)
    ensures ScanOk(Build(flat), Sort(HitLe, flat))
    ensures multiset(AllMembers(Build(flat))) == multiset(flat)
  {
    KeyOrder();
    SortSorts(HitLe, flat);
    SameElements(flat, Sort(HitLe, flat));
    ScanIsOk(Sort(HitLe, flat));
  }

  // ------------------------------------------------------------------------------ chains

  predicate Touch(x: LayerHit, y: LayerHit)
  {
    x.hit.etype == y.hit.etype && x.hit.start < y.hit.end && y.hit.start < x.hit.end
  }

  ghost predicate Chain(flat: seq<LayerHit>, path: seq<LayerHit>, x: LayerHit, y: LayerHit)
  {
    && path != [] && path[0] == x && path[|path| - 1] == y
    && (forall i :: 0 <= i < |path| ==> path[i] in flat)
    && (forall i :: 0 <= i < |path| - 1 ==> Touch(path[i], path[i + 1]))
  }

  ghost predicate Together(cands: seq<Candidate>, x: LayerHit, y: LayerHit)
  {
    exists i :: 0 <= i < |cands| && x in cands[i].members && y in cands[i].members
  }

  lemma ApartMeansNoTouch(a: Candidate, b: Candidate, x: LayerHit, y: LayerHit)
    requires Sound(a) && Sound(b) && Apart(a, b) && x in a.members && y in b.members
    ensures !Touch(x, y) && !Touch(y, x)
  {
  }

  lemma DifferentHomesDoNotTouch(cands: seq<Candidate>, hits: seq<LayerHit>, x: LayerHit, y: LayerHit, i: nat, j: nat)
    requires ScanOk(cands, hits) && i < j < |cands|
    requires x in cands[i].members && y in cands[j].members
    ensures !Touch(x, y) && !Touch(y, x)
  {
    assert Apart(cands[i], cands[j]);
    ApartMeansNoTouch(cands[i], cands[j], x, y);
  }

  lemma HomeIsUnique(cands: seq<Candidate>, hits: seq<LayerHit>, x: LayerHit, y: LayerHit, i: nat, j: nat)
    requires ScanOk(cands, hits) && i < |cands| && j < |cands| && Touch(x, y)
    requires x in cands[i].members && y in cands[j].members
    ensures i == j
  {
    if i < j {
      DifferentHomesDoNotTouch(cands, hits, x, y, i, j);
    } else if j < i {
      DifferentHomesDoNotTouch(cands, hits, y, x, j, i);
    }
  }

  lemma ChainTail(flat: seq<LayerHit>, path: seq<LayerHit>, x: LayerHit, y: LayerHit)
    requires Chain(flat, path, x, y) && |path| > 1
    ensures Touch(x, path[1]) && path[1] in flat && Chain(flat, path[1..], path[1], y)
  {
    var rest := path[1..];
    assert Touch(path[0], path[0 + 1]);
    forall k | 0 <= k < |rest| - 1 ensures Touch(rest[k], rest[k + 1]) {
      assert Touch(path[k + 1], path[k + 1 + 1]);
    }
  }

  lemma {:induction false} ChainStaysHome(cands: seq<Candidate>, hits: seq<LayerHit>, path: seq<LayerHit>, x: LayerHit, y: LayerHit, i: nat)
    requires ScanOk(cands, hits) && Chain(hits, path, x, y) && i < |cands| && x in cands[i].members
    ensures y in cands[i].members
    decreases |path|
  {
    if |path| > 1 {
      ChainTail(hits, path, x, y);
      HitsAreMembers(cands, path[1]);
      var j :| 0 <= j < |cands| && path[1] in cands[j].members;
      HomeIsUnique(cands, hits, x, path[1], i, j);
      ChainStaysHome(cands, hits, path[1..], path[1], y, i);
    }
  }

  /** Walking back from member k to the first member of its candidate. */
  lemma {:induction false} WalkBack(c: Candidate, k: nat) returns (path: seq<LayerHit>)
    requires Sound(c) && k < |c.members|
    ensures Chain(c.members, path, c.members[k], c.members[0])
    decreases k
  {
    if k == 0 {
      path := [c.members[0]];
    } else {
      assert ReachesBack(c.members, k);
      var j :| 0 <= j < k && c.members[j].hit.start <= c.members[k].hit.start < c.members[j].hit.end;
      var rest := WalkBack(c, j);
      path := [c.members[k]] + rest;
      forall i | 0 <= i < |path| - 1 ensures Touch(path[i], path[i + 1]) {
        if i > 0 {
          assert path[i] == rest[i - 1] && path[i + 1] == rest[i - 1 + 1];
          assert Touch(rest[i - 1], rest[i - 1 + 1]);
        }
      }
    }
  }

  lemma {:induction false} ReverseChain(flat: seq<LayerHit>, path: seq<LayerHit>, x: LayerHit, y: LayerHit) returns (back: seq<LayerHit>)
    requires Chain(flat, path, x, y)
    ensures Chain(flat, back, y, x)
  {
    var n := |path|;
    back := seq(n, i requires 0 <= i < n => path[n - 1 - i]);
    forall i | 0 <= i < n - 1 ensures Touch(back[i], back[i + 1]) {
      assert Touch(path[n - 2 - i], path[n - 2 - i + 1]);
    }
  }

  lemma JoinChains(flat: seq<LayerHit>, p: seq<LayerHit>, q: seq<LayerHit>, x: LayerHit, y: LayerHit, z: LayerHit)
    requires Chain(flat, p, x, y) && Chain(flat, q, y, z)
    ensures Chain(flat, p + q[1..], x, z)
  {
    var r := p + q[1..];
    forall i | 0 <= i < |r| - 1 ensures Touch(r[i], r[i + 1]) {
      if i < |p| - 1 {
        assert Touch(p[i], p[i + 1]);
      } else {
        assert r[i] == q[i - |p| + 1] && r[i + 1] == q[i - |p| + 1 + 1];
        assert Touch(q[i - |p| + 1], q[i - |p| + 1 + 1]);
      }
    }
  }

  /**
    * Two hits end up in one candidate exactly when a chain of overlapping hits of their type joins
    * them; the chain may pass through any layers.
    */
  lemma TogetherIffChained(flat: seq<LayerHit>, x: LayerHit, y: LayerHit)
    requires AllNonEmpty(flat) && x in flat && y in flat
    ensures Together(Build(flat), x, y) <==> exists path :: Chain(flat, path, x, y)
  {
    var cands, hits := Build(flat), Sort(HitLe, flat);
    BuildIsOk(flat);
    KeyOrder();
    SortSorts(HitLe, flat);
    SameElements(flat, hits);
    if Together(cands, x, y) {
      var i :| 0 <= i < |cands| && x in cands[i].members && y in cands[i].members;
      var path := ChainInside(cands, hits, i, x, y);
      assert Chain(flat, path, x, y);
    }
    if path :| Chain(flat, path, x, y) {
      HitsAreMembers(cands, x);
      var i :| 0 <= i < |cands| && x in cands[i].members;
      ChainStaysHome(cands, hits, path, x, y, i);
    }
  }

  lemma ChainOfMembers(c: Candidate, x: LayerHit, y: LayerHit) returns (path: seq<LayerHit>)
    requires Sound(c) && x in c.members && y in c.members
    ensures Chain(c.members, path, x, y)
  {
    var k := PlaceOf(c.members, x);
    var l := PlaceOf(c.members, y);
    var p := WalkBack(c, k);
    var q := WalkBack(c, l);
    var back := ReverseChain(c.members, q, y, c.members[0]);
    JoinChains(c.members, p, back, x, c.members[0], y);
    path := p + back[1..];
  }

  lemma ChainInside(cands: seq<Candidate>, hits: seq<LayerHit>, i: nat, x: LayerHit, y: LayerHit) returns (path: seq<LayerHit>)
    requires ScanOk(cands, hits) && i < |cands| && x in cands[i].members && y in cands[i].members
    ensures Chain(hits, path, x, y)
  {
    assert Sound(cands[i]);
    path := ChainOfMembers(cands[i], x, y);
    WidenChain(cands, hits, i, path, x, y);
  }

  lemma {:induction false} MemberIsHit(cands: seq<Candidate>, hits: seq<LayerHit>, x: LayerHit, i: nat)
    requires AllMembers(cands) == hits && i < |cands| && x in cands[i].members
    ensures x in hits
  {
    var b :| 0 <= b < |cands[i].members| && cands[i].members[b] == x;
    MembersAreHits(cands, i, b);
  }

  lemma WidenChain(cands: seq<Candidate>, hits: seq<LayerHit>, i: nat, path: seq<LayerHit>, x: LayerHit, y: LayerHit)
    requires ScanOk(cands, hits) && i < |cands| && Chain(cands[i].members, path, x, y)
    ensures Chain(hits, path, x, y)
  {
    forall a | 0 <= a < |path| ensures path[a] in hits {
      MemberIsHit(cands, hits, path[a], i);
    }
  }

  // ------------------------------------------------------------------ order independence

  function Keys(hits: seq<LayerHit>): seq<Key>
  {
    seq(|hits|, i requires 0 <= i < |hits| => KeyOf(hits[i]))
  }

  lemma WithoutOne<T>(t: seq<T>, j: nat)
    requires j < |t|
    ensures multiset(t[..j] + t[j + 1..]) == multiset(t) - multiset{t[j]}
    ensures multiset(t) == multiset(t[..j] + t[j + 1..]) + multiset{t[j]}
  {
    assert t == t[..j] + [t[j]] + t[j + 1..];
  }

  lemma KeysWithoutOne(t: seq<LayerHit>, j: nat)
    requires j < |t|
    ensures Keys(t)[..j] + Keys(t)[j + 1..] == Keys(t[..j] + t[j + 1..])
  {
  }

  lemma KeysSplit(t: seq<LayerHit>, j: nat)
    requires j < |t|
    ensures multiset(Keys(t)) == multiset(Keys(t[..j] + t[j + 1..])) + multiset{KeyOf(t[j])}
  {
    WithoutOne(Keys(t), j);
    KeysWithoutOne(t, j);
  }

  lemma SameAfterRemoval<T>(s: seq<T>, t: seq<T>, i: nat, j: nat)
    requires i < |s| && j < |t| && s[i] == t[j] && multiset(s) == multiset(t)
    ensures multiset(s[..i] + s[i + 1..]) == multiset(t[..j] + t[j + 1..])
  {
    WithoutOne(s, i);
    WithoutOne(t, j);
  }

  lemma {:induction false} KeysPermute(s: seq<LayerHit>, t: seq<LayerHit>)
    requires multiset(s) == multiset(t)
    ensures multiset(Keys(s)) == multiset(Keys(t))
    decreases |s|
  {
    SameElements(s, t);
    if |s| > 0 {
      var j := PlaceOf(t, s[0]);
      SameAfterRemoval(s, t, 0, j);
      KeysPermute(s[..0] + s[1..], t[..j] + t[j + 1..]);
      KeysSplit(s, 0);
      KeysSplit(t, j);
    } else {
      assert |t| == 0;
    }
  }

  lemma PlaceOf<T>(t: seq<T>, x: T) returns (j: nat)
    requires x in t
    ensures j < |t| && t[j] == x
  {
    j :| j < |t| && t[j] == x;
  }

  ghost predicate SameOutline(a: seq<Candidate>, b: seq<Candidate>)
  {
    |a| == |b| && forall i :: 0 <= i < |a| ==> a[i].etype == b[i].etype && a[i].start == b[i].start && a[i].end == b[i].end
  }

  lemma KeysPrefix(s: seq<LayerHit>, n: nat)
    requires n < |s|
    ensures Keys(s[..n]) == Keys(s)[..n] && Keys(s)[n] == KeyOf(s[n])
  {
  }

  lemma OutlineStep(a: seq<Candidate>, b: seq<Candidate>, x: LayerHit, y: LayerHit)
    requires SameOutline(a, b) && KeyOf(x) == KeyOf(y)
    ensures SameOutline(Place(a, x), Place(b, y))
  {
  }

  /** Where candidates begin and end depends on the sort keys only. */
  lemma {:induction false} OutlineByKeys(s: seq<LayerHit>, t: seq<LayerHit>)
    requires |s| == |t| && Keys(s) == Keys(t)
    ensures SameOutline(Scan(s), Scan(t))
    decreases |s|
  {
    if |s| > 0 {
      var n := |s| - 1;
      KeysPrefix(s, n);
      KeysPrefix(t, n);
      OutlineByKeys(s[..n], t[..n]);
      OutlineStep(Scan(s[..n]), Scan(t[..n]), s[n], t[n]);
    }
  }

  lemma {:induction false} CountInHome(cands: seq<Candidate>, x: LayerHit, i: nat)
    requires i < |cands| && forall j :: 0 <= j < |cands| && j != i ==> x !in cands[j].members
    ensures multiset(AllMembers(cands))[x] == multiset(cands[i].members)[x]
  {
    var n := |cands| - 1;
    var before := cands[..n];
    if i < n {
      CountInHome(before, x, i);
      assert x !in multiset(cands[n].members);
    } else {
      NotAmongMembers(before, x);
      assert x !in multiset(AllMembers(before));
    }
  }

  lemma {:induction false} NotAmongMembers(cands: seq<Candidate>, x: LayerHit)
    requires forall j :: 0 <= j < |cands| ==> x !in cands[j].members
    ensures x !in AllMembers(cands)
  {
    if x in AllMembers(cands) {
      HitsAreMembers(cands, x);
    }
  }

  lemma HomeCount(cands: seq<Candidate>, hits: seq<LayerHit>, x: LayerHit, i: nat)
    requires ScanOk(cands, hits) && i < |cands| && x in cands[i].members
    ensures multiset(hits)[x] == multiset(cands[i].members)[x]
  {
    assert Sound(cands[i]);
    forall j | 0 <= j < |cands| && j != i ensures x !in cands[j].members {
      if x in cands[j].members {
        HomeIsUnique(cands, hits, x, x, i, j);
      }
    }
    CountInHome(cands, x, i);
  }

  lemma RangesDiffer(b: seq<Candidate>, t: seq<LayerHit>, x: LayerHit, i: nat, j: nat)
    requires ScanOk(b, t) && i < |b| && j < |b| && i != j && x in b[j].members
    ensures !(b[i].etype == x.hit.etype && b[i].start <= x.hit.start < b[i].end)
  {
    assert Sound(b[i]) && Sound(b[j]);
    if i < j {
      assert Apart(b[i], b[j]);
    } else {
      assert Apart(b[j], b[i]);
    }
  }

  lemma MemberInRange(c: Candidate, x: LayerHit)
    requires Sound(c) && x in c.members
    ensures c.etype == x.hit.etype && c.start <= x.hit.start < c.end
  {
  }

  /** A hit has the same home in both results. */
  lemma SameHome(a: seq<Candidate>, s: seq<LayerHit>, b: seq<Candidate>, t: seq<LayerHit>, x: LayerHit, i: nat)
    requires ScanOk(a, s) && ScanOk(b, t) && SameOutline(a, b) && i < |a|
    requires x in a[i].members && x in t
    ensures x in b[i].members
  {
    HitsAreMembers(b, x);
    var j: nat :| j < |b| && x in b[j].members;
    MemberInRange(a[i], x);
    if i != j {
      RangesDiffer(b, t, x, i, j);
    }
  }

  lemma SameCount(a: seq<Candidate>, s: seq<LayerHit>, b: seq<Candidate>, t: seq<LayerHit>, x: LayerHit, i: nat)
    requires ScanOk(a, s) && ScanOk(b, t) && SameOutline(a, b) && i < |a|
    requires multiset(s) == multiset(t) && x in a[i].members
    ensures multiset(a[i].members)[x] == multiset(b[i].members)[x]
  {
    MemberIsHit(a, s, x, i);
    SameElements(s, t);
    SameHome(a, s, b, t, x, i);
    HomeCount(a, s, x, i);
    HomeCount(b, t, x, i);
  }

  lemma OutlineFlips(a: seq<Candidate>, b: seq<Candidate>)
    requires SameOutline(a, b)
    ensures SameOutline(b, a)
  {
  }

  lemma CountOfAbsent<T>(s: seq<T>, x: T)
    requires x !in s
    ensures multiset(s)[x] == 0
  {
  }

  lemma SameCountAnywhere(a: seq<Candidate>, s: seq<LayerHit>, b: seq<Candidate>, t: seq<LayerHit>, x: LayerHit, i: nat)
    requires ScanOk(a, s) && ScanOk(b, t) && SameOutline(a, b) && i < |a|
    requires multiset(s) == multiset(t)
    ensures multiset(a[i].members)[x] == multiset(b[i].members)[x]
  {
    if x in a[i].members {
      SameCount(a, s, b, t, x, i);
    } else if x in b[i].members {
      OutlineFlips(a, b);
      SameCount(b, t, a, s, x, i);
    } else {
      CountOfAbsent(a[i].members, x);
      CountOfAbsent(b[i].members, x);
    }
  }

  lemma SameMembers(a: seq<Candidate>, s: seq<LayerHit>, b: seq<Candidate>, t: seq<LayerHit>, i: nat)
    requires ScanOk(a, s) && ScanOk(b, t) && SameOutline(a, b) && i < |a|
    requires multiset(s) == multiset(t)
    ensures multiset(a[i].members) == multiset(b[i].members)
  {
    forall x: LayerHit ensures multiset(a[i].members)[x] == multiset(b[i].members)[x] {
      SameCountAnywhere(a, s, b, t, x, i);
    }
    SameCounts(multiset(a[i].members), multiset(b[i].members));
  }

  lemma SameCounts<T>(a: multiset<T>, b: multiset<T>)
    requires forall x :: a[x] == b[x]
    ensures a == b
  {
  }

  lemma ScoresDetermined(a: map<string, real>, b: map<string, real>, s: seq<LayerHit>, t: seq<LayerHit>)
    requires ScoresOf(a, s) && ScoresOf(b, t) && multiset(s) == multiset(t)
    ensures a == b
  {
    SameElements(s, t);
    OneSideScores(a, b, s, t);
    OneSideScores(b, a, t, s);
    assert a.Keys == b.Keys;
  }

  lemma OneSideScores(a: map<string, real>, b: map<string, real>, s: seq<LayerHit>, t: seq<LayerHit>)
    requires ScoresOf(a, s) && ScoresOf(b, t) && forall x :: x in s ==> x in t
    ensures forall l :: l in a ==> l in b && b[l] <= a[l]
  {
    forall l | l in a ensures l in b && b[l] <= a[l] {
      var k :| 0 <= k < |s| && s[k].layer == l && a[l] == 1.0 - s[k].hit.confidence;
      assert s[k] in s;
      var j :| 0 <= j < |t| && t[j] == s[k];
    }
  }

  lemma {:induction false} SameOutlines(flat: seq<LayerHit>, shuffled: seq<LayerHit>)
    requires multiset(flat) == multiset(shuffled)
    ensures SameOutline(Build(flat), Build(shuffled))
    ensures multiset(Sort(HitLe, flat)) == multiset(Sort(HitLe, shuffled))
  {
    var s, t := Sort(HitLe, flat), Sort(HitLe, shuffled);
    KeyOrder();
    SortSorts(HitLe, flat);
    SortSorts(HitLe, shuffled);
    KeysPermute(s, t);
    SortedUnique(KeyLe, Keys(s), Keys(t));
    OutlineByKeys(s, t);
  }

  /** The candidates do not depend on the order of layers or of hits, up to the order of the members. */
  lemma HitOrderIrrelevant(flat: seq<LayerHit>, shuffled: seq<LayerHit>)
    requires AllNonEmpty(flat) && multiset(flat) == multiset(shuffled)
    ensures var (a, b) := (Build(flat), Build(shuffled));
      SameOutline(a, b) && forall i :: 0 <= i < |a| ==>
        multiset(a[i].members) == multiset(b[i].members) && a[i].scores == b[i].scores
  {
    var s, t, a, b := Sort(HitLe, flat), Sort(HitLe, shuffled), Build(flat), Build(shuffled);
    SameElements(flat, shuffled);
    BuildIsOk(flat);
    BuildIsOk(shuffled);
    SameOutlines(flat, shuffled);
    forall i | 0 <= i < |a|
      ensures multiset(a[i].members) == multiset(b[i].members) && a[i].scores == b[i].scores
    {
      SameMembers(a, s, b, t, i);
      assert Sound(a[i]) && Sound(b[i]);
      ScoresDetermined(a[i].scores, b[i].scores, a[i].members, b[i].members);
    }
  }
}
