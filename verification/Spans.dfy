/** Detected spans and the text edits built on them (src/anonymize.py). */
module Spans {
  import opened Sorting

  datatype Span = Span(start: nat, end: nat, etype: string)

  predicate Overlaps(a: Span, b: Span)
  {
    a.start < b.end && b.start < a.end
  }

  predicate StartLe(a: Span, b: Span) { a.start <= b.start }

  predicate StartGe(a: Span, b: Span) { a.start >= b.start }

  // ---------------------------------------------------------------- dedup_spans

  predicate Clashes(x: Span, kept: seq<Span>)
  {
    exists k | k in kept :: x.etype == k.etype && Overlaps(x, k)
  }

  function KeepFirst(ordered: seq<Span>, kept: seq<Span>): seq<Span>
    decreases |ordered|
  {
    if ordered == [] then kept
    else if Clashes(ordered[0], kept) then KeepFirst(ordered[1..], kept)
    else KeepFirst(ordered[1..], kept + [ordered[0]])
  }

  function Dedup(spans: seq<Span>): seq<Span>
  {
    KeepFirst(Sort(StartLe, spans), [])
  }

  method DedupSpans(spans: seq<Span>) returns (kept: seq<Span>)
    ensures kept == Dedup(spans)
  {
    var ordered := Sort(StartLe, spans);
    kept := [];
    for i := 0 to |ordered|
      invariant KeepFirst(ordered[i..], kept) == Dedup(spans)
    {
      if Clashes(ordered[i], kept) {
        continue;
      }
      kept := kept + [ordered[i]];
    }
  }

  ghost predicate SameTypeDisjoint(s: seq<Span>)
  {
    forall i, j :: 0 <= i < j < |s| && s[i].etype == s[j].etype ==> !Overlaps(s[i], s[j])
  }

  ghost predicate CoveredBy(x: Span, kept: seq<Span>)
  {
    x in kept || exists k :: k in kept && k.etype == x.etype && Overlaps(x, k) && k.start <= x.start
  }

  lemma SortedWithoutFirst(kept: seq<Span>, ordered: seq<Span>)
    requires ordered != [] && SortedBy(StartLe, kept + ordered)
    ensures SortedBy(StartLe, kept + ordered[1..])
  {
    var whole, rest := kept + ordered, kept + ordered[1..];
    forall i, j | 0 <= i < j < |rest| ensures StartLe(rest[i], rest[j]) {
      assert rest[i] == whole[if i < |kept| then i else i + 1];
      assert rest[j] == whole[if j < |kept| then j else j + 1];
    }
  }

  lemma {:induction false} KeepFirstFacts(ordered: seq<Span>, kept: seq<Span>)
    requires SortedBy(StartLe, kept + ordered) && SameTypeDisjoint(kept)
    ensures var r := KeepFirst(ordered, kept);
      && kept <= r
      && SortedBy(StartLe, r) && SameTypeDisjoint(r)
      && (forall x :: x in r ==> x in kept || x in ordered)
      && (forall x :: x in ordered ==> CoveredBy(x, r))
    decreases |ordered|
  {
    if ordered == [] {
      assert kept + ordered == kept;
    } else {
      var x := ordered[0];
      var next := if Clashes(x, kept) then kept else kept + [x];
      assert SortedBy(StartLe, next + ordered[1..]) by {
        if Clashes(x, kept) {
          SortedWithoutFirst(kept, ordered);
        } else {
          assert next + ordered[1..] == kept + ordered;
        }
      }
      KeepFirstFacts(ordered[1..], next);
      var r := KeepFirst(ordered, kept);
      if Clashes(x, kept) {
        var k :| k in kept && x.etype == k.etype && Overlaps(x, k);
        var i :| 0 <= i < |kept| && kept[i] == k;
        assert (kept + ordered)[i] == k && (kept + ordered)[|kept|] == x;
        assert k in r;
      } else {
        assert next[|kept|] == x && x in r;
      }
      assert CoveredBy(x, r);
      assert forall y :: y in ordered ==> y == x || y in ordered[1..];
    }
  }

  lemma StartLeIsPreorder()
    ensures TotalPreorder(StartLe) && TotalPreorder(StartGe)
  {
  }

  /**
    * What dedup promises: the survivors are input spans in start order, two survivors of one type
    * never overlap, and every dropped span overlaps a survivor of its type that starts no later.
    */
  lemma DedupKeepsFirstOfEachClash(spans: seq<Span>)
    ensures SortedBy(StartLe, Dedup(spans)) && SameTypeDisjoint(Dedup(spans))
    ensures forall x :: x in Dedup(spans) ==> x in spans
    ensures forall x :: x in spans ==> CoveredBy(x, Dedup(spans))
  {
    StartLeIsPreorder();
    SortSorts(StartLe, spans);
    var ordered := Sort(StartLe, spans);
    assert [] + ordered == ordered;
    KeepFirstFacts(ordered, []);
    SameElements(ordered, spans);
  }

  lemma {:induction false} KeepFirstKeepsAll(ordered: seq<Span>, kept: seq<Span>)
    requires SameTypeDisjoint(kept + ordered)
    ensures KeepFirst(ordered, kept) == kept + ordered
    decreases |ordered|
  {
    if ordered == [] {
    } else {
      var whole := kept + ordered;
      assert !Clashes(ordered[0], kept) by {
        forall k | k in kept && k.etype == ordered[0].etype ensures !Overlaps(ordered[0], k) {
          var i :| 0 <= i < |kept| && kept[i] == k;
          assert whole[i] == k && whole[|kept|] == ordered[0];
        }
      }
      assert kept + [ordered[0]] + ordered[1..] == whole;
      KeepFirstKeepsAll(ordered[1..], kept + [ordered[0]]);
    }
  }

  /** Deduplicating twice is deduplicating once, so a second layer of merging is harmless. */
  lemma DedupIdempotent(spans: seq<Span>)
    ensures Dedup(Dedup(spans)) == Dedup(spans)
  {
    DedupKeepsFirstOfEachClash(spans);
    SortOfSorted(StartLe, Dedup(spans));
    assert [] + Dedup(spans) == Dedup(spans);
    KeepFirstKeepsAll(Dedup(spans), []);
  }

  // ------------------------------------------------------- right-to-left replacement

  function Min(a: nat, b: nat): nat { if a <= b then a else b }

  /** Python slicing clamps out-of-range bounds instead of failing. */
  function Take(s: string, n: nat): string { s[..Min(n, |s|)] }

  function Drop(s: string, n: nat): string { s[Min(n, |s|)..] }

  function Slice(s: string, a: nat, b: nat): string
  {
    if a <= b then Drop(Take(s, b), a) else ""
  }

  function ReplaceAt(s: string, x: Span, replacement: string): string
  {
    Take(s, x.start) + replacement + Drop(s, x.end)
  }

  type Transform = (string, Span) -> string

  function EditEach(out: string, ordered: seq<Span>, f: Transform): string
    decreases |ordered|
  {
    if ordered == [] then out
    else
      var x := ordered[0];
      EditEach(ReplaceAt(out, x, f(Slice(out, x.start, x.end), x)), ordered[1..], f)
  }

  function RightToLeft(text: string, spans: seq<Span>, f: Transform): string
  {
    EditEach(text, Sort(StartGe, Dedup(spans)), f)
  }

  method ApplyRightToLeft(text: string, spans: seq<Span>, f: Transform) returns (out: string)
    ensures out == RightToLeft(text, spans, f)
  {
    var deduped := DedupSpans(spans);
    var ordered := Sort(StartGe, deduped);
    out := text;
    for i := 0 to |ordered|
      invariant EditEach(out, ordered[i..], f) == RightToLeft(text, spans, f)
    {
      var x := ordered[i];
      var original := Slice(out, x.start, x.end);
      out := ReplaceAt(out, x, f(original, x));
    }
  }

  /** Distinct starts and no overlap, whatever the types; then the spans have one left-to-right order. */
  ghost predicate Separated(spans: seq<Span>)
  {
    forall i, j :: 0 <= i < j < |spans| ==>
      spans[i].start != spans[j].start && !Overlaps(spans[i], spans[j])
  }

  ghost predicate InText(spans: seq<Span>, n: nat)
  {
    forall x :: x in spans ==> x.start <= x.end <= n
  }

  /** The spans of `asc` tile the text from `pos` on: each starts at or after the end of the one before. */
  ghost predicate Tiles(asc: seq<Span>, pos: nat, n: nat)
  {
    if asc == [] then pos <= n
    else pos <= asc[0].start <= asc[0].end && Tiles(asc[1..], asc[0].end, n)
  }

  /** The intended result, read left to right: gap, replacement, gap, replacement, ..., rest. */
  ghost function Assemble(text: string, asc: seq<Span>, pos: nat, f: Transform): string
    requires Tiles(asc, pos, |text|)
    decreases |asc|
  {
    TilesBound(asc, pos, |text|);
    if asc == [] then text[pos..]
    else
      var x := asc[0];
      TilesBound(asc[1..], x.end, |text|);
      text[pos..x.start] + f(text[x.start..x.end], x) + Assemble(text, asc[1..], x.end, f)
  }

  lemma {:induction false} TilesBound(asc: seq<Span>, pos: nat, n: nat)
    requires Tiles(asc, pos, n)
    ensures pos <= n
    ensures forall x :: x in asc ==> pos <= x.start <= x.end <= n
    decreases |asc|
  {
    if asc != [] {
      TilesBound(asc[1..], asc[0].end, n);
      assert forall x :: x in asc ==> x == asc[0] || x in asc[1..];
    }
  }

  lemma {:induction false} SeparatedTiles(asc: seq<Span>, pos: nat, n: nat)
    requires SortedBy(StartLe, asc) && Separated(asc) && InText(asc, n)
    requires pos <= n && (asc != [] ==> pos <= asc[0].start)
    ensures Tiles(asc, pos, n)
    decreases |asc|
  {
    if asc != [] {
      if |asc| > 1 {
        assert StartLe(asc[0], asc[1]) && asc[0].start != asc[1].start && !Overlaps(asc[0], asc[1]);
        assert asc[1] in asc;
      }
      assert asc[0] in asc;
      SeparatedTiles(asc[1..], asc[0].end, n);
    }
  }

  lemma {:induction false} TilesAppend(asc: seq<Span>, x: Span, pos: nat, n: nat)
    requires Tiles(asc + [x], pos, n)
    ensures Tiles(asc, pos, x.start) && x.start <= x.end <= n
    decreases |asc|
  {
    if asc == [] {
      assert asc + [x] == [x];
      assert Tiles([x], pos, n) && [x][1..] == [];
      assert Tiles([], x.end, n);
    } else {
      assert (asc + [x])[1..] == asc[1..] + [x];
      assert (asc + [x])[0] == asc[0];
      TilesAppend(asc[1..], x, asc[0].end, n);
    }
  }

  lemma {:induction false} AssembleOne(text: string, x: Span, pos: nat, f: Transform)
    requires Tiles([x], pos, |text|) && pos <= x.start <= x.end <= |text|
    ensures Assemble(text, [x], pos, f) == text[pos..x.start] + f(text[x.start..x.end], x) + text[x.end..]
  {
    assert |[x][1..]| == 0;
    assert Assemble(text, [x][1..], x.end, f) == text[x.end..];
  }

  lemma {:induction false} AssembleLast(text: string, asc: seq<Span>, x: Span, pos: nat, f: Transform)
    requires Tiles(asc + [x], pos, |text|)
    ensures Tiles(asc, pos, x.start) && x.start <= x.end <= |text|
    ensures Assemble(text, asc + [x], pos, f)
         == Assemble(text[..x.start], asc, pos, f) + f(text[x.start..x.end], x) + text[x.end..]
    decreases |asc|
  {
    TilesAppend(asc, x, pos, |text|);
    TilesBound(asc, pos, x.start);
    if asc == [] {
      assert asc + [x] == [x];
      AssembleOne(text, x, pos, f);
      assert text[..x.start][pos..] == text[pos..x.start];
    } else {
      var y := asc[0];
      assert (asc + [x])[1..] == asc[1..] + [x] && (asc + [x])[0] == y;
      AssembleLast(text, asc[1..], x, y.end, f);
      TilesBound(asc[1..], y.end, x.start);
      PrefixSlices(text, x.start, pos, y);
      var a, b := text[pos..y.start], f(text[y.start..y.end], y);
      var mid := Assemble(text[..x.start], asc[1..], y.end, f);
      var c, e := f(text[x.start..x.end], x), text[x.end..];
      assert Assemble(text, asc + [x], pos, f) == a + b + (mid + c + e);
      assert Assemble(text[..x.start], asc, pos, f) == a + b + mid;
      Reassociate(a, b, mid, c, e);
    }
  }

  lemma Reassociate(a: string, b: string, c: string, d: string, e: string)
    ensures a + b + (c + d + e) == (a + b + c) + d + e
  {
  }

  lemma PrefixSlices(text: string, n: nat, pos: nat, y: Span)
    requires pos <= y.start <= y.end <= n <= |text|
    ensures text[..n][pos..y.start] == text[pos..y.start] && text[..n][y.start..y.end] == text[y.start..y.end]
  {
  }

  function Reverse<T>(s: seq<T>): seq<T>
  {
    if s == [] then [] else [s[|s| - 1]] + Reverse(s[..|s| - 1])
  }

  lemma {:induction false} ReverseIndex<T>(s: seq<T>)
    ensures |Reverse(s)| == |s| && multiset(Reverse(s)) == multiset(s)
    ensures forall i :: 0 <= i < |s| ==> Reverse(s)[i] == s[|s| - 1 - i]
  {
    if s != [] {
      ReverseIndex(s[..|s| - 1]);
      assert s == s[..|s| - 1] + [s[|s| - 1]];
    }
  }

  /** Edits to the left of `b` never look at it or move it. */
  lemma {:induction false} EditEachPrefix(a: string, b: string, asc: seq<Span>, pos: nat, f: Transform)
    requires Tiles(asc, pos, |a|)
    ensures EditEach(a + b, Reverse(asc), f) == EditEach(a, Reverse(asc), f) + b
    decreases |asc|
  {
    if asc != [] {
      var init, x := asc[..|asc| - 1], asc[|asc| - 1];
      assert asc == init + [x];
      TilesAppend(init, x, pos, |a|);
      assert Slice(a + b, x.start, x.end) == Slice(a, x.start, x.end) == a[x.start..x.end];
      var r := f(a[x.start..x.end], x);
      assert Reverse(asc)[1..] == Reverse(init);
      assert ReplaceAt(a + b, x, r) == a[..x.start] + (r + a[x.end..] + b);
      assert ReplaceAt(a, x, r) == a[..x.start] + (r + a[x.end..]);
      EditEachPrefix(a[..x.start], r + a[x.end..] + b, init, pos, f);
      EditEachPrefix(a[..x.start], r + a[x.end..], init, pos, f);
    }
  }

  lemma {:induction false} EditEachAssembles(text: string, asc: seq<Span>, f: Transform)
    requires Tiles(asc, 0, |text|)
    ensures EditEach(text, Reverse(asc), f) == Assemble(text, asc, 0, f)
    decreases |asc|
  {
    if asc == [] {
      assert text[0..] == text;
    } else {
      var init, x := asc[..|asc| - 1], asc[|asc| - 1];
      assert asc == init + [x];
      AssembleLast(text, init, x, 0, f);
      var r := f(text[x.start..x.end], x);
      assert Slice(text, x.start, x.end) == text[x.start..x.end];
      assert Reverse(asc)[1..] == Reverse(init);
      assert ReplaceAt(text, x, r) == text[..x.start] + (r + text[x.end..]);
      EditEachPrefix(text[..x.start], r + text[x.end..], init, 0, f);
      EditEachAssembles(text[..x.start], init, f);
    }
  }

  lemma SeparatedPermutation(s: seq<Span>, t: seq<Span>)
    requires Separated(s) && multiset(s) == multiset(t)
    ensures Separated(t)
    ensures forall x, y :: x in s && y in s && x.start == y.start ==> x == y
  {
    SameElements(s, t);
    forall x, y | x in s && y in s && x.start == y.start ensures x == y {
      var i :| 0 <= i < |s| && s[i] == x;
      var j :| 0 <= j < |s| && s[j] == y;
    }
    forall i, j | 0 <= i < j < |t|
      ensures t[i].start != t[j].start && !Overlaps(t[i], t[j])
    {
      var x, y := t[i], t[j];
      assert x in s && y in s;
      if x == y {
        TwiceInMultiset(t, i, j);
        OnceInSeparated(s, x);
        assert false;
      }
      var a :| 0 <= a < |s| && s[a] == x;
      var b :| 0 <= b < |s| && s[b] == y;
    }
  }

  lemma TwiceInMultiset<T>(t: seq<T>, i: nat, j: nat)
    requires i < j < |t| && t[i] == t[j]
    ensures multiset(t)[t[i]] >= 2
  {
    assert t == t[..i] + [t[i]] + t[i + 1..j] + [t[j]] + t[j + 1..];
    assert multiset(t) == multiset(t[..i]) + multiset{t[i]} + multiset(t[i + 1..j]) + multiset{t[j]} + multiset(t[j + 1..]);
  }

  lemma {:induction false} OnceInSeparated(s: seq<Span>, x: Span)
    requires Separated(s)
    ensures multiset(s)[x] <= 1
  {
    if s != [] {
      OnceInSeparated(s[1..], x);
      assert s == [s[0]] + s[1..];
      assert multiset(s)[x] == multiset([s[0]])[x] + multiset(s[1..])[x];
      assert forall j :: 0 <= j < |s[1..]| ==> s[1..][j].start != s[0].start;
    }
  }

  lemma {:induction false} SortedStaysSeparated(spans: seq<Span>, n: nat)
    requires Separated(spans) && InText(spans, n)
    ensures var asc := Sort(StartLe, spans);
      SortedBy(StartLe, asc) && Separated(asc) && InText(asc, n) && multiset(asc) == multiset(spans)
  {
    var asc := Sort(StartLe, spans);
    StartLeIsPreorder();
    SortSorts(StartLe, spans);
    SameElements(spans, asc);
    SeparatedPermutation(spans, asc);
  }

  lemma {:induction false} DedupKeepsSeparated(spans: seq<Span>)
    requires Separated(Sort(StartLe, spans))
    ensures Dedup(spans) == Sort(StartLe, spans)
  {
    var asc := Sort(StartLe, spans);
    assert [] + asc == asc;
    SeparatedNeverClash(asc);
    KeepFirstKeepsAll(asc, []);
  }

  lemma SeparatedNeverClash(asc: seq<Span>)
    requires Separated(asc)
    ensures SameTypeDisjoint(asc)
  {
  }

  lemma {:induction false} SortedSeparated(spans: seq<Span>, n: nat)
    requires Separated(spans) && InText(spans, n)
    ensures var asc := Sort(StartLe, spans);
      && SortedBy(StartLe, asc) && Separated(asc) && InText(asc, n) && Tiles(asc, 0, n)
      && multiset(asc) == multiset(spans)
      && Dedup(spans) == asc
  {
    SortedStaysSeparated(spans, n);
    DedupKeepsSeparated(spans);
    SeparatedTiles(Sort(StartLe, spans), 0, n);
  }

  lemma {:induction false} DescendingIsReversed(asc: seq<Span>)
    requires SortedBy(StartLe, asc) && Separated(asc)
    ensures Sort(StartGe, asc) == Reverse(asc)
  {
    StartLeIsPreorder();
    SortSorts(StartGe, asc);
    ReverseIndex(asc);
    SeparatedPermutation(asc, asc);
    SameElements(asc, Reverse(asc));
    SortedUnique(StartGe, Reverse(asc), Sort(StartGe, asc));
  }

  /**
    * Replacing right to left, over separated spans given in any order, is the left-to-right assembly
    * of untouched gaps and replacements; every transform sees the original text of its own span.
    */
  lemma {:induction false} RightToLeftAssembles(text: string, spans: seq<Span>, f: Transform)
    requires Separated(spans) && InText(spans, |text|)
    ensures Tiles(Sort(StartLe, spans), 0, |text|)
    ensures RightToLeft(text, spans, f) == Assemble(text, Sort(StartLe, spans), 0, f)
    ensures Sort(StartGe, Dedup(spans)) == Reverse(Sort(StartLe, spans))
  {
    SortedSeparated(spans, |text|);
    DescendingIsReversed(Sort(StartLe, spans));
    EditEachAssembles(text, Sort(StartLe, spans), f);
  }

  /** The order in which the detectors reported the spans does not matter. */
  lemma SpanOrderIrrelevant(text: string, spans: seq<Span>, shuffled: seq<Span>, f: Transform)
    requires Separated(spans) && InText(spans, |text|)
    requires multiset(spans) == multiset(shuffled)
    ensures RightToLeft(text, spans, f) == RightToLeft(text, shuffled, f)
  {
    SameElements(spans, shuffled);
    SeparatedPermutation(spans, shuffled);
    RightToLeftAssembles(text, spans, f);
    RightToLeftAssembles(text, shuffled, f);
    StartLeIsPreorder();
    SortSorts(StartLe, spans);
    SortSorts(StartLe, shuffled);
    SameElements(spans, Sort(StartLe, spans));
    SortedUnique(StartLe, Sort(StartLe, spans), Sort(StartLe, shuffled));
  }
}
