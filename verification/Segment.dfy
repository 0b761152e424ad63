/**
  * Flattened-name segmentation: the single-pass version over all dictionary-word occurrences
  * (src/flattened_names.py) and the split loop it replaced (validation/aho_corasick_layer4_verify.py).
  */
module Segment {

  const MIN_PART_LEN: nat := 3

  datatype Match = Match(start: nat, end: nat, isFirst: bool, isLast: bool)

  /** What the automaton's iter() yields, in any order: every occurrence of a dictionary word, with its roles. */
  ghost predicate AllOccurrences(matches: seq<Match>, token: string, first: set<string>, last: set<string>)
  {
    && (forall m :: m in matches ==>
          && m.start < m.end <= |token|
          && token[m.start..m.end] in first + last
          && m.isFirst == (token[m.start..m.end] in first)
          && m.isLast == (token[m.start..m.end] in last))
    && (forall i, j :: 0 <= i < j <= |token| && token[i..j] in first + last ==>
          Match(i, j, token[i..j] in first, token[i..j] in last) in matches)
  }

  predicate Roles(left: string, right: string, first: set<string>, last: set<string>)
  {
    (left in first && right in last) || (left in last && right in first)
  }

  ghost predicate Splits(token: string, first: set<string>, last: set<string>, split: int)
  {
    MIN_PART_LEN <= split <= |token| - MIN_PART_LEN && Roles(token[..split], token[split..], first, last)
  }

  /** The original split loop; `token` is already lower-case. */
  method OldSegmentMatch(token: string, first: set<string>, last: set<string>) returns (found: bool)
    ensures found <==> exists split :: Splits(token, first, last, split)
  {
    var n := |token|;
    var split := MIN_PART_LEN;
    while split < n - MIN_PART_LEN + 1
      invariant MIN_PART_LEN <= split
      invariant forall k :: k < split ==> !Splits(token, first, last, k)
    {
      if Roles(token[..split], token[split..], first, last) {
        assert Splits(token, first, last, split);
        return true;
      }
      split := split + 1;
    }
    return false;
  }

  predicate StartsAtZero(m: Match, n: int)
  {
    m.start == 0 && MIN_PART_LEN <= m.end <= n - MIN_PART_LEN
  }

  predicate Fits(m: Match, e: (nat, bool, bool))
  {
    e.0 == m.end && ((m.isFirst && e.2) || (m.isLast && e.1))
  }

  /** Two occurrences that meet and together span the token are exactly a split with fitting roles. */
  lemma PairIsSplit(matches: seq<Match>, token: string, first: set<string>, last: set<string>, m: Match, e: Match)
    requires AllOccurrences(matches, token, first, last) && m in matches && e in matches
    requires StartsAtZero(m, |token|) && e.end == |token|
    ensures Fits(m, (e.start, e.isFirst, e.isLast)) ==> Splits(token, first, last, m.end)
  {
    assert token[0..m.end] == token[..m.end];
    assert token[e.start..|token|] == token[e.start..];
  }

  lemma SplitIsPair(matches: seq<Match>, token: string, first: set<string>, last: set<string>, split: int)
    requires AllOccurrences(matches, token, first, last) && Splits(token, first, last, split)
    ensures exists m, e :: m in matches && e in matches && StartsAtZero(m, |token|) && e.end == |token|
              && Fits(m, (e.start, e.isFirst, e.isLast))
  {
    var left, right := token[..split], token[split..];
    assert token[0..split] == left && token[split..|token|] == right;
    var m, e := Match(0, split, left in first, left in last), Match(split, |token|, right in first, right in last);
    assert m in matches && e in matches;
    assert Fits(m, (e.start, e.isFirst, e.isLast));
  }

  /**
    * The single-pass version. It answers exactly what the split loop answers, for every token, every
    * pair of dictionaries (a word may be in both) and every order of the occurrences.
    */
  method SegmentMatch(matches: seq<Match>, token: string, first: set<string>, last: set<string>) returns (found: bool)
    requires AllOccurrences(matches, token, first, last)
    ensures found <==> exists split :: Splits(token, first, last, split)
  {
    var n := |token|;
    var startsAtZero: seq<Match> := [];
    for i := 0 to |matches|
      invariant forall m :: m in startsAtZero <==> m in matches[..i] && StartsAtZero(m, n)
    {
      if StartsAtZero(matches[i], n) {
        startsAtZero := startsAtZero + [matches[i]];
      }
    }
    assert matches[..|matches|] == matches;
    if startsAtZero == [] {
      assert forall m :: m in matches ==> !StartsAtZero(m, n);
      NoPairNoSplit(matches, token, first, last);
      return false;
    }
    var endsAtN := set m | m in matches && m.end == n :: (m.start, m.isFirst, m.isLast);
    for i := 0 to |startsAtZero|
      invariant forall k, e :: 0 <= k < i && e in endsAtN ==> !Fits(startsAtZero[k], e)
    {
      var m := startsAtZero[i];
      if e :| e in endsAtN && Fits(m, e) {
        var w :| w in matches && w.end == n && e == (w.start, w.isFirst, w.isLast);
        PairIsSplit(matches, token, first, last, m, w);
        return true;
      }
    }
    forall m, e | m in matches && e in matches && StartsAtZero(m, n) && e.end == n
      ensures !Fits(m, (e.start, e.isFirst, e.isLast))
    {
      assert m in startsAtZero && (e.start, e.isFirst, e.isLast) in endsAtN;
    }
    NoPairNoSplit(matches, token, first, last);
    return false;
  }

  lemma NoPairNoSplit(matches: seq<Match>, token: string, first: set<string>, last: set<string>)
    requires AllOccurrences(matches, token, first, last)
    requires forall m, e :: m in matches && e in matches && StartsAtZero(m, |token|) && e.end == |token| ==>
               !Fits(m, (e.start, e.isFirst, e.isLast))
    ensures forall split :: !Splits(token, first, last, split)
  {
    forall split ensures !Splits(token, first, last, split) {
      if Splits(token, first, last, split) {
        SplitIsPair(matches, token, first, last, split);
      }
    }
  }
}
