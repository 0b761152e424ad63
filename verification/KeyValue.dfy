/**
  * The tolerant key=value extractor (src/fields.py) and the event flattener it is meant to read
  * (validation/real_data/inject_and_evaluate.py). The classes `\w` and "whitespace" are parameters.
  */
module KeyValue {

  datatype Chars = Chars(isWord: char -> bool, isSpace: char -> bool)

  type Fields = seq<(string, string)>

  predicate CharsOk(ch: Chars)
  {
    !ch.isWord('=') && !ch.isWord(' ') && ch.isSpace(' ')
  }

  // ------------------------------------------------------------------ the pattern (\w+)=

  /** Where the run of word characters starting at `i` stops. */
  function RunEnd(ch: Chars, text: string, i: nat): (r: nat)
    requires i <= |text|
    ensures i <= r <= |text|
    decreases |text| - i
  {
    if i < |text| && ch.isWord(text[i]) then RunEnd(ch, text, i + 1) else i
  }

  predicate MatchAt(ch: Chars, text: string, i: nat)
    requires i <= |text|
  {
    var j := RunEnd(ch, text, i);
    i < j < |text| && text[j] == '='
  }

  /** The leftmost match at or after `from`; the length of the text when there is none. */
  function NextKey(ch: Chars, text: string, from: nat): (r: nat)
    requires from <= |text|
    ensures from <= r <= |text|
    ensures r < |text| ==> MatchAt(ch, text, r)
    decreases |text| - from
  {
    if from == |text| || MatchAt(ch, text, from) then from else NextKey(ch, text, from + 1)
  }

  lemma {:induction false} NextKeyIsFirst(ch: Chars, text: string, from: nat, k: nat)
    requires from <= |text| && from <= k < NextKey(ch, text, from)
    ensures !MatchAt(ch, text, k)
    decreases |text| - from
  {
    if from < k {
      NextKeyIsFirst(ch, text, from + 1, k);
    }
  }

  datatype Match = Match(start: nat, end: nat)

  /** A value runs to the start of the next match, or to the end of the text. */
  function ValueEnd(text: string, ms: seq<Match>, k: nat): nat
    requires k < |ms|
  {
    if k + 1 < |ms| then ms[k + 1].start else |text|
  }

  /** Every match, left to right, as `finditer` reports them. */
  function Matches(ch: Chars, text: string, from: nat): (ms: seq<Match>)
    requires from <= |text|
    decreases |text| - from
  {
    var i := NextKey(ch, text, from);
    if i == |text| then [] else
      var j := RunEnd(ch, text, i);
      [Match(i, j + 1)] + Matches(ch, text, j + 1)
  }

  // ------------------------------------------------------------------ strip and dictionaries

  function StripLeft(ch: Chars, s: string): string
  {
    if |s| > 0 && ch.isSpace(s[0]) then StripLeft(ch, s[1..]) else s
  }

  function StripRight(ch: Chars, s: string): string
  {
    if |s| > 0 && ch.isSpace(s[|s| - 1]) then StripRight(ch, s[..|s| - 1]) else s
  }

  function Strip(ch: Chars, s: string): string
  {
    StripRight(ch, StripLeft(ch, s))
  }

  lemma {:induction false} StripLeftIsSuffix(ch: Chars, s: string)
    ensures |StripLeft(ch, s)| <= |s| && StripLeft(ch, s) == s[|s| - |StripLeft(ch, s)|..]
  {
    if |s| > 0 && ch.isSpace(s[0]) {
      StripLeftIsSuffix(ch, s[1..]);
    }
  }

  lemma {:induction false} StripRightIsPrefix(ch: Chars, s: string)
    ensures |StripRight(ch, s)| <= |s| && StripRight(ch, s) == s[..|StripRight(ch, s)|]
  {
    if |s| > 0 && ch.isSpace(s[|s| - 1]) {
      StripRightIsPrefix(ch, s[..|s| - 1]);
    }
  }

  /** `d[k] = v` on an insertion-ordered dictionary. */
  function Assign(d: Fields, k: string, v: string): Fields
  {
    if |d| == 0 then [(k, v)]
    else if d[0].0 == k then [(k, v)] + d[1..]
    else [d[0]] + Assign(d[1..], k, v)
  }

  function AssignAll(pairs: Fields): Fields
  {
    var n := |pairs|;
    if n == 0 then [] else Assign(AssignAll(pairs[..n - 1]), pairs[n - 1].0, pairs[n - 1].1)
  }

  /** Python's `text[a:b]` for indices that are not negative. */
  function Slice(text: string, a: int, b: int): string
  {
    if 0 <= a <= b <= |text| then text[a..b] else ""
  }

  function PairAt(ch: Chars, text: string, ms: seq<Match>, k: nat): (string, string)
    requires k < |ms|
  {
    (Slice(text, ms[k].start, ms[k].end - 1), Strip(ch, Slice(text, ms[k].end, ValueEnd(text, ms, k))))
  }

  function Pairs(ch: Chars, text: string, ms: seq<Match>): (r: Fields)
    ensures |r| == |ms|
  {
    if |ms| == 0 then [] else [PairAt(ch, text, ms, 0)] + Pairs(ch, text, ms[1..])
  }

  lemma LaterMatch(text: string, ms: seq<Match>, k: nat)
    requires 0 < k < |ms|
    ensures ms[k] == ms[1..][k - 1] && ValueEnd(text, ms, k) == ValueEnd(text, ms[1..], k - 1)
  {
  }

  lemma {:induction false} PairsAreAt(ch: Chars, text: string, ms: seq<Match>, k: nat)
    requires k < |ms|
    ensures Pairs(ch, text, ms)[k] == PairAt(ch, text, ms, k)
  {
    if k > 0 {
      LaterMatch(text, ms, k);
      PairsAreAt(ch, text, ms[1..], k - 1);
    }
  }

  function Extract(ch: Chars, text: string): Fields
  {
    AssignAll(Pairs(ch, text, Matches(ch, text, 0)))
  }

  lemma AssignStep(pairs: Fields, i: nat)
    requires i < |pairs|
    ensures AssignAll(pairs[..i + 1]) == Assign(AssignAll(pairs[..i]), pairs[i].0, pairs[i].1)
  {
    assert pairs[..i + 1][..i] == pairs[..i];
  }

  method ExtractKvPairs(ch: Chars, text: string) returns (fields: Fields)
    ensures fields == Extract(ch, text)
  {
    var matches := Matches(ch, text, 0);
    ghost var pairs := Pairs(ch, text, matches);
    fields := [];
    for i := 0 to |matches|
      invariant fields == AssignAll(pairs[..i])
    {
      var m := matches[i];
      var key := Slice(text, m.start, m.end - 1);
      var valueEnd := if i + 1 < |matches| then matches[i + 1].start else |text|;
      var value := Strip(ch, Slice(text, m.end, valueEnd));
      PairsAreAt(ch, text, matches, i);
      AssignStep(pairs, i);
      fields := Assign(fields, key, value);
    }
    assert pairs[..|matches|] == pairs;
  }

  // ------------------------------------------------------------------ the flattener

  /** The non-empty fields of the event, in the fixed field order. */
  function Present(obj: map<string, string>, order: seq<string>): Fields
  {
    var n := |order|;
    if n == 0 then [] else
      Present(obj, order[..n - 1])
      + if order[n - 1] in obj && obj[order[n - 1]] != "" then [(order[n - 1], obj[order[n - 1]])] else []
  }

  function Part(f: (string, string)): string
  {
    f.0 + "=" + f.1
  }

  /** `' '.join(parts)` */
  function Join(parts: seq<string>): string
  {
    if |parts| == 0 then "" else if |parts| == 1 then parts[0] else parts[0] + " " + Join(parts[1..])
  }

  function Parts(fs: Fields): seq<string>
  {
    seq(|fs|, i requires 0 <= i < |fs| => Part(fs[i]))
  }

  function Line(fs: Fields): string
  {
    Join(Parts(fs))
  }

  method FlattenWindowsEvent(obj: map<string, string>, order: seq<string>) returns (line: string)
    ensures line == Line(Present(obj, order))
  {
    var parts: seq<string> := [];
    for i := 0 to |order|
      invariant parts == Parts(Present(obj, order[..i]))
    {
      var key := order[i];
      assert order[..i + 1][..i] == order[..i];
      if key in obj && obj[key] != "" {
        parts := parts + [key + "=" + obj[key]];
        assert parts == Parts(Present(obj, order[..i]) + [(key, obj[key])]);
      }
    }
    assert order[..|order|] == order;
    line := Join(parts);
  }

  // ------------------------------------------------------------------ the round trip

  /** Somewhere in the value an '=' stands right after a word character: it reads as another key. */
  predicate HasInnerKey(ch: Chars, v: string)
  {
    exists p :: 0 < p < |v| && ch.isWord(v[p - 1]) && v[p] == '='
  }

  predicate Trimmed(ch: Chars, v: string)
  {
    |v| > 0 && !ch.isSpace(v[0]) && !ch.isSpace(v[|v| - 1])
  }

  predicate WordKey(ch: Chars, k: string)
  {
    |k| > 0 && forall i :: 0 <= i < |k| ==> ch.isWord(k[i])
  }

  predicate Distinct<T(==)>(s: seq<T>)
  {
    forall i, j :: 0 <= i < j < |s| ==> s[i] != s[j]
  }

  predicate Flattenable(ch: Chars, fs: Fields)
  {
    && (forall i :: 0 <= i < |fs| ==> WordKey(ch, fs[i].0) && Trimmed(ch, fs[i].1))
    && (forall i, j :: 0 <= i < j < |fs| ==> fs[i].0 != fs[j].0)
  }

  lemma WordBeforeEquals(ch: Chars, text: string, p: nat)
    requires CharsOk(ch) && 0 < p < |text| && ch.isWord(text[p - 1]) && text[p] == '='
    ensures MatchAt(ch, text, p - 1)
  {
  }

  lemma FirstMatch(ch: Chars, text: string, from: nat)
    requires from <= |text| && |Matches(ch, text, from)| > 0
    ensures var ms, i := Matches(ch, text, from), NextKey(ch, text, from);
            var j := RunEnd(ch, text, i);
            && i < j < |text| && text[j] == '=' && ms[0] == Match(i, j + 1)
            && ms[1..] == Matches(ch, text, j + 1)
            && ValueEnd(text, ms, 0) == NextKey(ch, text, j + 1)
  {
    var j := RunEnd(ch, text, NextKey(ch, text, from));
    var rest := Matches(ch, text, j + 1);
    assert NextKey(ch, text, j + 1) == if |rest| > 0 then rest[0].start else |text|;
  }

  lemma {:induction false} NoMatchInValue(ch: Chars, text: string, from: nat, k: nat, p: nat)
    requires from <= |text| && p <= |text| && k < |Matches(ch, text, from)|
    requires Matches(ch, text, from)[k].end <= p < ValueEnd(text, Matches(ch, text, from), k)
    ensures !MatchAt(ch, text, p)
    decreases k
  {
    var ms, j := Matches(ch, text, from), RunEnd(ch, text, NextKey(ch, text, from));
    FirstMatch(ch, text, from);
    if k > 0 {
      LaterMatch(text, ms, k);
      NoMatchInValue(ch, text, j + 1, k - 1, p);
    } else {
      NextKeyIsFirst(ch, text, j + 1, p);
    }
  }

  lemma {:induction false} RawValueIsClean(ch: Chars, text: string, k: nat)
    requires CharsOk(ch) && k < |Matches(ch, text, 0)|
    ensures var ms := Matches(ch, text, 0); !HasInnerKey(ch, Slice(text, ms[k].end, ValueEnd(text, ms, k)))
  {
    var ms := Matches(ch, text, 0);
    var raw := Slice(text, ms[k].end, ValueEnd(text, ms, k));
    forall p | 0 < p < |raw| ensures !(ch.isWord(raw[p - 1]) && raw[p] == '=') {
      var at: nat := ms[k].end + p;
      NoMatchInValue(ch, text, 0, k, at - 1);
      if ch.isWord(text[at - 1]) && text[at] == '=' {
        WordBeforeEquals(ch, text, at);
      }
    }
  }

  /** No extracted value contains an inner key. */
  lemma {:induction false} ExtractedValuesAreClean(ch: Chars, text: string, k: nat)
    requires CharsOk(ch) && k < |Matches(ch, text, 0)|
    ensures !HasInnerKey(ch, PairAt(ch, text, Matches(ch, text, 0), k).1)
  {
    var ms := Matches(ch, text, 0);
    var raw := Slice(text, ms[k].end, ValueEnd(text, ms, k));
    RawValueIsClean(ch, text, k);
    StripLeftIsSuffix(ch, raw);
    StripRightIsPrefix(ch, StripLeft(ch, raw));
    PieceIsClean(ch, raw, StripLeft(ch, raw), |raw| - |StripLeft(ch, raw)|);
    PieceIsClean(ch, StripLeft(ch, raw), Strip(ch, raw), 0);
  }

  lemma PieceIsClean(ch: Chars, s: string, piece: string, at: nat)
    requires !HasInnerKey(ch, s) && at + |piece| <= |s| && piece == s[at..at + |piece|]
    ensures !HasInnerKey(ch, piece)
  {
    forall p | 0 < p < |piece| ensures !(ch.isWord(piece[p - 1]) && piece[p] == '=') {
      assert piece[p] == s[at + p] && piece[p - 1] == s[at + p - 1];
    }
  }

  lemma {:induction false} StripsToTrimmed(ch: Chars, v: string)
    requires CharsOk(ch) && Trimmed(ch, v)
    ensures Strip(ch, v) == v && Strip(ch, v + " ") == v
  {
    assert (v + " ")[0] == v[0];
    assert StripLeft(ch, v + " ") == v + " " && StripLeft(ch, v) == v;
    assert (v + " ")[|v + " "| - 1] == ' ' && (v + " ")[..|v + " "| - 1] == v;
    assert StripRight(ch, v) == v;
  }

  lemma {:induction false} RunEndIs(ch: Chars, text: string, i: nat, j: nat)
    requires i <= j <= |text| && (forall k :: i <= k < j ==> ch.isWord(text[k])) && (j < |text| ==> !ch.isWord(text[j]))
    ensures RunEnd(ch, text, i) == j
    decreases j - i
  {
    if i < j {
      RunEndIs(ch, text, i + 1, j);
    }
  }

  lemma {:induction false} RunIsWords(ch: Chars, text: string, i: nat, k: nat)
    requires i <= |text| && i <= k < RunEnd(ch, text, i)
    ensures ch.isWord(text[k])
    decreases k - i
  {
    if i < k {
      RunIsWords(ch, text, i + 1, k);
    }
  }

  lemma {:induction false} NextKeySkips(ch: Chars, text: string, from: nat, n: nat)
    requires from <= n <= |text| && forall k :: from <= k < n ==> !MatchAt(ch, text, k)
    ensures NextKey(ch, text, from) == NextKey(ch, text, n) && Matches(ch, text, from) == Matches(ch, text, n)
    decreases n - from
  {
    if from < n {
      NextKeySkips(ch, text, from + 1, n);
    }
  }

  /** A field's part stands in `text` at `a`, followed by a space or by nothing. */
  predicate PartAt(text: string, a: nat, f: (string, string))
  {
    var b := a + |f.0| + 1 + |f.1|;
    && b <= |text| && text[a..a + |f.0|] == f.0 && text[a + |f.0|] == '=' && text[a + |f.0| + 1..b] == f.1
    && (b < |text| ==> text[b] == ' ')
  }

  lemma {:induction false} KeyHere(ch: Chars, text: string, a: nat, f: (string, string))
    requires CharsOk(ch) && PartAt(text, a, f) && WordKey(ch, f.0)
    ensures NextKey(ch, text, a) == a && RunEnd(ch, text, a) == a + |f.0|
  {
    forall k | a <= k < a + |f.0| ensures ch.isWord(text[k]) {
      assert text[k] == text[a..a + |f.0|][k - a];
    }
    RunEndIs(ch, text, a, a + |f.0|);
  }

  lemma NoKeyInside(ch: Chars, text: string, a: nat, f: (string, string), p: nat)
    requires CharsOk(ch) && PartAt(text, a, f) && !HasInnerKey(ch, f.1)
    requires a + |f.0| + 1 <= p <= a + |f.0| + 1 + |f.1| && p <= |text|
    ensures !MatchAt(ch, text, p)
  {
    var v, b := a + |f.0| + 1, a + |f.0| + 1 + |f.1|;
    var e := RunEnd(ch, text, p);
    forall q | v <= q < b ensures text[q] == f.1[q - v] {
      assert text[q] == text[v..b][q - v];
    }
    var q := e - v;
    assert !(0 < q < |f.1| && ch.isWord(f.1[q - 1]) && f.1[q] == '=');
    if p < e {
      RunIsWords(ch, text, p, e - 1);
      if b < e {
        RunIsWords(ch, text, p, b);
      }
    }
  }

  lemma {:induction false} MatchThenSkip(ch: Chars, text: string, a: nat, next: nat)
    requires a < |text| && NextKey(ch, text, a) == a && RunEnd(ch, text, a) < next <= |text|
    requires NextKey(ch, text, next) == next
    requires forall p :: RunEnd(ch, text, a) < p < next ==> !MatchAt(ch, text, p)
    ensures var ms, j := Matches(ch, text, a), RunEnd(ch, text, a);
            && |ms| > 0 && ms[0] == Match(a, j + 1) && ValueEnd(text, ms, 0) == next
            && ms[1..] == Matches(ch, text, next)
  {
    NextKeySkips(ch, text, RunEnd(ch, text, a) + 1, next);
    assert |Matches(ch, text, a)| > 0;
    FirstMatch(ch, text, a);
  }

  lemma {:induction false} FieldMatches(ch: Chars, text: string, a: nat, f: (string, string), next: nat)
    requires CharsOk(ch) && PartAt(text, a, f) && WordKey(ch, f.0) && !HasInnerKey(ch, f.1)
    requires a + |f.0| < next <= |text| && next <= a + |f.0| + |f.1| + 2 && NextKey(ch, text, next) == next
    ensures var ms := Matches(ch, text, a);
            && |ms| > 0 && ms[0] == Match(a, a + |f.0| + 1) && ValueEnd(text, ms, 0) == next
            && ms[1..] == Matches(ch, text, next)
  {
    KeyHere(ch, text, a, f);
    forall p: nat | a + |f.0| < p < next ensures !MatchAt(ch, text, p) {
      NoKeyInside(ch, text, a, f, p);
    }
    MatchThenSkip(ch, text, a, next);
  }

  predicate NextAfter(text: string, a: nat, f: (string, string), next: nat)
  {
    var b := a + |f.0| + 1 + |f.1|;
    b <= |text| && next == if b < |text| then b + 1 else b
  }

  /** What stands between the '=' and the next key strips to the value. */
  lemma FirstPair(ch: Chars, text: string, ms: seq<Match>, a: nat, f: (string, string), next: nat)
    requires CharsOk(ch) && PartAt(text, a, f) && Trimmed(ch, f.1) && NextAfter(text, a, f, next)
    requires |ms| > 0 && ms[0] == Match(a, a + |f.0| + 1) && ValueEnd(text, ms, 0) == next
    ensures PairAt(ch, text, ms, 0) == f
  {
    var v, b := a + |f.0| + 1, a + |f.0| + 1 + |f.1|;
    StripsToTrimmed(ch, f.1);
    if b < |text| {
      assert text[v..next] == text[v..b] + [text[b]] == f.1 + " ";
    } else {
      assert text[v..next] == f.1;
    }
    assert Slice(text, a, a + |f.0|) == f.0;
  }

  /** Reading one field off the text: its pair, then whatever follows it. */
  lemma {:induction false} ReadField(ch: Chars, text: string, a: nat, f: (string, string), next: nat)
    requires CharsOk(ch) && PartAt(text, a, f) && WordKey(ch, f.0) && Trimmed(ch, f.1) && !HasInnerKey(ch, f.1)
    requires NextAfter(text, a, f, next) && NextKey(ch, text, next) == next
    ensures Pairs(ch, text, Matches(ch, text, a)) == [f] + Pairs(ch, text, Matches(ch, text, next))
  {
    var ms := Matches(ch, text, a);
    FieldMatches(ch, text, a, f, next);
    FirstPair(ch, text, ms, a, f, next);
  }

  lemma LineSplits(fs: Fields)
    requires |fs| > 0
    ensures Line(fs) == Part(fs[0]) + if |fs| > 1 then " " + Line(fs[1..]) else ""
  {
    assert Parts(fs)[1..] == Parts(fs[1..]);
  }

  lemma PartStands(text: string, a: nat, f: (string, string), tail: string)
    requires a <= |text| && text[a..] == Part(f) + tail && (|tail| > 0 ==> tail[0] == ' ')
    ensures PartAt(text, a, f) && |text| == a + |Part(f)| + |tail|
    ensures text[a + |Part(f)|..] == tail
  {
    var rest := text[a..];
    assert rest == f.0 + "=" + f.1 + tail;
    assert text[a..a + |f.0|] == rest[..|f.0|] == f.0;
    assert text[a + |f.0| + 1..a + |Part(f)|] == rest[|f.0| + 1..|Part(f)|] == f.1;
    assert text[a + |f.0|] == rest[|f.0|];
    assert text[a + |Part(f)|..] == rest[|Part(f)|..];
  }

  /** One field and whatever `rest` the text reads as after it. */
  lemma {:induction false} ReadsOneMore(ch: Chars, text: string, a: nat, f: (string, string), next: nat, rest: Fields)
    requires CharsOk(ch) && PartAt(text, a, f) && WordKey(ch, f.0) && Trimmed(ch, f.1) && !HasInnerKey(ch, f.1)
    requires NextAfter(text, a, f, next) && NextKey(ch, text, next) == next
    requires Pairs(ch, text, Matches(ch, text, next)) == rest
    ensures Pairs(ch, text, Matches(ch, text, a)) == [f] + rest && NextKey(ch, text, a) == a
  {
    ReadField(ch, text, a, f, next);
    KeyHere(ch, text, a, f);
  }

  lemma {:induction false} NothingAtEnd(ch: Chars, text: string)
    ensures Pairs(ch, text, Matches(ch, text, |text|)) == [] && NextKey(ch, text, |text|) == |text|
  {
  }

  lemma {:induction false} ReadsBack(ch: Chars, text: string, a: nat, fs: Fields)
    requires CharsOk(ch) && Flattenable(ch, fs) && forall i :: 0 <= i < |fs| ==> !HasInnerKey(ch, fs[i].1)
    requires a <= |text| && text[a..] == Line(fs)
    ensures Pairs(ch, text, Matches(ch, text, a)) == fs
    ensures NextKey(ch, text, a) == a
    decreases |fs|
  {
    if |fs| == 0 {
      assert a == |text|;
      NothingAtEnd(ch, text);
    } else {
      var f, rest, tail := fs[0], fs[1..], if |fs| > 1 then " " + Line(fs[1..]) else "";
      LineSplits(fs);
      var b := SkipPart(text, a, f, tail);
      assert fs == [f] + rest;
      if |fs| > 1 {
        assert text[b + 1..] == text[b..][1..] == Line(rest);
        ReadsBack(ch, text, b + 1, rest);
        ReadsOneMore(ch, text, a, f, b + 1, rest);
      } else {
        NothingAtEnd(ch, text);
        ReadsOneMore(ch, text, a, f, b, rest);
      }
    }
  }

  lemma SkipPart(text: string, a: nat, f: (string, string), tail: string) returns (b: nat)
    requires a <= |text| && text[a..] == Part(f) + tail && (|tail| > 0 ==> tail[0] == ' ')
    ensures b == a + |Part(f)| <= |text| && text[b..] == tail && PartAt(text, a, f)
    ensures NextAfter(text, a, f, if |tail| > 0 then b + 1 else b)
  {
    PartStands(text, a, f, tail);
    b := a + |Part(f)|;
  }

  lemma {:induction false} AssignDistinct(pairs: Fields, n: nat)
    requires n <= |pairs| && forall i, j :: 0 <= i < j < |pairs| ==> pairs[i].0 != pairs[j].0
    ensures AssignAll(pairs[..n]) == pairs[..n]
    decreases n
  {
    if n > 0 {
      AssignStep(pairs, n - 1);
      AssignDistinct(pairs, n - 1);
      AssignNew(pairs[..n - 1], pairs[n - 1].0, pairs[n - 1].1);
    }
  }

  lemma {:induction false} AssignNew(d: Fields, k: string, v: string)
    requires forall i :: 0 <= i < |d| ==> d[i].0 != k
    ensures Assign(d, k, v) == d + [(k, v)]
  {
    if |d| > 0 {
      AssignNew(d[1..], k, v);
    }
  }

  lemma {:induction false} AssignedValues(pairs: Fields, f: (string, string))
    requires f in AssignAll(pairs)
    ensures exists i :: 0 <= i < |pairs| && pairs[i].1 == f.1
  {
    var n := |pairs| - 1;
    if n >= 0 {
      var before := AssignAll(pairs[..n]);
      AssignKeeps(before, pairs[n].0, pairs[n].1, f);
      if f in before {
        AssignedValues(pairs[..n], f);
        var i :| 0 <= i < n && pairs[..n][i].1 == f.1;
        assert pairs[i].1 == f.1;
      }
    }
  }

  lemma {:induction false} AssignKeeps(d: Fields, k: string, v: string, f: (string, string))
    requires f in Assign(d, k, v)
    ensures f == (k, v) || f in d
  {
    if |d| > 0 && d[0].0 != k && f != d[0] {
      AssignKeeps(d[1..], k, v, f);
    }
  }

  /**
    * For distinct word keys and trimmed values, extracting from the flattened line gives back exactly
    * its fields, in order, if and only if no value has a word character right before an '='.
    */
  lemma RoundTripIff(ch: Chars, fs: Fields)
    requires CharsOk(ch) && Flattenable(ch, fs)
    ensures Extract(ch, Line(fs)) == fs <==> forall i :: 0 <= i < |fs| ==> !HasInnerKey(ch, fs[i].1)
  {
    var text := Line(fs);
    if forall i :: 0 <= i < |fs| ==> !HasInnerKey(ch, fs[i].1) {
      assert text[0..] == text;
      ReadsBack(ch, text, 0, fs);
      AssignDistinct(fs, |fs|);
      assert fs[..|fs|] == fs;
    } else if Extract(ch, text) == fs {
      var i :| 0 <= i < |fs| && HasInnerKey(ch, fs[i].1);
      var pairs := Pairs(ch, text, Matches(ch, text, 0));
      assert fs[i] in fs;
      AssignedValues(pairs, fs[i]);
      var k :| 0 <= k < |pairs| && pairs[k].1 == fs[i].1;
      PairsAreAt(ch, text, Matches(ch, text, 0), k);
      ExtractedValuesAreClean(ch, text, k);
      assert false;
    }
  }

  lemma {:induction false} PresentFields(obj: map<string, string>, order: seq<string>)
    ensures forall i :: 0 <= i < |Present(obj, order)| ==>
              Present(obj, order)[i].0 in order && Present(obj, order)[i].0 in obj
              && Present(obj, order)[i].1 == obj[Present(obj, order)[i].0] != ""
    ensures Distinct(order) ==> forall i, j :: 0 <= i < j < |Present(obj, order)| ==> Present(obj, order)[i].0 != Present(obj, order)[j].0
    ensures forall k :: k in order && k in obj && obj[k] != "" ==> (k, obj[k]) in Present(obj, order)
  {
    var n := |order| - 1;
    if n >= 0 {
      PresentFields(obj, order[..n]);
    }
  }

  /** The same for an event: its non-empty fields survive the trip exactly when none holds an inner key. */
  lemma {:induction false} FlattenedEventReadsBack(ch: Chars, obj: map<string, string>, order: seq<string>)
    requires CharsOk(ch) && Distinct(order) && forall k :: k in order ==> WordKey(ch, k)
    requires forall k :: k in order && k in obj && obj[k] != "" ==> Trimmed(ch, obj[k])
    ensures Extract(ch, Line(Present(obj, order))) == Present(obj, order)
       <==> forall k :: k in order && k in obj ==> !HasInnerKey(ch, obj[k])
  {
    var fs := Present(obj, order);
    PresentFields(obj, order);
    RoundTripIff(ch, fs);
    if forall k :: k in order && k in obj ==> !HasInnerKey(ch, obj[k]) {
    } else {
      var k :| k in order && k in obj && HasInnerKey(ch, obj[k]);
      assert (k, obj[k]) in fs;
      var i :| 0 <= i < |fs| && fs[i] == (k, obj[k]);
      assert HasInnerKey(ch, fs[i].1);
    }
  }

  // ------------------------------------------------------------------ repeated keys

  predicate DistinctKeys(d: Fields)
  {
    forall i, j :: 0 <= i < j < |d| ==> d[i].0 != d[j].0
  }

  lemma {:induction false} AssignIsUpdate(d: Fields, k: string, v: string)
    requires DistinctKeys(d)
    ensures DistinctKeys(Assign(d, k, v))
    ensures forall x :: x in Assign(d, k, v) <==> x == (k, v) || (x in d && x.0 != k)
  {
    if |d| > 0 {
      assert d == [d[0]] + d[1..];
      if d[0].0 != k {
        AssignIsUpdate(d[1..], k, v);
        var rest := Assign(d[1..], k, v);
        forall j | 0 <= j < |rest| ensures d[0].0 != rest[j].0 {
          assert rest[j] in rest;
        }
      } else {
        assert forall x :: x in d[1..] ==> x.0 != k;
      }
    }
  }

  ghost predicate LastAt(pairs: Fields, i: nat)
    requires i < |pairs|
  {
    forall j :: i < j < |pairs| ==> pairs[j].0 != pairs[i].0
  }

  ghost predicate LastEntry(pairs: Fields, i: nat, x: (string, string))
  {
    i < |pairs| && pairs[i] == x && LastAt(pairs, i)
  }

  /** A key that occurs more than once keeps the value of its last occurrence, and no other entry exists. */
  lemma {:induction false} LastValueWins(pairs: Fields)
    ensures DistinctKeys(AssignAll(pairs))
    ensures forall x :: x in AssignAll(pairs) <==> exists i: nat :: LastEntry(pairs, i, x)
  {
    var n := |pairs| - 1;
    if n >= 0 {
      var front, p := pairs[..n], pairs[n];
      LastValueWins(front);
      AssignIsUpdate(AssignAll(front), p.0, p.1);
      forall x ensures x in AssignAll(pairs) <==> exists i: nat :: LastEntry(pairs, i, x) {
        LastIn(front, p, x);
        assert pairs == front + [p];
      }
    }
  }

  lemma LastIn(front: Fields, p: (string, string), x: (string, string))
    ensures (exists i: nat :: LastEntry(front + [p], i, x))
       <==> x == p || (x.0 != p.0 && exists i: nat :: LastEntry(front, i, x))
  {
    var pairs, n := front + [p], |front|;
    if x == p {
      assert LastEntry(pairs, n, p);
    }
    if i: nat :| i < n && LastEntry(pairs, i, x) {
      assert pairs[n].0 != pairs[i].0;
      assert forall j :: 0 <= j < n ==> front[j] == pairs[j];
      assert LastAt(front, i);
      assert LastEntry(front, i, x);
    }
    if i: nat :| LastEntry(front, i, x) && x.0 != p.0 {
      assert LastEntry(pairs, i, x);
    }
  }
}
