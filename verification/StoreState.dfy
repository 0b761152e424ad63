/** What a token store holds in memory, and how minting, saving and detokenizing use it. */
module StoreState {
  import opened Spans
  import opened Sorting
  import opened Tokens
  import opened Wal
  import opened Optional

  type Pairs = map<string, string>

  datatype Store = Store(forward: Pairs, reverse: Pairs, pendingForward: Pairs, pendingReverse: Pairs)

  function Fresh(loaded: Batch): Store
  {
    Store(loaded.f, loaded.r, map[], map[])
  }

  function Pending(s: Store): Batch
  {
    Batch(s.pendingForward, s.pendingReverse)
  }

  /** get_or_create_token; `kind` is the lower-cased type. */
  function Mint(h: TextFn, s: Store, original: string, kind: string): Store
  {
    if original in s.forward then s else Enter(s, original, Token(h, kind, original))
  }

  function Enter(s: Store, original: string, token: string): Store
  {
    Store(s.forward[original := token], s.reverse[token := original],
          s.pendingForward[original := token], s.pendingReverse[token := original])
  }

  /** After a successful incremental save only the keys that were sent stop being pending. */
  function Persisted(s: Store, sent: Batch): Store
  {
    s.(pendingForward := s.pendingForward - sent.f.Keys, pendingReverse := s.pendingReverse - sent.r.Keys)
  }

  ghost predicate SubMap(a: Pairs, b: Pairs)
  {
    forall k :: k in a ==> k in b && a[k] == b[k]
  }

  /** Every forward entry can be reversed. */
  ghost predicate Linked(b: Batch)
  {
    forall x :: x in b.f ==> b.f[x] in b.r && b.r[b.f[x]] == x
  }

  /** In a batch of newly minted entries each token is also the forward entry of its original. */
  ghost predicate PairedUp(b: Batch)
  {
    Linked(b) && forall t :: t in b.r ==> b.r[t] in b.f && b.f[b.r[t]] == t
  }

  ghost predicate ValidStore(h: TextFn, dom: set<string>, s: Store)
  {
    && GenuineReverse(h, dom, s.reverse)
    && Linked(Batch(s.forward, s.reverse))
    && SubMap(s.pendingForward, s.forward) && SubMap(s.pendingReverse, s.reverse)
    && PairedUp(Pending(s))
  }

  lemma MintIsGenuine(h: TextFn, dom: set<string>, original: string, kind: string)
    requires original in dom
    ensures IsToken(h, dom, Token(h, kind, original), original)
  {
  }

  /** The token of an original without a forward entry is not used for anything else. */
  lemma UnusedToken(h: TextFn, dom: set<string>, s: Store, original: string, token: string)
    requires DigestShape(h) && NoCollision(h, dom) && ValidStore(h, dom, s)
    requires original !in s.forward && IsToken(h, dom, token, original)
    ensures token in s.reverse ==> s.reverse[token] == original
    ensures forall x :: x in s.forward ==> s.forward[x] != token
    ensures token !in s.pendingReverse
  {
    if token in s.reverse {
      TokenDeterminesOriginal(h, dom, token, s.reverse[token], original);
    }
  }

  lemma MintedIsPaired(b: Batch, original: string, token: string)
    requires PairedUp(b) && original !in b.f && token !in b.r
    ensures PairedUp(Batch(b.f[original := token], b.r[token := original]))
  {
  }

  lemma MintedIsLinked(b: Batch, original: string, token: string)
    requires Linked(b) && original !in b.f && (token in b.r ==> b.r[token] == original)
    ensures Linked(Batch(b.f[original := token], b.r[token := original]))
    ensures SubMap(b.f, b.f[original := token]) && SubMap(b.r, b.r[token := original])
  {
  }

  lemma SubMapGrows(a: Pairs, b: Pairs, k: string, v: string)
    requires SubMap(a, b)
    ensures SubMap(a[k := v], b[k := v])
  {
  }

  lemma GenuineGrows(h: TextFn, dom: set<string>, reverse: Pairs, token: string, original: string)
    requires GenuineReverse(h, dom, reverse) && IsToken(h, dom, token, original)
    ensures GenuineReverse(h, dom, reverse[token := original])
  {
  }

  lemma EnterKeepsValid(h: TextFn, dom: set<string>, s: Store, original: string, token: string)
    requires DigestShape(h) && NoCollision(h, dom) && ValidStore(h, dom, s)
    requires original !in s.forward && IsToken(h, dom, token, original)
    ensures ValidStore(h, dom, Enter(s, original, token))
    ensures SubMap(s.forward, Enter(s, original, token).forward)
    ensures SubMap(s.reverse, Enter(s, original, token).reverse)
  {
    UnusedToken(h, dom, s, original, token);
    MintedIsPaired(Pending(s), original, token);
    MintedIsLinked(Batch(s.forward, s.reverse), original, token);
    SubMapGrows(s.pendingForward, s.forward, original, token);
    SubMapGrows(s.pendingReverse, s.reverse, token, original);
    GenuineGrows(h, dom, s.reverse, token, original);
  }

  /**
    * Minting keeps the store valid, never changes an existing entry, and afterwards the original has a
    * token that reverses to it.
    */
  lemma MintKeepsValid(h: TextFn, dom: set<string>, s: Store, original: string, kind: string)
    requires DigestShape(h) && NoCollision(h, dom) && original in dom && ValidStore(h, dom, s)
    ensures ValidStore(h, dom, Mint(h, s, original, kind))
    ensures SubMap(s.forward, Mint(h, s, original, kind).forward)
    ensures SubMap(s.reverse, Mint(h, s, original, kind).reverse)
    ensures original in Mint(h, s, original, kind).forward
  {
    if original !in s.forward {
      MintIsGenuine(h, dom, original, kind);
      EnterKeepsValid(h, dom, s, original, Token(h, kind, original));
    }
  }

  // ------------------------------------------------------------------- whose token it is

  /** Says which original a token stands for, in whichever process and under whichever label it was minted. */
  type Owner = string -> Option<string>

  ghost predicate OwnerOf(h: TextFn, dom: set<string>, owner: Owner)
  {
    forall kind, x {:trigger Token(h, kind, x)} :: x in dom ==> owner(Token(h, kind, x)) == Some(x)
  }

  ghost function OriginalOf(h: TextFn, dom: set<string>, token: string): Option<string>
  {
    if exists x :: IsToken(h, dom, token, x) then var x :| IsToken(h, dom, token, x); Some(x) else None
  }

  /** Without digest collisions the owner of a token is well defined, so stored entries cannot conflict. */
  lemma OwnerExists(h: TextFn, dom: set<string>) returns (owner: Owner)
    requires DigestShape(h) && NoCollision(h, dom)
    ensures OwnerOf(h, dom, owner)
  {
    owner := (t: string) => OriginalOf(h, dom, t);
    forall kind, x | x in dom ensures owner(Token(h, kind, x)) == Some(x) {
      var t := Token(h, kind, x);
      MintIsGenuine(h, dom, x, kind);
      TokenDeterminesOriginal(h, dom, t, x, OriginalOf(h, dom, t).value);
    }
  }

  /** The same for plain labels only; then whatever has an owner is a plain token. */
  ghost predicate PlainOwnerOf(h: TextFn, dom: set<string>, owner: Owner)
  {
    && (forall kind, x {:trigger Token(h, kind, x)} :: PlainLabel(kind) && x in dom ==> owner(Token(h, kind, x)) == Some(x))
    && (forall t :: owner(t).Some? ==> IsPlainToken(h, dom, t, owner(t).value))
  }

  ghost function PlainOriginalOf(h: TextFn, dom: set<string>, token: string): Option<string>
  {
    if exists x :: IsPlainToken(h, dom, token, x) then var x :| IsPlainToken(h, dom, token, x); Some(x) else None
  }

  lemma PlainOwnerExists(h: TextFn, dom: set<string>) returns (owner: Owner)
    requires DigestShape(h) && NoCollision(h, dom)
    ensures PlainOwnerOf(h, dom, owner)
  {
    owner := (t: string) => PlainOriginalOf(h, dom, t);
    forall kind, x | PlainLabel(kind) && x in dom ensures owner(Token(h, kind, x)) == Some(x) {
      var t := Token(h, kind, x);
      assert IsPlainToken(h, dom, t, x);
      TokenDeterminesOriginal(h, dom, t, x, PlainOriginalOf(h, dom, t).value);
    }
  }

  // ------------------------------------------------------------- tokenize, detokenize

  /** tokenize's right-to-left pass, threading the store through the transform. */
  function TokenizeFrom(h: TextFn, lower: TextFn, s: Store, out: string, ordered: seq<Span>): (Store, string)
    decreases |ordered|
  {
    if ordered == [] then (s, out)
    else
      var x := ordered[0];
      var original := Slice(out, x.start, x.end);
      var s' := Mint(h, s, original, lower(x.etype));
      TokenizeFrom(h, lower, s', ReplaceAt(out, x, TokenOf(s', original)), ordered[1..])
  }

  /** The token a store answers for an original it knows. */
  function TokenOf(s: Store, original: string): string
  {
    if original in s.forward then s.forward[original] else original
  }

  function Tokenized(h: TextFn, lower: TextFn, s: Store, text: string, spans: seq<Span>): (Store, string)
  {
    TokenizeFrom(h, lower, s, text, Sort(StartGe, Dedup(spans)))
  }

  ghost predicate PlainLabels(lower: TextFn, spans: seq<Span>)
  {
    forall x :: x in spans ==> PlainLabel(lower(x.etype))
  }

  ghost function Lookup(s: Store): Transform
  {
    (original: string, x: Span) => TokenOf(s, original)
  }

  ghost predicate OriginalsIn(dom: set<string>, text: string, spans: seq<Span>)
    requires InText(spans, |text|)
  {
    forall x :: x in spans ==> text[x.start..x.end] in dom
  }

  /** After the last span is replaced the others still stand in the text, over the same originals. */
  lemma {:induction false} RestFits(dom: set<string>, out: string, init: seq<Span>, x: Span, replacement: string)
    requires Tiles(init + [x], 0, |out|) && InText(init + [x], |out|) && OriginalsIn(dom, out, init + [x])
    ensures var out1 := ReplaceAt(out, x, replacement);
      && Tiles(init, 0, |out1|) && InText(init, |out1|) && InText(init, |out|) && OriginalsIn(dom, out1, init)
      && (forall y :: y in init ==> out1[y.start..y.end] == out[y.start..y.end])
  {
    assert x in init + [x];
    assert forall y :: y in init ==> y in init + [x];
    TilesAppend(init, x, 0, |out|);
    LeftOfEdit(out, x, replacement, init);
  }

  lemma {:induction false} LastSpanFirst(h: TextFn, lower: TextFn, s: Store, out: string, init: seq<Span>, x: Span)
    requires x.start <= x.end <= |out|
    ensures var original := out[x.start..x.end];
      var s1 := Mint(h, s, original, lower(x.etype));
      TokenizeFrom(h, lower, s, out, Reverse(init + [x]))
      == TokenizeFrom(h, lower, s1, ReplaceAt(out, x, TokenOf(s1, original)), Reverse(init))
  {
    assert (init + [x])[..|init + [x]| - 1] == init;
    assert Reverse(init + [x]) == [x] + Reverse(init);
    assert Reverse(init + [x])[1..] == Reverse(init);
    assert Slice(out, x.start, x.end) == out[x.start..x.end];
  }

  lemma {:induction false} EditLastFirst(out: string, init: seq<Span>, x: Span, f: Transform)
    requires x.start <= x.end <= |out|
    ensures EditEach(out, Reverse(init + [x]), f)
         == EditEach(ReplaceAt(out, x, f(out[x.start..x.end], x)), Reverse(init), f)
  {
    assert (init + [x])[..|init + [x]| - 1] == init;
    assert Reverse(init + [x])[1..] == Reverse(init);
    assert Slice(out, x.start, x.end) == out[x.start..x.end];
  }

  lemma SubMapTransitive(a: Pairs, b: Pairs, c: Pairs)
    requires SubMap(a, b) && SubMap(b, c)
    ensures SubMap(a, c)
  {
  }

  /** A pass keeps the store valid, only adds to it, and leaves it knowing every original it replaced. */
  lemma {:induction false} TokenizeGrows(h: TextFn, dom: set<string>, lower: TextFn, s: Store, out: string, asc: seq<Span>)
    requires DigestShape(h) && NoCollision(h, dom) && ValidStore(h, dom, s)
    requires Tiles(asc, 0, |out|) && InText(asc, |out|) && OriginalsIn(dom, out, asc)
    ensures var s' := TokenizeFrom(h, lower, s, out, Reverse(asc)).0;
      && ValidStore(h, dom, s') && SubMap(s.forward, s'.forward) && SubMap(s.reverse, s'.reverse)
      && (forall x :: x in asc ==> out[x.start..x.end] in s'.forward)
    decreases |asc|
  {
    if asc != [] {
      var init, x := asc[..|asc| - 1], asc[|asc| - 1];
      assert asc == init + [x] && x in asc;
      var original := out[x.start..x.end];
      var s1 := Mint(h, s, original, lower(x.etype));
      MintKeepsValid(h, dom, s, original, lower(x.etype));
      var out1 := ReplaceAt(out, x, TokenOf(s1, original));
      RestFits(dom, out, init, x, TokenOf(s1, original));
      LastSpanFirst(h, lower, s, out, init, x);
      TokenizeGrows(h, dom, lower, s1, out1, init);
      var s' := TokenizeFrom(h, lower, s1, out1, Reverse(init)).0;
      SubMapTransitive(s.forward, s1.forward, s'.forward);
      SubMapTransitive(s.reverse, s1.reverse, s'.reverse);
    }
  }

  /** What the pass does to the text is an edit by any forward map that extends the final one. */
  lemma {:induction false} TokenizeEdits(h: TextFn, dom: set<string>, lower: TextFn, s: Store, out: string, asc: seq<Span>, last: Store)
    requires DigestShape(h) && NoCollision(h, dom) && ValidStore(h, dom, s)
    requires Tiles(asc, 0, |out|) && InText(asc, |out|) && OriginalsIn(dom, out, asc)
    requires SubMap(TokenizeFrom(h, lower, s, out, Reverse(asc)).0.forward, last.forward)
    ensures TokenizeFrom(h, lower, s, out, Reverse(asc)).1 == EditEach(out, Reverse(asc), Lookup(last))
    decreases |asc|
  {
    if asc != [] {
      var init, x := asc[..|asc| - 1], asc[|asc| - 1];
      assert asc == init + [x] && x in asc;
      var original := out[x.start..x.end];
      var s1 := Mint(h, s, original, lower(x.etype));
      MintKeepsValid(h, dom, s, original, lower(x.etype));
      var out1 := ReplaceAt(out, x, TokenOf(s1, original));
      RestFits(dom, out, init, x, TokenOf(s1, original));
      LastSpanFirst(h, lower, s, out, init, x);
      TokenizeGrows(h, dom, lower, s1, out1, init);
      TokenizeEdits(h, dom, lower, s1, out1, init, last);
      LastEdit(h, lower, s, out, init, x, last);
    }
  }

  /** The last span is replaced first, by the token the final store still has for it. */
  lemma {:induction false} LastEdit(h: TextFn, lower: TextFn, s: Store, out: string, init: seq<Span>, x: Span, last: Store)
    requires x.start <= x.end <= |out|
    requires var s1 := Mint(h, s, out[x.start..x.end], lower(x.etype));
      var out1 := ReplaceAt(out, x, TokenOf(s1, out[x.start..x.end]));
      && TokenOf(last, out[x.start..x.end]) == TokenOf(s1, out[x.start..x.end])
      && TokenizeFrom(h, lower, s1, out1, Reverse(init)).1 == EditEach(out1, Reverse(init), Lookup(last))
    ensures TokenizeFrom(h, lower, s, out, Reverse(init + [x])).1 == EditEach(out, Reverse(init + [x]), Lookup(last))
  {
    LastSpanFirst(h, lower, s, out, init, x);
    EditLastFirst(out, init, x, Lookup(last));
  }

  /**
    * Tokens never change once minted, so the whole pass is an edit by the final store's forward map,
    * which knows every original that was replaced.
    */
  lemma {:induction false} TokenizeIsLookup(h: TextFn, dom: set<string>, lower: TextFn, s: Store, out: string, asc: seq<Span>)
    requires DigestShape(h) && NoCollision(h, dom) && ValidStore(h, dom, s)
    requires Tiles(asc, 0, |out|) && InText(asc, |out|) && OriginalsIn(dom, out, asc)
    ensures var (s', out') := TokenizeFrom(h, lower, s, out, Reverse(asc));
      && ValidStore(h, dom, s')
      && SubMap(s.forward, s'.forward) && SubMap(s.reverse, s'.reverse)
      && out' == EditEach(out, Reverse(asc), Lookup(s'))
      && (forall x :: x in asc ==> out[x.start..x.end] in s'.forward)
  {
    TokenizeGrows(h, dom, lower, s, out, asc);
    TokenizeEdits(h, dom, lower, s, out, asc, TokenizeFrom(h, lower, s, out, Reverse(asc)).0);
  }

  lemma SliceOfPrefix(s: string, n: nat, a: nat, b: nat)
    requires a <= b <= n <= |s|
    ensures s[..n][a..b] == s[a..b]
  {
  }

  lemma {:induction false} LeftOfEdit(out: string, x: Span, replacement: string, init: seq<Span>)
    requires x.start <= x.end <= |out| && Tiles(init, 0, x.start)
    ensures var out1 := ReplaceAt(out, x, replacement);
      && InText(init, |out|) && InText(init, |out1|) && Tiles(init, 0, |out1|)
      && (forall y :: y in init ==> out1[y.start..y.end] == out[y.start..y.end])
  {
    var out1 := ReplaceAt(out, x, replacement);
    TilesBound(init, 0, x.start);
    TilesShorter(init, 0, x.start, |out1|);
    assert out1[..x.start] == out[..x.start];
    forall y | y in init ensures out1[y.start..y.end] == out[y.start..y.end] {
      SliceOfPrefix(out1, x.start, y.start, y.end);
      SliceOfPrefix(out, x.start, y.start, y.end);
    }
  }

  lemma {:induction false} TilesShorter(asc: seq<Span>, pos: nat, n: nat, m: nat)
    requires Tiles(asc, pos, n) && n <= m
    ensures Tiles(asc, pos, m)
    decreases |asc|
  {
    if asc != [] {
      TilesShorter(asc[1..], asc[0].end, n, m);
    }
  }

  ghost predicate PlainReverse(h: TextFn, dom: set<string>, reverse: Pairs)
  {
    forall t :: t in reverse ==> IsPlainToken(h, dom, t, reverse[t])
  }

  lemma MintKeepsPlain(h: TextFn, dom: set<string>, s: Store, original: string, kind: string)
    requires PlainReverse(h, dom, s.reverse) && original in dom && PlainLabel(kind)
    ensures PlainReverse(h, dom, Mint(h, s, original, kind).reverse)
  {
    assert IsPlainToken(h, dom, Token(h, kind, original), original);
  }

  lemma {:induction false} TokenizeKeepsPlain(h: TextFn, dom: set<string>, lower: TextFn, s: Store, out: string, asc: seq<Span>)
    requires PlainReverse(h, dom, s.reverse) && PlainLabels(lower, asc)
    requires Tiles(asc, 0, |out|) && InText(asc, |out|) && OriginalsIn(dom, out, asc)
    ensures PlainReverse(h, dom, TokenizeFrom(h, lower, s, out, Reverse(asc)).0.reverse)
    decreases |asc|
  {
    if asc != [] {
      var init, x := asc[..|asc| - 1], asc[|asc| - 1];
      assert asc == init + [x] && x in asc;
      var original := out[x.start..x.end];
      var s1 := Mint(h, s, original, lower(x.etype));
      MintKeepsPlain(h, dom, s, original, lower(x.etype));
      RestFits(dom, out, init, x, TokenOf(s1, original));
      LastSpanFirst(h, lower, s, out, init, x);
      assert forall y :: y in init ==> y in asc;
      TokenizeKeepsPlain(h, dom, lower, s1, ReplaceAt(out, x, TokenOf(s1, original)), init);
    }
  }

  /** All that the round trips below ask of a store, a text and its spans. */
  ghost predicate Tokenizable(h: TextFn, dom: set<string>, lower: TextFn, s: Store, text: string, spans: seq<Span>)
  {
    && DigestShape(h) && NoCollision(h, dom) && ValidStore(h, dom, s) && PlainReverse(h, dom, s.reverse)
    && Separated(spans) && InText(spans, |text|) && PlainLabels(lower, spans) && OriginalsIn(dom, text, spans)
  }

  /** Tokenizing edits the text by the final store, whose entries are plain tokens for every span. */
  lemma TokenizedEdits(h: TextFn, dom: set<string>, lower: TextFn, s: Store, text: string, spans: seq<Span>)
    requires Tokenizable(h, dom, lower, s, text, spans)
    ensures var (s', out) := Tokenized(h, lower, s, text, spans);
      && ValidStore(h, dom, s') && PlainReverse(h, dom, s'.reverse)
      && SubMap(s.forward, s'.forward) && SubMap(s.reverse, s'.reverse)
      && out == RightToLeft(text, spans, Lookup(s'))
      && (forall x :: x in spans ==> TokenOf(s', text[x.start..x.end]) in s'.reverse
                                     && s'.reverse[TokenOf(s', text[x.start..x.end])] == text[x.start..x.end])
  {
    var asc := Sort(StartLe, spans);
    SortedSeparated(spans, |text|);
    DescendingIsReversed(asc);
    SameElements(spans, asc);
    ReverseIndex(asc);
    SameElements(asc, Reverse(asc));
    TokenizeIsLookup(h, dom, lower, s, text, asc);
    TokenizeKeepsPlain(h, dom, lower, s, text, asc);
    var s' := Tokenized(h, lower, s, text, spans).0;
    forall x | x in spans
      ensures TokenOf(s', text[x.start..x.end]) in s'.reverse
      ensures s'.reverse[TokenOf(s', text[x.start..x.end])] == text[x.start..x.end]
    {
      assert x in asc && text[x.start..x.end] in s'.forward;
    }
  }

  /** The text spells out a token of the store clear of the spans it replaces, and it is not its own original. */
  ghost predicate Spoils(s: Store, text: string, spans: seq<Span>, token: string)
    requires token in s.reverse
  {
    Harms(text, spans, Lookup(s), (token, s.reverse[token]))
  }

  ghost predicate NothingSpoils(s: Store, text: string, spans: seq<Span>)
  {
    forall t :: t in s.reverse ==> !Spoils(s, text, spans, t)
  }

  lemma ItemsGenuine(h: TextFn, dom: set<string>, items: seq<(string, string)>, reverse: Pairs)
    requires Enumerates(items, reverse) && PlainReverse(h, dom, reverse)
    ensures GenuineItems(h, dom, items) && DistinctTokens(items)
    ensures forall i :: 0 <= i < |items| ==> items[i].0 != []
    ensures forall t :: t in reverse ==> Listed(items, t)
  {
    forall i | 0 <= i < |items| ensures IsPlainToken(h, dom, items[i].0, items[i].1) && items[i].0 != [] {
      assert items[i].0 in reverse;
    }
  }

  /**
    * Round trip: tokenizing separated spans (in any order, any types, originals and labels may repeat)
    * and detokenizing against the resulting store, iterated in any order and holding any other tokens,
    * gives back the text. It takes only that the text spells out no stored token outside its spans.
    */
  lemma {:induction false} DetokenizeUndoesTokenize(h: TextFn, dom: set<string>, lower: TextFn, s: Store, text: string, spans: seq<Span>,
                                 items: seq<(string, string)>)
    requires Tokenizable(h, dom, lower, s, text, spans)
    requires NothingSpoils(Tokenized(h, lower, s, text, spans).0, text, spans)
    requires Enumerates(items, Tokenized(h, lower, s, text, spans).0.reverse)
    ensures forall i :: 0 <= i < |items| ==> items[i].0 != []
    ensures ReplaceAll(Tokenized(h, lower, s, text, spans).1, items) == text
  {
    TokenizedEdits(h, dom, lower, s, text, spans);
    var s' := Tokenized(h, lower, s, text, spans).0;
    ItemsGenuine(h, dom, items, s'.reverse);
    forall i | 0 <= i < |items| ensures !Harms(text, spans, Lookup(s'), items[i]) {
      assert items[i].0 in s'.reverse && !Spoils(s', text, spans, items[i].0);
    }
    EditThenRestore(h, dom, text, spans, Lookup(s'), items);
  }

  ghost predicate Restores(out: string, items: seq<(string, string)>, text: string)
  {
    (forall i :: 0 <= i < |items| ==> items[i].0 != []) && ReplaceAll(out, items) == text
  }

  /** Whatever order the reverse map is iterated in. */
  ghost predicate AlwaysRestores(out: string, reverse: Pairs, text: string)
  {
    forall items :: Enumerates(items, reverse) ==> Restores(out, items, text)
  }

  lemma {:induction false} EnumerationExists(m: Pairs) returns (items: seq<(string, string)>)
    ensures Enumerates(items, m)
    decreases |m|
  {
    if m == map[] {
      items := [];
    } else {
      var t :| t in m;
      var rest := m - {t};
      assert m.Keys == rest.Keys + {t};
      var front := EnumerationExists(rest);
      items := EnumerateLast(m, t, front);
    }
  }

  lemma EnumerateLast(m: Pairs, t: string, front: seq<(string, string)>) returns (items: seq<(string, string)>)
    requires t in m && Enumerates(front, m - {t})
    ensures items == front + [(t, m[t])] && Enumerates(items, m) && !Listed(front, t)
  {
    items := front + [(t, m[t])];
    forall u | u in m ensures exists i :: 0 <= i < |items| && items[i].0 == u {
      if u == t {
        assert items[|front|].0 == u;
      } else {
        assert u in m - {t};
        var i :| 0 <= i < |front| && front[i].0 == u;
        assert items[i].0 == u;
      }
    }
  }

  /** One spoiling token in the store, taken last, and the text does not come back. */
  lemma SpoilingTokenLast(h: TextFn, dom: set<string>, lower: TextFn, s: Store, text: string, spans: seq<Span>, t: string)
      returns (items: seq<(string, string)>)
    requires Tokenizable(h, dom, lower, s, text, spans)
    requires var s' := Tokenized(h, lower, s, text, spans).0;
      t in s'.reverse && Spoils(s', text, spans, t) && forall u :: u in s'.reverse && u != t ==> !Spoils(s', text, spans, u)
    ensures Enumerates(items, Tokenized(h, lower, s, text, spans).0.reverse)
    ensures !Restores(Tokenized(h, lower, s, text, spans).1, items, text)
  {
    TokenizedEdits(h, dom, lower, s, text, spans);
    var s' := Tokenized(h, lower, s, text, spans).0;
    var front := EnumerationExists(s'.reverse - {t});
    items := EnumerateLast(s'.reverse, t, front);
    ItemsGenuine(h, dom, items, s'.reverse);
    var item := (t, s'.reverse[t]);
    forall i | 0 <= i < |front| ensures IsPlainToken(h, dom, front[i].0, front[i].1) && !Harms(text, spans, Lookup(s'), front[i]) {
      assert items[i] == front[i] && front[i].0 in s'.reverse && !Spoils(s', text, spans, front[i].0);
    }
    assert items[|front|] == item;
    HarmSpoils(h, dom, text, spans, Lookup(s'), front, item);
  }

  /**
    * When the round trip holds: over all iteration orders, exactly if no stored token spoils it. The
    * direction from success needs that not two different tokens spoil, whose damage might cancel out.
    */
  lemma RoundTripIff(h: TextFn, dom: set<string>, lower: TextFn, s: Store, text: string, spans: seq<Span>)
    requires Tokenizable(h, dom, lower, s, text, spans)
    ensures var (s', out) := Tokenized(h, lower, s, text, spans);
      NothingSpoils(s', text, spans) ==> AlwaysRestores(out, s'.reverse, text)
    ensures var (s', out) := Tokenized(h, lower, s, text, spans);
      (forall t, u :: t in s'.reverse && u in s'.reverse && Spoils(s', text, spans, t) && Spoils(s', text, spans, u) ==> t == u)
      ==> (AlwaysRestores(out, s'.reverse, text) <==> NothingSpoils(s', text, spans))
  {
    var (s', out) := Tokenized(h, lower, s, text, spans);
    if NothingSpoils(s', text, spans) {
      forall items | Enumerates(items, s'.reverse) ensures Restores(out, items, text) {
        DetokenizeUndoesTokenize(h, dom, lower, s, text, spans, items);
      }
    } else if forall t, u :: t in s'.reverse && u in s'.reverse && Spoils(s', text, spans, t) && Spoils(s', text, spans, u) ==> t == u {
      var t :| t in s'.reverse && Spoils(s', text, spans, t);
      var items := SpoilingTokenLast(h, dom, lower, s, text, spans, t);
    }
  }

  /**
    * A failing input for every token: a store that has just minted it, and the text that spells it out.
    * Tokenizing finds nothing to do, and detokenizing gives the original instead.
    */
  lemma LiteralTokenIsRewritten(h: TextFn, dom: set<string>, lower: TextFn, kind: string, original: string)
    requires DigestShape(h) && NoCollision(h, dom) && PlainLabel(kind) && original in dom
    requires Token(h, kind, original) != original
    ensures var t, s := Token(h, kind, original), Mint(h, Fresh(NOTHING), original, kind);
      && Tokenizable(h, dom, lower, s, t, []) && Tokenized(h, lower, s, t, []) == (s, t)
      && Spoils(s, t, [], t)
      && Enumerates([(t, original)], s.reverse) && Restores(t, [(t, original)], original)
      && !AlwaysRestores(t, s.reverse, t)
  {
    var t, s := Token(h, kind, original), Mint(h, Fresh(NOTHING), original, kind);
    var items := [(t, original)];
    MintKeepsValid(h, dom, Fresh(NOTHING), original, kind);
    MintKeepsPlain(h, dom, Fresh(NOTHING), original, kind);
    assert Sort(StartGe, Dedup([])) == [];
    assert s.reverse == map[t := original] && items[0].0 == t;
    assert SpelledAt(t, t, 0) && ClearOf(t, [], Lookup(s), t, 0);
    assert |items[1..]| == 0;
    assert t[..|t|] == t && t[|t|..] == [];
    assert Replace(t, t, original) == original + Replace([], t, original);
    assert Restores(t, items, original);
    assert Enumerates(items, s.reverse) && !Restores(t, items, t);
  }
}
