/**
  * Token shape, Python's str.replace, and the tokenize/detokenize round trip
  * (src/anonymize.py). The keyed digest is a parameter `h`; lower-casing of the type is `lower`.
  */
module Tokens {
  import opened Spans
  import opened Sorting

  type TextFn = string -> string

  const DIGEST_LEN: nat := 32
  const MARK: string := "tok_"

  predicate IsHex(c: char) { '0' <= c <= '9' || 'a' <= c <= 'f' }

  /** What hexdigest()[:32] always looks like. */
  ghost predicate DigestShape(h: TextFn)
  {
    forall x: string :: |h(x)| == DIGEST_LEN && forall i :: 0 <= i < DIGEST_LEN ==> IsHex(h(x)[i])
  }

  /** No two of the originals in play have the same digest. */
  ghost predicate NoCollision(h: TextFn, dom: set<string>)
  {
    forall x, y :: x in dom && y in dom && h(x) == h(y) ==> x == y
  }

  function Token(h: TextFn, kind: string, original: string): string
  {
    MARK + kind + "_" + h(original)
  }

  predicate StartsWith(s: string, w: string)
  {
    |w| <= |s| && s[..|w|] == w
  }

  predicate OccursAt(w: string, s: string, i: int)
  {
    0 <= i <= |s| && StartsWith(s[i..], w)
  }

  predicate Occurs(w: string, s: string)
  {
    exists i | 0 <= i <= |s| :: OccursAt(w, s, i)
  }

  /** An underscore followed by what could be a digest. */
  predicate DigestAt(kind: string, i: int)
  {
    0 <= i && i + DIGEST_LEN < |kind| && kind[i] == '_' && forall k | i < k <= i + DIGEST_LEN :: IsHex(kind[k])
  }

  predicate HoldsDigest(kind: string)
  {
    exists i | 0 <= i < |kind| :: DigestAt(kind, i)
  }

  /** A kind that cannot be mistaken for another token: no "tok_" and no digest inside. */
  predicate PlainLabel(kind: string)
  {
    !Occurs(MARK, kind + "_") && !HoldsDigest(kind)
  }

  /** The kinds the default policy tokenizes, in lower case. */
  lemma TokenizedKindsArePlain()
    ensures forall kind :: kind in ["email", "mrn", "credit_card", "ssn"] ==> PlainLabel(kind)
  {
    forall kind, i | kind in ["email", "mrn", "credit_card", "ssn"] && 0 <= i <= |kind + "_"|
      ensures !OccursAt(MARK, kind + "_", i)
    {
      var s := (kind + "_")[i..];
      assert MARK[2] == 'k' && (|s| > 2 ==> s[2] == (kind + "_")[i + 2]);
    }
  }

  ghost predicate IsToken(h: TextFn, dom: set<string>, token: string, original: string)
  {
    original in dom && exists kind :: token == Token(h, kind, original)
  }

  ghost predicate IsPlainToken(h: TextFn, dom: set<string>, token: string, original: string)
  {
    original in dom && exists kind :: PlainLabel(kind) && token == Token(h, kind, original)
  }

  /** One token has one original: the kind does not enter the digest, but it cannot hide it either. */
  lemma TokenDeterminesOriginal(h: TextFn, dom: set<string>, token: string, x: string, y: string)
    requires DigestShape(h) && NoCollision(h, dom)
    requires IsToken(h, dom, token, x) && IsToken(h, dom, token, y)
    ensures x == y
  {
    assert token[|token| - DIGEST_LEN..] == h(x);
    assert token[|token| - DIGEST_LEN..] == h(y);
  }

  // --------------------------------------------------------------------- str.replace

  function Replace(s: string, w: string, r: string): string
    requires w != []
    decreases |s|
  {
    if s == [] then []
    else if StartsWith(s, w) then r + Replace(s[|w|..], w, r)
    else [s[0]] + Replace(s[1..], w, r)
  }

  lemma {:induction false} ReplaceSkips(a: string, b: string, w: string, r: string)
    requires w != []
    requires forall i :: 0 <= i < |a| ==> !StartsWith(a[i..] + b, w)
    ensures Replace(a + b, w, r) == a + Replace(b, w, r)
    decreases |a|
  {
    if a == [] {
      assert a + b == b;
    } else {
      assert !StartsWith(a[0..] + b, w) && a[0..] == a;
      assert (a + b)[1..] == a[1..] + b;
      forall i | 0 <= i < |a[1..]| ensures !StartsWith(a[1..][i..] + b, w) {
        assert a[1..][i..] == a[i + 1..];
      }
      ReplaceSkips(a[1..], b, w, r);
    }
  }

  // ----------------------------------------------------- where a token can be matched

  lemma StartsAt(s: string, w: string, k: nat)
    requires k < |w|
    ensures StartsWith(s, w) ==> |w| <= |s| && s[k] == w[k]
  {
    if |w| <= |s| {
      assert s[k] == s[..|w|][k];
    }
  }

  /** No "tok_" begins inside a token after its first character, whatever follows the token. */
  lemma MarkOnlyAtStart(h: TextFn, kind: string, original: string, rest: string, i: nat)
    requires DigestShape(h) && PlainLabel(kind)
    requires 0 < i < |Token(h, kind, original)|
    ensures !StartsWith(Token(h, kind, original)[i..] + rest, MARK)
  {
    var t := Token(h, kind, original);
    var s := t[i..] + rest;
    var d := |MARK| + |kind| + 1;
    if i < |MARK| {
      assert s[0] == MARK[i];
      StartsAt(s, MARK, 0);
    } else if i + |MARK| <= d {
      var body := kind + "_";
      assert t[|MARK|..d] == body;
      assert s[..|MARK|] == body[i - |MARK|..][..|MARK|];
      assert !OccursAt(MARK, body, i - |MARK|);
    } else {
      var k := if i < d then d - i else 0;
      assert s[k] == h(original)[i + k - d];
      assert IsHex(s[k]);
      StartsAt(s, MARK, k);
    }
  }

  /** Two tokens that begin at one place: the longer kind holds the other's digest. */
  lemma DigestFollows(s: string, l1: string, l2: string)
    requires |MARK| + |l1| + 1 + DIGEST_LEN <= |s| && |MARK| + |l2| < |s|
    requires s[|MARK| + |l1|] == '_' && s[|MARK| + |l2|] == '_' && s[|MARK|..|MARK| + |l2|] == l2
    requires forall k :: |MARK| + |l1| < k <= |MARK| + |l1| + DIGEST_LEN ==> IsHex(s[k])
    ensures |l2| <= |l1| || HoldsDigest(l2)
  {
    if |l1| < |l2| {
      assert |l1| + DIGEST_LEN < |l2|;
      assert l2[|l1|] == s[|MARK| + |l1|];
      forall k | |l1| < k <= |l1| + DIGEST_LEN ensures IsHex(l2[k]) {
        assert l2[k] == s[|MARK| + k];
      }
      assert DigestAt(l2, |l1|);
    }
  }

  /** A token matches at the start of another token only if they are the same token. */
  lemma NoPrefixToken(h: TextFn, l1: string, x1: string, l2: string, x2: string, rest: string)
    requires DigestShape(h) && PlainLabel(l1) && PlainLabel(l2)
    requires StartsWith(Token(h, l1, x1) + rest, Token(h, l2, x2))
    ensures Token(h, l1, x1) == Token(h, l2, x2)
  {
    var t1, t2 := Token(h, l1, x1), Token(h, l2, x2);
    var s := t1 + rest;
    assert s[..|t2|] == t2;
    TokenParts(h, l1, x1, rest);
    TokenParts(h, l2, x2, s[|t2|..]);
    assert t2 + s[|t2|..] == s;
    DigestFollows(s, l1, l2);
    DigestFollows(s, l2, l1);
    assert s[..|t2|] == t1;
  }

  lemma TokenParts(h: TextFn, kind: string, original: string, rest: string)
    requires DigestShape(h)
    ensures var s := Token(h, kind, original) + rest;
      && |MARK| + |kind| + 1 + DIGEST_LEN <= |s|
      && s[|MARK| + |kind|] == '_' && s[|MARK|..|MARK| + |kind|] == kind
      && forall k :: |MARK| + |kind| < k <= |MARK| + |kind| + DIGEST_LEN ==> IsHex(s[k])
  {
    var s, d := Token(h, kind, original) + rest, |MARK| + |kind| + 1;
    forall k | d <= k < d + DIGEST_LEN ensures IsHex(s[k]) {
      assert s[k] == h(original)[k - d];
    }
  }

  // ------------------------------------------------------------- partly restored text

  /** Text while it is being restored: literal stretches, and tokens with the originals they stand for. */
  datatype Piece = Lit(text: string) | Tok(token: string, original: string)

  function Now(p: Piece): string { match p case Lit(s) => s case Tok(t, _) => t }

  function Was(p: Piece): string { match p case Lit(s) => s case Tok(_, o) => o }

  function Render(ps: seq<Piece>): string
  {
    if ps == [] then "" else Now(ps[0]) + Render(ps[1..])
  }

  function Restored(ps: seq<Piece>): string
  {
    if ps == [] then "" else Was(ps[0]) + Restored(ps[1..])
  }

  function RestorePiece(p: Piece, token: string): Piece
  {
    if p.Tok? && p.token == token then Lit(p.original) else p
  }

  function RestoreToken(ps: seq<Piece>, token: string): seq<Piece>
  {
    if ps == [] then [] else [RestorePiece(ps[0], token)] + RestoreToken(ps[1..], token)
  }

  ghost predicate GenuinePieces(h: TextFn, dom: set<string>, ps: seq<Piece>)
  {
    forall p :: p in ps && p.Tok? ==> IsPlainToken(h, dom, p.token, p.original)
  }

  lemma FirstAndRest(h: TextFn, dom: set<string>, ps: seq<Piece>)
    requires ps != [] && GenuinePieces(h, dom, ps)
    ensures GenuinePieces(h, dom, ps[1..]) && (ps[0].Tok? ==> IsPlainToken(h, dom, ps[0].token, ps[0].original))
  {
    assert ps[0] in ps;
  }

  predicate Owns(p: Piece, token: string)
  {
    p.Tok? && p.token == token
  }

  /** The text as it was, except that `token` still stands where it was put. */
  function View(ps: seq<Piece>, token: string): string
  {
    if ps == [] then "" else (if Owns(ps[0], token) then token else Was(ps[0])) + View(ps[1..], token)
  }

  /** A match of `token` begins in `s`, which the rest of the pieces follow. */
  ghost predicate BeginsAt(s: string, k: int, v: string, token: string)
  {
    0 <= k < |s| && StartsWith(s[k..] + v, token)
  }

  ghost predicate BeginsIn(s: string, rest: seq<Piece>, token: string)
  {
    exists k :: BeginsAt(s, k, View(rest, token), token)
  }

  /** `token` is spelled out in what the other pieces stand for. */
  ghost predicate Strays(ps: seq<Piece>, token: string)
  {
    ps != [] && (Strays(ps[1..], token) || (!Owns(ps[0], token) && BeginsIn(Was(ps[0]), ps[1..], token)))
  }

  /** The pieces without the first character of the text the first one stands for. */
  function Less(ps: seq<Piece>): seq<Piece>
    requires ps != [] && Was(ps[0]) != ""
  {
    [Lit(Was(ps[0])[1..])] + ps[1..]
  }

  lemma {:induction false} LessFacts(ps: seq<Piece>, token: string)
    requires ps != [] && Was(ps[0]) != "" && !Owns(ps[0], token)
    ensures View(ps, token) == [Was(ps[0])[0]] + View(Less(ps), token)
    ensures Restored(ps) == [Was(ps[0])[0]] + Restored(Less(ps))
    ensures ps[0].Lit? ==> Render(ps) == [Was(ps[0])[0]] + Render(Less(ps))
  {
    var s, rest := Was(ps[0]), ps[1..];
    assert Less(ps)[1..] == rest && Less(ps)[0] == Lit(s[1..]);
    ConsConcat(s, View(rest, token));
    ConsConcat(s, Restored(rest));
    ConsConcat(s, Render(rest));
  }

  lemma ConsConcat(w: string, s: string)
    requires w != ""
    ensures [w[0]] + (w[1..] + s) == w + s
  {
  }

  lemma LessIsGenuine(h: TextFn, dom: set<string>, ps: seq<Piece>)
    requires ps != [] && Was(ps[0]) != "" && GenuinePieces(h, dom, ps)
    ensures GenuinePieces(h, dom, Less(ps))
  {
  }

  lemma {:induction false} LessStrays(ps: seq<Piece>, token: string)
    requires ps != [] && Was(ps[0]) != "" && !Owns(ps[0], token) && Strays(ps, token)
    ensures Strays(Less(ps), token) || StartsWith(View(ps, token), token)
  {
    var s, rest := Was(ps[0]), ps[1..];
    assert Less(ps)[1..] == rest;
    if !Strays(rest, token) {
      var k :| BeginsAt(s, k, View(rest, token), token);
      if k == 0 {
        assert s[0..] == s;
      } else {
        assert s[1..][k - 1..] == s[k..];
        assert BeginsAt(s[1..], k - 1, View(rest, token), token);
      }
    }
  }

  /** A non-empty end of a token other than the whole: it cannot run into the "tok_" of another token. */
  ghost predicate TokenTail(w: string)
  {
    w != "" ==> IsHex(w[|w| - 1]) && !StartsWith(w, MARK) && (|w| > 1 ==> TokenTail(w[1..]))
  }

  lemma {:induction false} TailFrom(w: string)
    requires |w| > 0 && IsHex(w[|w| - 1]) && forall i :: 0 <= i < |w| ==> !StartsWith(w[i..], MARK)
    ensures TokenTail(w)
  {
    assert w[0..] == w;
    if |w| > 1 {
      forall i | 0 <= i < |w[1..]| ensures !StartsWith(w[1..][i..], MARK) {
        assert w[1..][i..] == w[i + 1..];
      }
      TailFrom(w[1..]);
    }
  }

  lemma RestIsTail(h: TextFn, dom: set<string>, token: string, original: string)
    requires DigestShape(h) && IsPlainToken(h, dom, token, original)
    ensures |token| > |MARK| && token[0] == 't' && StartsWith(token, MARK) && TokenTail(token[1..])
  {
    var kind :| PlainLabel(kind) && token == Token(h, kind, original);
    var w := token[1..];
    assert w[|w| - 1] == h(original)[DIGEST_LEN - 1];
    assert IsHex(h(original)[DIGEST_LEN - 1]);
    forall i | 0 <= i < |w| ensures !StartsWith(w[i..], MARK) {
      MarkOnlyAtStart(h, kind, original, "", i + 1);
      assert token[i + 1..] + "" == w[i..];
    }
    TailFrom(w);
  }

  lemma StartsCons(c: char, s: string, d: char, w: string)
    ensures StartsWith([c] + s, [d] + w) <==> c == d && StartsWith(s, w)
  {
    if |w| <= |s| {
      assert ([c] + s)[..|w| + 1] == [c] + s[..|w|];
      assert ([c] + s)[..|w| + 1][0] == c && ([d] + w)[0] == d;
      assert ([c] + s)[..|w| + 1][1..] == s[..|w|] && ([d] + w)[1..] == w;
    }
  }

  /** A tail never matches where a token begins. */
  lemma {:induction false} TailMissesToken(w: string, token: string, rest: string)
    requires TokenTail(w) && w != "" && StartsWith(token, MARK)
    ensures !StartsWith(token + rest, w)
  {
    var s, n := token + rest, |w|;
    assert s[..|MARK|] == token[..|MARK|] == MARK;
    if n >= |MARK| {
      if n <= |s| {
        assert s[..n][..|MARK|] == s[..|MARK|];
      }
    } else {
      assert s[..n][n - 1] == s[n - 1] == s[..|MARK|][n - 1] == MARK[n - 1];
    }
  }

  /** Matching a tail takes characters off one at a time, so only plain text can be taken. */
  lemma {:induction false} TailStep(c: char, s: string, w: string)
    requires TokenTail(w) && w != ""
    ensures StartsWith([c] + s, w) <==> c == w[0] && StartsWith(s, w[1..])
    ensures TokenTail(w[1..])
  {
    assert w == [w[0]] + w[1..];
    StartsCons(c, s, w[0], w[1..]);
  }

  /** A tail found in partly restored text is found in the text itself: it never reaches a token. */
  lemma {:induction false} TailInPlainText(h: TextFn, dom: set<string>, ps: seq<Piece>, token: string, w: string)
    requires DigestShape(h) && GenuinePieces(h, dom, ps) && TokenTail(w) && StartsWith(Render(ps), w)
    ensures StartsWith(View(ps, token), w)
    decreases |w|, |ps|
  {
    if w != "" {
      FirstAndRest(h, dom, ps);
      if ps[0].Tok? {
        RestIsTail(h, dom, ps[0].token, ps[0].original);
        TailMissesToken(w, ps[0].token, Render(ps[1..]));
      } else if ps[0].text == "" {
        TailInPlainText(h, dom, ps[1..], token, w);
      } else {
        LessIsGenuine(h, dom, ps);
        TailOfLess(ps, token, w);
        TailInPlainText(h, dom, Less(ps), token, w[1..]);
      }
    }
  }

  lemma {:induction false} TailOfLess(ps: seq<Piece>, token: string, w: string)
    requires ps != [] && ps[0].Lit? && ps[0].text != "" && w != "" && TokenTail(w)
    ensures TokenTail(w[1..])
    ensures StartsWith(Render(ps), w) ==> StartsWith(Render(Less(ps)), w[1..])
    ensures StartsWith(Render(ps), w) && StartsWith(View(Less(ps), token), w[1..]) ==> StartsWith(View(ps, token), w)
  {
    LessFacts(ps, token);
    TailStep(ps[0].text[0], Render(Less(ps)), w);
    TailStep(ps[0].text[0], View(Less(ps), token), w);
  }

  lemma {:induction false} TokenInPlainText(h: TextFn, dom: set<string>, c: char, ps: seq<Piece>, token: string, original: string)
    requires DigestShape(h) && GenuinePieces(h, dom, ps) && IsPlainToken(h, dom, token, original)
    requires StartsWith([c] + Render(ps), token)
    ensures StartsWith([c] + View(ps, token), token)
  {
    RestIsTail(h, dom, token, original);
    assert token == [token[0]] + token[1..];
    StartsCons(c, Render(ps), token[0], token[1..]);
    StartsCons(c, View(ps, token), token[0], token[1..]);
    TailInPlainText(h, dom, ps, token, token[1..]);
  }

  /** A token found in partly restored text at a place where no token was put strays. */
  lemma {:induction false} LiteralHoldsNoToken(h: TextFn, dom: set<string>, s: string, i: nat, rest: seq<Piece>, token: string, original: string)
    requires DigestShape(h) && GenuinePieces(h, dom, rest) && IsPlainToken(h, dom, token, original)
    requires i < |s| && !BeginsIn(s, rest, token)
    ensures !StartsWith(s[i..] + Render(rest), token)
  {
    var c, ps := s[i], [Lit(s[i + 1..])] + rest;
    LiteralFrom(s, i, rest, token);
    assert !BeginsAt(s, i, View(rest, token), token);
    if StartsWith([c] + Render(ps), token) {
      TokenInPlainText(h, dom, c, ps, token, original);
    }
  }

  lemma LiteralFrom(s: string, i: nat, rest: seq<Piece>, token: string)
    requires i < |s|
    ensures var ps := [Lit(s[i + 1..])] + rest;
      s[i..] + Render(rest) == [s[i]] + Render(ps) && s[i..] + View(rest, token) == [s[i]] + View(ps, token)
  {
    var ps, w := [Lit(s[i + 1..])] + rest, s[i..];
    assert ps[1..] == rest && w[1..] == s[i + 1..];
    ConsConcat(w, Render(rest));
    ConsConcat(w, View(rest, token));
  }

  lemma {:induction false} ReplaceInLiteral(h: TextFn, dom: set<string>, s: string, rest: seq<Piece>, token: string, original: string)
    requires DigestShape(h) && GenuinePieces(h, dom, rest) && IsPlainToken(h, dom, token, original)
    requires !Strays([Lit(s)] + rest, token)
    ensures Replace(s + Render(rest), token, original) == s + Replace(Render(rest), token, original)
  {
    assert ([Lit(s)] + rest)[1..] == rest;
    forall i | 0 <= i < |s| ensures !StartsWith(s[i..] + Render(rest), token) {
      LiteralHoldsNoToken(h, dom, s, i, rest, token, original);
    }
    ReplaceSkips(s, Render(rest), token, original);
  }

  /**
    * One step of the detokenize loop: replacing a stored token that does not stray touches exactly the
    * places where that token was put, never a restored stretch and never another token.
    */
  lemma {:induction false} ReplaceRestores(h: TextFn, dom: set<string>, ps: seq<Piece>, token: string, original: string)
    requires DigestShape(h) && NoCollision(h, dom) && GenuinePieces(h, dom, ps) && IsPlainToken(h, dom, token, original)
    requires !Strays(ps, token)
    ensures Replace(Render(ps), token, original) == Render(RestoreToken(ps, token))
    decreases |ps|
  {
    if ps != [] {
      FirstAndRest(h, dom, ps);
      ReplaceRestores(h, dom, ps[1..], token, original);
      ReplaceInFirst(h, dom, ps, token, original);
      assert RestoreToken(ps, token)[1..] == RestoreToken(ps[1..], token);
    }
  }

  lemma {:induction false} ReplaceInFirst(h: TextFn, dom: set<string>, ps: seq<Piece>, token: string, original: string)
    requires DigestShape(h) && NoCollision(h, dom) && GenuinePieces(h, dom, ps) && IsPlainToken(h, dom, token, original)
    requires ps != [] && !Strays(ps, token)
    ensures Replace(Now(ps[0]) + Render(ps[1..]), token, original)
         == Now(RestorePiece(ps[0], token)) + Replace(Render(ps[1..]), token, original)
  {
    FirstAndRest(h, dom, ps);
    match ps[0]
    case Lit(s) =>
      assert ps == [Lit(s)] + ps[1..];
      ReplaceInLiteral(h, dom, s, ps[1..], token, original);
    case Tok(t, o) =>
      TokenStep(h, dom, t, o, Render(ps[1..]), token, original);
  }

  lemma {:induction false} TokenStep(h: TextFn, dom: set<string>, t: string, o: string, rest: string, token: string, original: string)
    requires DigestShape(h) && NoCollision(h, dom) && IsPlainToken(h, dom, t, o) && IsPlainToken(h, dom, token, original)
    ensures token == t ==> original == o && Replace(t + rest, token, original) == o + Replace(rest, token, original)
    ensures token != t ==> Replace(t + rest, token, original) == t + Replace(rest, token, original)
  {
    if token == t {
      TokenDeterminesOriginal(h, dom, t, o, original);
      assert (t + rest)[..|t|] == t && (t + rest)[|t|..] == rest;
    } else {
      var l :| PlainLabel(l) && t == Token(h, l, o);
      var l2 :| PlainLabel(l2) && token == Token(h, l2, original);
      forall i | 0 <= i < |t| ensures !StartsWith(t[i..] + rest, token) {
        if StartsWith(t[i..] + rest, token) {
          var s := t[i..] + rest;
          assert s[..4] == s[..|token|][..4] == MARK;
          if i == 0 {
            assert t[0..] == t;
            NoPrefixToken(h, l, o, l2, original, rest);
          } else {
            MarkOnlyAtStart(h, l, o, rest, i);
          }
        }
      }
      ReplaceSkips(t, rest, token, original);
    }
  }

  lemma {:induction false} ReplaceSame(s: string, w: string)
    requires w != []
    ensures Replace(s, w, w) == s
    decreases |s|
  {
    if s != [] {
      if StartsWith(s, w) {
        ReplaceSame(s[|w|..], w);
        assert s == s[..|w|] + s[|w|..];
      } else {
        ReplaceSame(s[1..], w);
        assert s == [s[0]] + s[1..];
      }
    }
  }

  // ------------------------------------------------------------------ what a stray token does

  /** Cuts the text a match covers off the pieces; the match covers no place of the token's own. */
  lemma {:induction false} CutTail(h: TextFn, dom: set<string>, ps: seq<Piece>, token: string, original: string, w: string)
      returns (qs: seq<Piece>)
    requires DigestShape(h) && GenuinePieces(h, dom, ps) && IsPlainToken(h, dom, token, original)
    requires TokenTail(w) && StartsWith(View(ps, token), w)
    ensures GenuinePieces(h, dom, qs)
    ensures View(ps, token) == w + View(qs, token) && Restored(ps) == w + Restored(qs)
    decreases |w|, |ps|
  {
    qs := ps;
    if w != "" {
      assert ps[0] in ps && GenuinePieces(h, dom, ps[1..]);
      if Owns(ps[0], token) {
        RestIsTail(h, dom, token, original);
        TailMissesToken(w, token, View(ps[1..], token));
      } else if Was(ps[0]) == "" {
        qs := CutTail(h, dom, ps[1..], token, original, w);
      } else {
        LessFacts(ps, token);
        LessIsGenuine(h, dom, ps);
        TailStep(Was(ps[0])[0], View(Less(ps), token), w);
        qs := CutTail(h, dom, Less(ps), token, original, w[1..]);
        ConsConcat(w, View(qs, token));
        ConsConcat(w, Restored(qs));
      }
    }
  }

  /** The length or, at equal lengths, the text gives a stray replacement away. */
  ghost predicate Off(now: string, was: string, w: string, r: string, strayed: bool)
  {
    && (|r| > |w| ==> |now| >= |was| && (strayed ==> |now| > |was|))
    && (|r| < |w| ==> |now| <= |was| && (strayed ==> |now| < |was|))
    && (|r| == |w| && r != w && strayed ==> now != was)
  }

  lemma SamePrefixOff(a: string, now: string, was: string, w: string, r: string, strayed: bool)
    requires Off(now, was, w, r, strayed)
    ensures Off(a + now, a + was, w, r, strayed)
  {
    if now != was {
      assert (a + now)[|a|..] == now && (a + was)[|a|..] == was;
    }
  }

  lemma StrayOff(now: string, was: string, w: string, r: string, strayed: bool)
    requires Off(now, was, w, r, strayed)
    ensures Off(r + now, w + was, w, r, true)
  {
    if |r| == |w| && r != w {
      assert (r + now)[..|r|] == r && (w + was)[..|w|] == w;
    }
  }

  lemma {:induction false} StrayIsReplaced(h: TextFn, dom: set<string>, ps: seq<Piece>, token: string, original: string)
    requires DigestShape(h) && NoCollision(h, dom) && GenuinePieces(h, dom, ps) && IsPlainToken(h, dom, token, original)
    ensures Off(Replace(View(ps, token), token, original), Restored(ps), token, original, Strays(ps, token))
    decreases |View(ps, token)|, |ps|
  {
    RestIsTail(h, dom, token, original);
    if ps != [] {
      assert ps[0] in ps && GenuinePieces(h, dom, ps[1..]);
      if Owns(ps[0], token) {
        StrayIsReplaced(h, dom, ps[1..], token, original);
        OwnStep(h, dom, ps, token, original);
      } else if Was(ps[0]) == "" {
        EmptyFirst(ps, token);
        StrayIsReplaced(h, dom, ps[1..], token, original);
      } else {
        LessFacts(ps, token);
        LessIsGenuine(h, dom, ps);
        if StartsWith(View(ps, token), token) {
          var qs := CutToken(h, dom, ps, token, original);
          StrayIsReplaced(h, dom, qs, token, original);
          MatchStep(ps, qs, token, original);
        } else {
          StrayIsReplaced(h, dom, Less(ps), token, original);
          SkipStep(ps, token, original);
        }
      }
    }
  }

  lemma {:induction false} EmptyFirst(ps: seq<Piece>, token: string)
    requires ps != [] && !Owns(ps[0], token) && Was(ps[0]) == ""
    ensures View(ps, token) == View(ps[1..], token) && Restored(ps) == Restored(ps[1..])
    ensures Strays(ps, token) == Strays(ps[1..], token)
  {
  }

  lemma {:induction false} OwnStep(h: TextFn, dom: set<string>, ps: seq<Piece>, token: string, original: string)
    requires DigestShape(h) && NoCollision(h, dom) && GenuinePieces(h, dom, ps) && IsPlainToken(h, dom, token, original)
    requires ps != [] && Owns(ps[0], token)
    requires Off(Replace(View(ps[1..], token), token, original), Restored(ps[1..]), token, original, Strays(ps[1..], token))
    ensures Off(Replace(View(ps, token), token, original), Restored(ps), token, original, Strays(ps, token))
  {
    assert ps[0] in ps;
    TokenStep(h, dom, token, ps[0].original, View(ps[1..], token), token, original);
    SamePrefixOff(original, Replace(View(ps[1..], token), token, original), Restored(ps[1..]), token, original, Strays(ps[1..], token));
  }

  lemma CutToken(h: TextFn, dom: set<string>, ps: seq<Piece>, token: string, original: string) returns (qs: seq<Piece>)
    requires DigestShape(h) && GenuinePieces(h, dom, ps) && IsPlainToken(h, dom, token, original)
    requires ps != [] && Was(ps[0]) != "" && !Owns(ps[0], token) && StartsWith(View(ps, token), token)
    ensures GenuinePieces(h, dom, qs) && token != ""
    ensures View(ps, token) == token + View(qs, token) && Restored(ps) == token + Restored(qs)
  {
    RestIsTail(h, dom, token, original);
    LessFacts(ps, token);
    LessIsGenuine(h, dom, ps);
    assert token == [token[0]] + token[1..];
    StartsCons(Was(ps[0])[0], View(Less(ps), token), token[0], token[1..]);
    qs := CutTail(h, dom, Less(ps), token, original, token[1..]);
    ConsConcat(token, View(qs, token));
    ConsConcat(token, Restored(qs));
  }

  lemma {:induction false} MatchStep(ps: seq<Piece>, qs: seq<Piece>, token: string, original: string)
    requires token != "" && View(ps, token) == token + View(qs, token) && Restored(ps) == token + Restored(qs)
    requires Off(Replace(View(qs, token), token, original), Restored(qs), token, original, Strays(qs, token))
    ensures Off(Replace(View(ps, token), token, original), Restored(ps), token, original, true)
    ensures Off(Replace(View(ps, token), token, original), Restored(ps), token, original, Strays(ps, token))
  {
    var now := View(ps, token);
    assert now[..|token|] == token && now[|token|..] == View(qs, token);
    StrayOff(Replace(View(qs, token), token, original), Restored(qs), token, original, Strays(qs, token));
  }

  lemma {:induction false} SkipStep(ps: seq<Piece>, token: string, original: string)
    requires token != "" && ps != [] && Was(ps[0]) != "" && !Owns(ps[0], token) && !StartsWith(View(ps, token), token)
    requires Off(Replace(View(Less(ps), token), token, original), Restored(Less(ps)), token, original, Strays(Less(ps), token))
    ensures Off(Replace(View(ps, token), token, original), Restored(ps), token, original, Strays(ps, token))
  {
    var c, now := Was(ps[0])[0], View(ps, token);
    LessFacts(ps, token);
    assert now[0] == c && now[1..] == View(Less(ps), token);
    SamePrefixOff([c], Replace(View(Less(ps), token), token, original), Restored(Less(ps)), token, original, Strays(Less(ps), token));
    if Strays(ps, token) {
      LessStrays(ps, token);
    }
  }

  // --------------------------------------------------------------------- detokenize

  /** The reverse map as detokenize iterates it: any order, each token once. */
  ghost predicate Enumerates(items: seq<(string, string)>, reverse: map<string, string>)
  {
    && (forall i :: 0 <= i < |items| ==> items[i].0 in reverse && reverse[items[i].0] == items[i].1)
    && (forall t :: t in reverse ==> exists i :: 0 <= i < |items| && items[i].0 == t)
    && (forall i, j :: 0 <= i < j < |items| ==> items[i].0 != items[j].0)
  }

  ghost predicate GenuineReverse(h: TextFn, dom: set<string>, reverse: map<string, string>)
  {
    forall t :: t in reverse ==> IsToken(h, dom, t, reverse[t])
  }

  function ReplaceAll(out: string, items: seq<(string, string)>): string
    requires forall i :: 0 <= i < |items| ==> items[i].0 != []
    decreases |items|
  {
    if items == [] then out else ReplaceAll(Replace(out, items[0].0, items[0].1), items[1..])
  }

  method Detokenize(text: string, items: seq<(string, string)>) returns (out: string)
    requires forall i :: 0 <= i < |items| ==> items[i].0 != []
    ensures out == ReplaceAll(text, items)
  {
    out := text;
    for i := 0 to |items|
      invariant ReplaceAll(out, items[i..]) == ReplaceAll(text, items)
    {
      out := Replace(out, items[i].0, items[i].1);
    }
  }

  ghost predicate GenuineItems(h: TextFn, dom: set<string>, items: seq<(string, string)>)
  {
    forall i :: 0 <= i < |items| ==> IsPlainToken(h, dom, items[i].0, items[i].1)
  }

  ghost predicate Stored(p: Piece, items: seq<(string, string)>)
  {
    p.Lit? || exists i :: 0 <= i < |items| && items[i].0 == p.token
  }

  lemma {:induction false} RestoreTokenFacts(h: TextFn, dom: set<string>, ps: seq<Piece>, token: string)
    requires GenuinePieces(h, dom, ps)
    ensures GenuinePieces(h, dom, RestoreToken(ps, token))
    ensures Restored(RestoreToken(ps, token)) == Restored(ps)
    ensures forall q :: q in RestoreToken(ps, token) && q.Tok? ==> q in ps && q.token != token
  {
    if ps != [] {
      assert GenuinePieces(h, dom, ps[1..]);
      RestoreTokenFacts(h, dom, ps[1..], token);
      assert RestoreToken(ps, token)[1..] == RestoreToken(ps[1..], token);
    }
  }

  /** Restoring one token does not change where another one strays. */
  lemma {:induction false} RestoreKeepsStrays(ps: seq<Piece>, token: string, other: string)
    requires token != other
    ensures View(RestoreToken(ps, token), other) == View(ps, other)
    ensures Strays(RestoreToken(ps, token), other) == Strays(ps, other)
  {
    if ps != [] {
      RestoreKeepsStrays(ps[1..], token, other);
      var qs := RestoreToken(ps, token);
      assert qs[1..] == RestoreToken(ps[1..], token);
      assert Was(qs[0]) == Was(ps[0]) && Owns(qs[0], other) == Owns(ps[0], other);
    }
  }

  lemma {:induction false} AllLiteral(ps: seq<Piece>)
    requires forall p :: p in ps ==> p.Lit?
    ensures Render(ps) == Restored(ps)
  {
    if ps != [] {
      assert ps[0] in ps;
      AllLiteral(ps[1..]);
    }
  }

  lemma {:induction false} OnlyOwnPieces(ps: seq<Piece>, token: string)
    requires forall p :: p in ps ==> p.Lit? || p.token == token
    ensures Render(ps) == View(ps, token)
  {
    if ps != [] {
      assert ps[0] in ps;
      OnlyOwnPieces(ps[1..], token);
    }
  }

  function RestoreAll(ps: seq<Piece>, items: seq<(string, string)>): seq<Piece>
    decreases |items|
  {
    if items == [] then ps else RestoreAll(RestoreToken(ps, items[0].0), items[1..])
  }

  /** A stored token does harm only where it strays, and none if it is its own original. */
  ghost predicate Harmless(ps: seq<Piece>, item: (string, string))
  {
    item.0 == item.1 || !Strays(ps, item.0)
  }

  lemma {:induction false} RestoreItself(h: TextFn, dom: set<string>, ps: seq<Piece>, token: string)
    requires DigestShape(h) && NoCollision(h, dom) && GenuinePieces(h, dom, ps) && IsPlainToken(h, dom, token, token)
    ensures Render(RestoreToken(ps, token)) == Render(ps)
  {
    if ps != [] {
      assert ps[0] in ps && GenuinePieces(h, dom, ps[1..]);
      RestoreItself(h, dom, ps[1..], token);
      assert RestoreToken(ps, token)[1..] == RestoreToken(ps[1..], token);
      if Owns(ps[0], token) {
        TokenDeterminesOriginal(h, dom, token, ps[0].original, token);
      }
    }
  }

  lemma {:induction false} OneItem(h: TextFn, dom: set<string>, ps: seq<Piece>, item: (string, string))
    requires DigestShape(h) && NoCollision(h, dom) && GenuinePieces(h, dom, ps) && IsPlainToken(h, dom, item.0, item.1)
    requires Harmless(ps, item)
    ensures item.0 != [] && Replace(Render(ps), item.0, item.1) == Render(RestoreToken(ps, item.0))
  {
    RestIsTail(h, dom, item.0, item.1);
    if item.0 == item.1 {
      ReplaceSame(Render(ps), item.0);
      RestoreItself(h, dom, ps, item.0);
    } else {
      ReplaceRestores(h, dom, ps, item.0, item.1);
    }
  }

  ghost predicate DistinctTokens(items: seq<(string, string)>)
  {
    forall i, j :: 0 <= i < j < |items| ==> items[i].0 != items[j].0
  }

  /** The whole loop restores exactly the pieces of the listed tokens, in whatever order they come. */
  lemma {:induction false} ReplaceAllRestores(h: TextFn, dom: set<string>, ps: seq<Piece>, items: seq<(string, string)>)
    requires DigestShape(h) && NoCollision(h, dom) && GenuinePieces(h, dom, ps) && GenuineItems(h, dom, items)
    requires DistinctTokens(items) && forall i :: 0 <= i < |items| ==> Harmless(ps, items[i])
    ensures forall i :: 0 <= i < |items| ==> items[i].0 != []
    ensures ReplaceAll(Render(ps), items) == Render(RestoreAll(ps, items))
    decreases |items|
  {
    if items != [] {
      var t := items[0].0;
      OneItem(h, dom, ps, items[0]);
      RestoreTokenFacts(h, dom, ps, t);
      forall i | 0 <= i < |items[1..]|
        ensures Harmless(RestoreToken(ps, t), items[1..][i]) && IsPlainToken(h, dom, items[1..][i].0, items[1..][i].1)
      {
        assert items[1..][i] == items[i + 1] && Harmless(ps, items[i + 1]);
        RestoreKeepsStrays(ps, t, items[i + 1].0);
      }
      ReplaceAllRestores(h, dom, RestoreToken(ps, t), items[1..]);
      forall i | 0 <= i < |items| ensures items[i].0 != [] {
        assert i > 0 ==> items[i] == items[1..][i - 1];
      }
    }
  }

  lemma {:induction false} RestoreAllFacts(h: TextFn, dom: set<string>, ps: seq<Piece>, items: seq<(string, string)>)
    requires GenuinePieces(h, dom, ps)
    ensures Restored(RestoreAll(ps, items)) == Restored(ps) && GenuinePieces(h, dom, RestoreAll(ps, items))
    ensures forall q :: q in RestoreAll(ps, items) && q.Tok? ==> q in ps && !Stored(q, items)
    ensures forall t :: !Listed(items, t) ==> View(RestoreAll(ps, items), t) == View(ps, t)
    decreases |items|
  {
    if items != [] {
      var next := RestoreToken(ps, items[0].0);
      RestoreTokenFacts(h, dom, ps, items[0].0);
      RestoreAllFacts(h, dom, next, items[1..]);
      forall q | q in RestoreAll(ps, items) && q.Tok? ensures q in ps && !Stored(q, items) {
        assert q in next && !Stored(q, items[1..]);
        forall i | 0 <= i < |items| ensures items[i].0 != q.token {
          assert i > 0 ==> items[i] == items[1..][i - 1];
        }
      }
      forall t | !Listed(items, t) ensures View(RestoreAll(ps, items), t) == View(ps, t) {
        assert items[0].0 != t;
        assert forall i :: 0 <= i < |items[1..]| ==> items[1..][i] == items[i + 1];
        RestoreKeepsStrays(ps, items[0].0, t);
      }
    }
  }

  ghost predicate Listed(items: seq<(string, string)>, t: string)
  {
    exists i :: 0 <= i < |items| && items[i].0 == t
  }

  /** Every token of the text listed: the loop gives the text back. */
  lemma {:induction false} AllOrdersRestore(h: TextFn, dom: set<string>, ps: seq<Piece>, items: seq<(string, string)>)
    requires DigestShape(h) && NoCollision(h, dom) && GenuinePieces(h, dom, ps) && GenuineItems(h, dom, items)
    requires DistinctTokens(items) && forall i :: 0 <= i < |items| ==> Harmless(ps, items[i])
    requires forall p :: p in ps ==> Stored(p, items)
    ensures forall i :: 0 <= i < |items| ==> items[i].0 != []
    ensures ReplaceAll(Render(ps), items) == Restored(ps)
  {
    ReplaceAllRestores(h, dom, ps, items);
    RestoreAllFacts(h, dom, ps, items);
    AllLiteral(RestoreAll(ps, items));
  }

  /** The one harmful token, listed last, spoils the text. */
  lemma {:induction false} HarmfulLastSpoils(h: TextFn, dom: set<string>, ps: seq<Piece>, others: seq<(string, string)>, item: (string, string))
    requires DigestShape(h) && NoCollision(h, dom) && GenuinePieces(h, dom, ps) && GenuineItems(h, dom, others)
    requires DistinctTokens(others) && forall i :: 0 <= i < |others| ==> Harmless(ps, others[i])
    requires IsPlainToken(h, dom, item.0, item.1) && !Listed(others, item.0) && !Harmless(ps, item)
    requires forall p :: p in ps && !Owns(p, item.0) ==> Stored(p, others)
    ensures forall i :: 0 <= i < |others + [item]| ==> (others + [item])[i].0 != []
    ensures ReplaceAll(Render(ps), others + [item]) != Restored(ps)
  {
    ReplaceAllRestores(h, dom, ps, others);
    RestoreAllFacts(h, dom, ps, others);
    OnlyOwnPieces(RestoreAll(ps, others), item.0);
    RestIsTail(h, dom, item.0, item.1);
    StrayIsReplaced(h, dom, ps, item.0, item.1);
    ReplaceAllThen(Render(ps), others, item);
  }

  lemma {:induction false} ReplaceAllThen(out: string, others: seq<(string, string)>, item: (string, string))
    requires item.0 != [] && forall i :: 0 <= i < |others| ==> others[i].0 != []
    ensures forall i :: 0 <= i < |others + [item]| ==> (others + [item])[i].0 != []
    ensures ReplaceAll(out, others + [item]) == Replace(ReplaceAll(out, others), item.0, item.1)
    decreases |others|
  {
    var all := others + [item];
    if others == [] {
      assert all == [item] && |all[1..]| == 0;
    } else {
      assert all[1..] == others[1..] + [item];
      ReplaceAllThen(Replace(out, others[0].0, others[0].1), others[1..], item);
    }
  }

  // ---------------------------------------------------------------------- round trip

  ghost function PiecesOf(text: string, asc: seq<Span>, pos: nat, f: Transform): seq<Piece>
    requires Tiles(asc, pos, |text|)
    decreases |asc|
  {
    TilesBound(asc, pos, |text|);
    if asc == [] then [Lit(text[pos..])]
    else
      var x := asc[0];
      TilesBound(asc[1..], x.end, |text|);
      var original := text[x.start..x.end];
      [Lit(text[pos..x.start]), Tok(f(original, x), original)] + PiecesOf(text, asc[1..], x.end, f)
  }

  lemma {:induction false} PiecesRender(text: string, asc: seq<Span>, pos: nat, f: Transform)
    requires Tiles(asc, pos, |text|)
    ensures pos <= |text|
    ensures Render(PiecesOf(text, asc, pos, f)) == Assemble(text, asc, pos, f)
    ensures Restored(PiecesOf(text, asc, pos, f)) == text[pos..]
    decreases |asc|
  {
    TilesBound(asc, pos, |text|);
    var ps := PiecesOf(text, asc, pos, f);
    if asc == [] {
      assert ps[1..] == [];
    } else {
      var x := asc[0];
      TilesBound(asc[1..], x.end, |text|);
      var rest := PiecesOf(text, asc[1..], x.end, f);
      PiecesRender(text, asc[1..], x.end, f);
      TwoPieces(Lit(text[pos..x.start]), Tok(f(text[x.start..x.end], x), text[x.start..x.end]), rest);
      SplitText(text, pos, x.start, x.end);
    }
  }

  lemma SplitText(text: string, a: nat, b: nat, c: nat)
    requires a <= b <= c <= |text|
    ensures text[a..] == text[a..b] + text[b..c] + text[c..]
  {
  }

  lemma {:induction false} TwoPieces(p: Piece, q: Piece, rest: seq<Piece>)
    ensures Render([p, q] + rest) == Now(p) + Now(q) + Render(rest)
    ensures Restored([p, q] + rest) == Was(p) + Was(q) + Restored(rest)
  {
    assert ([p, q] + rest)[1..] == [q] + rest;
    assert ([q] + rest)[1..] == rest;
  }

  ghost predicate FromSpan(p: Piece, text: string, asc: seq<Span>, f: Transform)
  {
    exists x :: x in asc && x.start <= x.end <= |text|
                && p == Tok(f(text[x.start..x.end], x), text[x.start..x.end])
  }

  lemma {:induction false} PiecesFromSpans(text: string, asc: seq<Span>, pos: nat, f: Transform)
    requires Tiles(asc, pos, |text|)
    ensures forall p :: p in PiecesOf(text, asc, pos, f) && p.Tok? ==> FromSpan(p, text, asc, f)
    decreases |asc|
  {
    TilesBound(asc, pos, |text|);
    if asc != [] {
      var x := asc[0];
      TilesBound(asc[1..], x.end, |text|);
      PiecesFromSpans(text, asc[1..], x.end, f);
      forall p | p in PiecesOf(text, asc, pos, f) && p.Tok? ensures FromSpan(p, text, asc, f) {
        if p !in PiecesOf(text, asc[1..], x.end, f) {
          assert x in asc;
        } else {
          var y :| y in asc[1..] && y.start <= y.end <= |text|
                   && p == Tok(f(text[y.start..y.end], y), text[y.start..y.end]);
          assert y in asc;
        }
      }
    }
  }

  // ------------------------------------------------------- stray tokens, seen in the text itself

  ghost predicate IsFor(text: string, x: Span, f: Transform, token: string)
  {
    x.start <= x.end <= |text| && f(text[x.start..x.end], x) == token
  }

  predicate SpelledAt(text: string, token: string, a: nat)
  {
    a + |token| <= |text| && text[a..a + |token|] == token
  }

  ghost predicate ClearOf(text: string, spans: seq<Span>, f: Transform, token: string, a: nat)
  {
    forall x :: x in spans && IsFor(text, x, f, token) ==> x.end <= a || a + |token| <= x.start
  }

  /** The text spells the token out somewhere clear of the spans the token replaces. */
  ghost predicate StraysIn(text: string, spans: seq<Span>, f: Transform, token: string)
  {
    exists a: nat :: SpelledAt(text, token, a) && ClearOf(text, spans, f, token, a)
  }

  lemma StartsInFirst(a: string, b: string, w: string)
    ensures |w| <= |a| ==> (StartsWith(a + b, w) <==> a[..|w|] == w)
    ensures |w| > |a| ==> (StartsWith(a + b, w) <==> w[..|a|] == a && StartsWith(b, w[|a|..]))
  {
    if |w| <= |a| {
      assert (a + b)[..|w|] == a[..|w|];
    } else if |w| <= |a + b| {
      assert (a + b)[..|w|] == a + b[..|w| - |a|];
      assert w == w[..|a|] + w[|a|..];
    }
  }

  lemma {:induction false} TailOfTail(w: string, k: nat)
    requires TokenTail(w) && k <= |w|
    ensures TokenTail(w[k..])
  {
    if 0 < k < |w| {
      TailOfTail(w[1..], k - 1);
      assert w[1..][k - 1..] == w[k..];
    } else if k == 0 {
      assert w[0..] == w;
    }
  }

  /** Text from `a` to `b` matches the front of `w`. */
  lemma SliceMatches(text: string, a: nat, b: nat, w: string)
    requires a <= b <= |text|
    ensures |w| <= b - a ==> (SpelledAt(text, w, a) <==> text[a..b][..|w|] == w)
    ensures |w| > b - a ==> (SpelledAt(text, w, a) <==> w[..b - a] == text[a..b] && SpelledAt(text, w[b - a..], b))
  {
    if |w| <= b - a {
      assert text[a..b][..|w|] == text[a..a + |w|];
    } else {
      assert w == w[..b - a] + w[b - a..];
      if a + |w| <= |text| {
        assert text[a..a + |w|] == text[a..b] + text[b..a + |w|];
      }
    }
  }

  /** No span the token replaces starts before `end`. */
  ghost predicate NoneBefore(text: string, asc: seq<Span>, f: Transform, token: string, end: nat)
  {
    forall x :: x in asc && IsFor(text, x, f, token) ==> end <= x.start
  }

  /** The token's own view of the pieces from one span on: its stretch, then the rest. */
  lemma {:induction false} ViewOfSpan(text: string, asc: seq<Span>, pos: nat, f: Transform, token: string)
    requires Tiles(asc, pos, |text|) && asc != []
    ensures Tiles(asc[1..], asc[0].end, |text|) && pos <= asc[0].start <= asc[0].end <= |text|
    ensures View(PiecesOf(text, asc, pos, f), token)
         == text[pos..asc[0].start]
            + ((if IsFor(text, asc[0], f, token) then token else text[asc[0].start..asc[0].end])
               + View(PiecesOf(text, asc[1..], asc[0].end, f), token))
  {
    TilesBound(asc, pos, |text|);
    assert asc[0] in asc;
    var x, rest := asc[0], PiecesOf(text, asc[1..], asc[0].end, f);
    var p, q := Lit(text[pos..x.start]), Tok(f(text[x.start..x.end], x), text[x.start..x.end]);
    assert ([p, q] + rest)[1..] == [q] + rest && ([q] + rest)[1..] == rest;
  }

  lemma NoneBeforeUnfolds(text: string, asc: seq<Span>, f: Transform, token: string, end: nat)
    requires asc != []
    ensures NoneBefore(text, asc, f, token, end)
       <==> (IsFor(text, asc[0], f, token) ==> end <= asc[0].start) && NoneBefore(text, asc[1..], f, token, end)
  {
    assert forall x :: x in asc <==> x == asc[0] || x in asc[1..];
  }

  lemma {:induction false} NoneBeforeStart(text: string, asc: seq<Span>, f: Transform, token: string, pos: nat, end: nat)
    requires Tiles(asc, pos, |text|) && end <= pos
    ensures NoneBefore(text, asc, f, token, end)
  {
    TilesBound(asc, pos, |text|);
  }

  /** A stretch of the text followed by something that continues the match exactly under `c`. */
  lemma StretchThen(text: string, p: nat, q: nat, v: string, w: string, c: bool)
    requires p <= q <= |text| && (|w| <= q - p ==> c)
    requires |w| > q - p ==> (StartsWith(v, w[q - p..]) <==> SpelledAt(text, w[q - p..], q) && c)
    ensures StartsWith(text[p..q] + v, w) <==> SpelledAt(text, w, p) && c
  {
    StartsInFirst(text[p..q], v, w);
    SliceMatches(text, p, q, w);
  }

  lemma {:induction false} TailMatchesEnd(text: string, pos: nat, f: Transform, token: string, w: string)
    requires pos <= |text|
    ensures StartsWith(View(PiecesOf(text, [], pos, f), token), w) <==> SpelledAt(text, w, pos)
  {
    assert PiecesOf(text, [], pos, f)[1..] == [];
    assert View(PiecesOf(text, [], pos, f), token) == text[pos..];
    SliceMatches(text, pos, |text|, w);
  }

  /** The token's own view from the first span on. */
  ghost function SpanView(text: string, asc: seq<Span>, f: Transform, token: string): string
    requires asc != [] && asc[0].start <= asc[0].end <= |text| && Tiles(asc[1..], asc[0].end, |text|)
  {
    (if IsFor(text, asc[0], f, token) then token else text[asc[0].start..asc[0].end])
    + View(PiecesOf(text, asc[1..], asc[0].end, f), token)
  }

  lemma {:induction false} FirstSpanFits(text: string, asc: seq<Span>, pos: nat)
    requires asc != [] && Tiles(asc, pos, |text|)
    ensures pos <= asc[0].start <= asc[0].end <= |text| && Tiles(asc[1..], asc[0].end, |text|) && Tiles(asc, asc[0].start, |text|)
  {
    TilesBound(asc[1..], asc[0].end, |text|);
  }

  lemma {:induction false} TailMatchesGap(text: string, asc: seq<Span>, pos: nat, f: Transform, token: string, w: string)
    requires asc != [] && Tiles(asc, pos, |text|) && pos <= asc[0].start <= asc[0].end <= |text|
    requires Tiles(asc[1..], asc[0].end, |text|) && Tiles(asc, asc[0].start, |text|)
    requires |w| > asc[0].start - pos ==>
               var tail := w[asc[0].start - pos..];
               (StartsWith(SpanView(text, asc, f, token), tail)
                <==> SpelledAt(text, tail, asc[0].start) && NoneBefore(text, asc, f, token, pos + |w|))
    ensures StartsWith(View(PiecesOf(text, asc, pos, f), token), w)
       <==> SpelledAt(text, w, pos) && NoneBefore(text, asc, f, token, pos + |w|)
  {
    ViewOfSpan(text, asc, pos, f, token);
    if |w| <= asc[0].start - pos {
      NoneBeforeStart(text, asc, f, token, asc[0].start, pos + |w|);
    }
    StretchThen(text, pos, asc[0].start, SpanView(text, asc, f, token), w, NoneBefore(text, asc, f, token, pos + |w|));
  }

  lemma {:induction false} TailMatches(text: string, asc: seq<Span>, pos: nat, f: Transform, token: string, w: string)
    requires Tiles(asc, pos, |text|) && TokenTail(w) && StartsWith(token, MARK)
    ensures StartsWith(View(PiecesOf(text, asc, pos, f), token), w)
       <==> SpelledAt(text, w, pos) && NoneBefore(text, asc, f, token, pos + |w|)
    decreases |asc|, 2
  {
    TilesBound(asc, pos, |text|);
    if asc == [] {
      TailMatchesEnd(text, pos, f, token, w);
    } else {
      FirstSpanFits(text, asc, pos);
      var gap := asc[0].start - pos;
      if |w| > gap {
        TailOfTail(w, gap);
        TailMatchesSpan(text, asc, f, token, w[gap..]);
      }
      TailMatchesGap(text, asc, pos, f, token, w);
    }
  }

  lemma {:induction false} TailMatchesSpan(text: string, asc: seq<Span>, f: Transform, token: string, w: string)
    requires asc != [] && asc[0].start <= asc[0].end <= |text| && Tiles(asc[1..], asc[0].end, |text|)
    requires TokenTail(w) && w != [] && StartsWith(token, MARK)
    ensures StartsWith(SpanView(text, asc, f, token), w)
       <==> SpelledAt(text, w, asc[0].start) && NoneBefore(text, asc, f, token, asc[0].start + |w|)
    decreases |asc|, 1
  {
    var x, v := asc[0], View(PiecesOf(text, asc[1..], asc[0].end, f), token);
    NoneBeforeUnfolds(text, asc, f, token, x.start + |w|);
    if IsFor(text, x, f, token) {
      TailMissesToken(w, token, v);
    } else {
      TailMatchesText(text, asc, f, token, w, v);
    }
  }

  lemma {:induction false} TailMatchesText(text: string, asc: seq<Span>, f: Transform, token: string, w: string, v: string)
    requires asc != [] && Tiles(asc[1..], asc[0].end, |text|) && asc[0].start <= asc[0].end <= |text|
    requires TokenTail(w) && StartsWith(token, MARK) && v == View(PiecesOf(text, asc[1..], asc[0].end, f), token)
    ensures StartsWith(text[asc[0].start..asc[0].end] + v, w)
       <==> SpelledAt(text, w, asc[0].start) && NoneBefore(text, asc[1..], f, token, asc[0].start + |w|)
    decreases |asc|, 0
  {
    var x, rest := asc[0], asc[1..];
    var size := x.end - x.start;
    if |w| <= size {
      NoneBeforeStart(text, rest, f, token, x.end, x.start + |w|);
    } else {
      TailOfTail(w, size);
      TailMatches(text, rest, x.end, f, token, w[size..]);
      assert x.end + |w[size..]| == x.start + |w|;
    }
    StretchThen(text, x.start, x.end, v, w, NoneBefore(text, rest, f, token, x.start + |w|));
  }

  ghost predicate TokenLike(token: string)
  {
    |token| > 1 && StartsWith(token, MARK) && TokenTail(token[1..])
  }

  lemma {:induction false} StartsAtPlace(text: string, asc: seq<Span>, q: nat, f: Transform, token: string, a: nat)
    requires Tiles(asc, q, |text|) && TokenLike(token) && a < q <= |text|
    ensures StartsWith(text[a..q] + View(PiecesOf(text, asc, q, f), token), token)
       <==> SpelledAt(text, token, a) && NoneBefore(text, asc, f, token, a + |token|)
  {
    TilesBound(asc, q, |text|);
    StartsInFirst(text[a..q], View(PiecesOf(text, asc, q, f), token), token);
    SliceMatches(text, a, q, token);
    if |token| > q - a {
      TailOfTail(token[1..], q - a - 1);
      assert token[1..][q - a - 1..] == token[q - a..];
      TailMatches(text, asc, q, f, token, token[q - a..]);
    }
  }

  ghost predicate StraysAt(text: string, asc: seq<Span>, f: Transform, token: string, a: nat)
  {
    SpelledAt(text, token, a) && NoneBefore(text, asc, f, token, a + |token|)
  }

  lemma {:induction false} BeginsInSlice(text: string, asc: seq<Span>, p: nat, q: nat, f: Transform, token: string, rest: seq<Piece>)
    requires Tiles(asc, q, |text|) && TokenLike(token) && p <= q <= |text|
    requires View(rest, token) == View(PiecesOf(text, asc, q, f), token)
    ensures BeginsIn(text[p..q], rest, token) <==> exists a: nat :: p <= a < q && StraysAt(text, asc, f, token, a)
  {
    if BeginsIn(text[p..q], rest, token) {
      var a := BeginningStrays(text, asc, p, q, f, token, rest);
    } else if a: nat :| p <= a < q && StraysAt(text, asc, f, token, a) {
      StraysBegin(text, asc, p, q, f, token, rest, a);
    }
  }

  lemma BeginningStrays(text: string, asc: seq<Span>, p: nat, q: nat, f: Transform, token: string, rest: seq<Piece>) returns (a: nat)
    requires Tiles(asc, q, |text|) && TokenLike(token) && p <= q <= |text|
    requires View(rest, token) == View(PiecesOf(text, asc, q, f), token) && BeginsIn(text[p..q], rest, token)
    ensures p <= a < q && StraysAt(text, asc, f, token, a)
  {
    var k :| BeginsAt(text[p..q], k, View(rest, token), token);
    a := p + k;
    assert a - p == k;
    StartsInSlice(text, asc, p, q, f, token, View(rest, token), a);
  }

  lemma {:induction false} StraysBegin(text: string, asc: seq<Span>, p: nat, q: nat, f: Transform, token: string, rest: seq<Piece>, a: nat)
    requires Tiles(asc, q, |text|) && TokenLike(token) && p <= a < q <= |text|
    requires View(rest, token) == View(PiecesOf(text, asc, q, f), token) && StraysAt(text, asc, f, token, a)
    ensures BeginsIn(text[p..q], rest, token)
  {
    var k := a - p;
    StartsInSlice(text, asc, p, q, f, token, View(rest, token), a);
    assert BeginsAt(text[p..q], k, View(rest, token), token);
  }

  lemma {:induction false} StartsInSlice(text: string, asc: seq<Span>, p: nat, q: nat, f: Transform, token: string, v: string, a: nat)
    requires Tiles(asc, q, |text|) && TokenLike(token) && p <= a < q <= |text| && v == View(PiecesOf(text, asc, q, f), token)
    ensures StartsWith(text[p..q][a - p..] + v, token) <==> StraysAt(text, asc, f, token, a)
  {
    assert text[p..q][a - p..] == text[a..q];
    StartsAtPlace(text, asc, q, f, token, a);
  }

  ghost predicate StraysFrom(text: string, asc: seq<Span>, pos: nat, f: Transform, token: string)
  {
    exists a: nat :: pos <= a && SpelledAt(text, token, a) && ClearOf(text, asc, f, token, a)
  }

  lemma {:induction false} StraysOfTwo(p: Piece, own: Piece, rest: seq<Piece>, token: string)
    requires p.Lit? && own.Tok?
    ensures Strays([p, own] + rest, token)
       <==> Strays(rest, token) || (own.token != token && BeginsIn(own.original, rest, token))
            || BeginsIn(p.text, [own] + rest, token)
  {
    assert ([p, own] + rest)[1..] == [own] + rest && ([own] + rest)[1..] == rest;
  }

  lemma {:induction false} StraysUnfolds(text: string, asc: seq<Span>, pos: nat, f: Transform, token: string)
    requires Tiles(asc, pos, |text|) && asc != []
    ensures Tiles(asc[1..], asc[0].end, |text|) && pos <= asc[0].start <= asc[0].end <= |text|
    ensures var x, rest := asc[0], PiecesOf(text, asc[1..], asc[0].end, f);
      var own := Tok(f(text[x.start..x.end], x), text[x.start..x.end]);
      && (Strays(PiecesOf(text, asc, pos, f), token)
          <==> Strays(rest, token) || (!IsFor(text, x, f, token) && BeginsIn(text[x.start..x.end], rest, token))
               || BeginsIn(text[pos..x.start], [own] + rest, token))
      && View([own] + rest, token) == View(PiecesOf(text, asc, x.start, f), token)
  {
    TilesBound(asc, pos, |text|);
    assert asc[0] in asc;
    var x, rest := asc[0], PiecesOf(text, asc[1..], asc[0].end, f);
    var p, own := Lit(text[pos..x.start]), Tok(f(text[x.start..x.end], x), text[x.start..x.end]);
    StraysOfTwo(p, own, rest, token);
    ViewOfSpan(text, asc, x.start, f, token);
    assert text[x.start..x.start] == "" && ([own] + rest)[1..] == rest;
  }

  lemma {:induction false} StraysSeen(text: string, asc: seq<Span>, pos: nat, f: Transform, token: string)
    requires Tiles(asc, pos, |text|) && TokenLike(token)
    ensures Strays(PiecesOf(text, asc, pos, f), token) <==> StraysFrom(text, asc, pos, f, token)
    decreases |asc|
  {
    TilesBound(asc, pos, |text|);
    if asc == [] {
      var ps := PiecesOf(text, asc, pos, f);
      assert ps[1..] == [] && PiecesOf(text, [], |text|, f)[1..] == [] && text[|text|..] == "";
      BeginsInSlice(text, [], pos, |text|, f, token, ps[1..]);
      assert ps[0] == Lit(text[pos..]) && text[pos..|text|] == text[pos..] && !Strays(ps[1..], token);
      NothingBetween(text, asc, pos, f, token);
    } else {
      var x := asc[0];
      StraysUnfolds(text, asc, pos, f, token);
      StraysSeen(text, asc[1..], x.end, f, token);
      var rest := PiecesOf(text, asc[1..], x.end, f);
      BeginsInSlice(text, asc[1..], x.start, x.end, f, token, rest);
      BeginsInSlice(text, asc, pos, x.start, f, token, [Tok(f(text[x.start..x.end], x), text[x.start..x.end])] + rest);
      StraysSplit(text, asc, pos, f, token);
    }
  }

  lemma NothingBetween(text: string, asc: seq<Span>, pos: nat, f: Transform, token: string)
    requires asc == [] && TokenLike(token) && pos <= |text|
    ensures StraysFrom(text, asc, pos, f, token) <==> exists a: nat :: pos <= a < |text| && StraysAt(text, asc, f, token, a)
  {
    if StraysFrom(text, asc, pos, f, token) {
      var a: nat :| pos <= a && SpelledAt(text, token, a) && ClearOf(text, asc, f, token, a);
      assert StraysAt(text, asc, f, token, a);
    }
  }

  /** Where a stray token can begin: before the first span, inside it, or after it. */
  lemma {:induction false} StraysSplit(text: string, asc: seq<Span>, pos: nat, f: Transform, token: string)
    requires asc != [] && Tiles(asc, pos, |text|) && TokenLike(token)
    ensures var x := asc[0];
      StraysFrom(text, asc, pos, f, token)
      <==> StraysFrom(text, asc[1..], x.end, f, token)
           || (!IsFor(text, x, f, token) && exists a: nat :: x.start <= a < x.end && StraysAt(text, asc[1..], f, token, a))
           || exists a: nat :: pos <= a < x.start && StraysAt(text, asc, f, token, a)
  {
    var x := asc[0];
    TilesBound(asc, x.start, |text|);
    TilesBound(asc[1..], x.end, |text|);
    assert x in asc && forall y :: y in asc <==> y == x || y in asc[1..];
    if a: nat :| pos <= a && SpelledAt(text, token, a) && ClearOf(text, asc, f, token, a) {
      if a < x.start {
        assert StraysAt(text, asc, f, token, a);
      } else if a < x.end {
        assert StraysAt(text, asc[1..], f, token, a);
      } else {
        assert ClearOf(text, asc[1..], f, token, a);
      }
    }
    if a: nat :| x.end <= a && SpelledAt(text, token, a) && ClearOf(text, asc[1..], f, token, a) {
      assert ClearOf(text, asc, f, token, a);
    }
    if a: nat :| x.start <= a < x.end && StraysAt(text, asc[1..], f, token, a) && !IsFor(text, x, f, token) {
      assert ClearOf(text, asc, f, token, a);
    }
    if a: nat :| pos <= a < x.start && StraysAt(text, asc, f, token, a) {
      assert ClearOf(text, asc, f, token, a);
    }
  }

  /** In terms of the text: the pieces hold a stray token exactly where the text spells it clear of its spans. */
  lemma {:induction false} StraysIffSpelled(h: TextFn, dom: set<string>, text: string, spans: seq<Span>, f: Transform, token: string, original: string)
    requires DigestShape(h) && IsPlainToken(h, dom, token, original) && Separated(spans) && InText(spans, |text|)
    ensures Tiles(Sort(StartLe, spans), 0, |text|)
    ensures Strays(PiecesOf(text, Sort(StartLe, spans), 0, f), token) <==> StraysIn(text, spans, f, token)
  {
    SortedSeparated(spans, |text|);
    SameElements(spans, Sort(StartLe, spans));
    RestIsTail(h, dom, token, original);
    StraysSeen(text, Sort(StartLe, spans), 0, f, token);
    forall a: nat ensures ClearOf(text, spans, f, token, a) <==> ClearOf(text, Sort(StartLe, spans), f, token, a) {
    }
  }

  /** The pieces of an edit whose replacements are plain tokens of what they replace. */
  lemma {:induction false} EditPieces(h: TextFn, dom: set<string>, text: string, spans: seq<Span>, f: Transform)
    requires Separated(spans) && InText(spans, |text|)
    requires forall x :: x in spans ==> IsPlainToken(h, dom, f(text[x.start..x.end], x), text[x.start..x.end])
    ensures Tiles(Sort(StartLe, spans), 0, |text|)
    ensures var ps := PiecesOf(text, Sort(StartLe, spans), 0, f);
      && GenuinePieces(h, dom, ps) && Render(ps) == RightToLeft(text, spans, f) && Restored(ps) == text
      && forall p :: p in ps && p.Tok? ==> FromSpan(p, text, spans, f)
  {
    var asc := Sort(StartLe, spans);
    RightToLeftAssembles(text, spans, f);
    SortedSeparated(spans, |text|);
    SameElements(spans, asc);
    PiecesRender(text, asc, 0, f);
    PiecesFromSpans(text, asc, 0, f);
    assert text[0..] == text;
    forall p | p in PiecesOf(text, asc, 0, f) && p.Tok? ensures FromSpan(p, text, spans, f) {
      assert FromSpan(p, text, asc, f);
    }
  }

  /** A stored token that the text spells out clear of its spans, and that is not its own original. */
  ghost predicate Harms(text: string, spans: seq<Span>, f: Transform, item: (string, string))
  {
    item.0 != item.1 && StraysIn(text, spans, f, item.0)
  }

  /**
    * Restoring an edited text gives back the text: separated spans in any order, each replaced by a
    * stored token, any other tokens in the store, any iteration order. It takes only that no stored
    * token is spelled out in the text clear of the spans it replaces.
    */
  lemma {:induction false} EditThenRestore(h: TextFn, dom: set<string>, text: string, spans: seq<Span>, f: Transform, items: seq<(string, string)>)
    requires DigestShape(h) && NoCollision(h, dom) && GenuineItems(h, dom, items) && DistinctTokens(items)
    requires Separated(spans) && InText(spans, |text|)
    requires forall x :: x in spans ==> IsPlainToken(h, dom, f(text[x.start..x.end], x), text[x.start..x.end])
    requires forall x :: x in spans ==> Listed(items, f(text[x.start..x.end], x))
    requires forall i :: 0 <= i < |items| ==> !Harms(text, spans, f, items[i])
    ensures forall i :: 0 <= i < |items| ==> items[i].0 != []
    ensures ReplaceAll(RightToLeft(text, spans, f), items) == text
  {
    EditPieces(h, dom, text, spans, f);
    var ps := PiecesOf(text, Sort(StartLe, spans), 0, f);
    forall i | 0 <= i < |items| ensures Harmless(ps, items[i]) {
      StraysIffSpelled(h, dom, text, spans, f, items[i].0, items[i].1);
    }
    forall p | p in ps ensures Stored(p, items) {
      if p.Tok? {
        assert FromSpan(p, text, spans, f);
      }
    }
    AllOrdersRestore(h, dom, ps, items);
  }

  /** With one harmful token in the store, the order that takes it last does not give back the text. */
  lemma {:induction false} HarmSpoils(h: TextFn, dom: set<string>, text: string, spans: seq<Span>, f: Transform,
                   others: seq<(string, string)>, item: (string, string))
    requires DigestShape(h) && NoCollision(h, dom) && GenuineItems(h, dom, others) && DistinctTokens(others)
    requires IsPlainToken(h, dom, item.0, item.1) && !Listed(others, item.0) && Separated(spans) && InText(spans, |text|)
    requires forall x :: x in spans ==> IsPlainToken(h, dom, f(text[x.start..x.end], x), text[x.start..x.end])
    requires forall x :: x in spans ==> Listed(others + [item], f(text[x.start..x.end], x))
    requires Harms(text, spans, f, item) && forall i :: 0 <= i < |others| ==> !Harms(text, spans, f, others[i])
    ensures forall i :: 0 <= i < |others + [item]| ==> (others + [item])[i].0 != []
    ensures ReplaceAll(RightToLeft(text, spans, f), others + [item]) != text
  {
    EditPieces(h, dom, text, spans, f);
    var ps := PiecesOf(text, Sort(StartLe, spans), 0, f);
    forall i | 0 <= i < |others| ensures Harmless(ps, others[i]) {
      StraysIffSpelled(h, dom, text, spans, f, others[i].0, others[i].1);
    }
    StraysIffSpelled(h, dom, text, spans, f, item.0, item.1);
    forall p | p in ps && !Owns(p, item.0) ensures Stored(p, others) {
      if p.Tok? {
        assert FromSpan(p, text, spans, f) && Listed(others + [item], p.token);
        var i :| 0 <= i < |others + [item]| && (others + [item])[i].0 == p.token;
        assert i < |others| && others[i].0 == p.token;
      }
    }
    HarmfulLastSpoils(h, dom, ps, others, item);
  }

  // ------------------------------------------------------------------ a token that is not listed

  ghost predicate HoldsToken(ps: seq<Piece>, token: string)
  {
    exists p :: p in ps && Owns(p, token)
  }

  /** Text in which a token still stands is not the original text: it is longer, shorter or reads otherwise. */
  lemma {:induction false} ViewDiffers(h: TextFn, dom: set<string>, ps: seq<Piece>, token: string, original: string)
    requires DigestShape(h) && NoCollision(h, dom) && GenuinePieces(h, dom, ps) && IsPlainToken(h, dom, token, original)
    ensures |token| >= |original| ==> |View(ps, token)| >= |Restored(ps)|
    ensures |token| <= |original| ==> |View(ps, token)| <= |Restored(ps)|
    ensures HoldsToken(ps, token) && |token| != |original| ==> |View(ps, token)| != |Restored(ps)|
    ensures HoldsToken(ps, token) && token != original ==> View(ps, token) != Restored(ps)
  {
    if ps != [] {
      FirstAndRest(h, dom, ps);
      ViewDiffers(h, dom, ps[1..], token, original);
      assert forall p :: p in ps ==> p == ps[0] || p in ps[1..];
      if Owns(ps[0], token) {
        TokenDeterminesOriginal(h, dom, token, ps[0].original, original);
        if |token| == |original| && token != original {
          SplitsAlike(token, View(ps[1..], token), original, Restored(ps[1..]));
        }
      } else if View(ps[1..], token) != Restored(ps[1..]) {
        SplitsAlike(Was(ps[0]), View(ps[1..], token), Was(ps[0]), Restored(ps[1..]));
      }
    }
  }

  lemma SplitsAlike(a: string, b: string, c: string, d: string)
    requires |a| == |c| && (a != c || b != d)
    ensures a + b != c + d
  {
    assert (a + b)[..|a|] == a && (a + b)[|a|..] == b && (c + d)[..|c|] == c && (c + d)[|c|..] == d;
  }

  lemma {:induction false} SpanHasPiece(text: string, asc: seq<Span>, pos: nat, f: Transform, x: Span)
    requires Tiles(asc, pos, |text|) && x in asc
    ensures x.start <= x.end <= |text| && Tok(f(text[x.start..x.end], x), text[x.start..x.end]) in PiecesOf(text, asc, pos, f)
    decreases |asc|
  {
    TilesBound(asc, pos, |text|);
    TilesBound(asc[1..], asc[0].end, |text|);
    if x != asc[0] {
      SpanHasPiece(text, asc[1..], asc[0].end, f, x);
    }
  }

  /**
    * If all of the text's tokens are listed but one, which stands for something else, the loop leaves that
    * one standing and does not give the text back.
    */
  lemma {:induction false} UnlistedStays(h: TextFn, dom: set<string>, text: string, spans: seq<Span>, f: Transform, items: seq<(string, string)>, missing: Span)
    requires DigestShape(h) && NoCollision(h, dom) && GenuineItems(h, dom, items) && DistinctTokens(items)
    requires Separated(spans) && InText(spans, |text|) && missing in spans
    requires forall x :: x in spans ==> IsPlainToken(h, dom, f(text[x.start..x.end], x), text[x.start..x.end])
    requires forall x :: x in spans ==>
               Listed(items, f(text[x.start..x.end], x)) || f(text[x.start..x.end], x) == f(text[missing.start..missing.end], missing)
    requires !Listed(items, f(text[missing.start..missing.end], missing))
    requires f(text[missing.start..missing.end], missing) != text[missing.start..missing.end]
    requires forall i :: 0 <= i < |items| ==> !Harms(text, spans, f, items[i])
    ensures forall i :: 0 <= i < |items| ==> items[i].0 != []
    ensures ReplaceAll(RightToLeft(text, spans, f), items) != text
  {
    var t, o := f(text[missing.start..missing.end], missing), text[missing.start..missing.end];
    EditPieces(h, dom, text, spans, f);
    var asc := Sort(StartLe, spans);
    var ps := PiecesOf(text, asc, 0, f);
    forall i | 0 <= i < |items| ensures Harmless(ps, items[i]) {
      StraysIffSpelled(h, dom, text, spans, f, items[i].0, items[i].1);
    }
    ReplaceAllRestores(h, dom, ps, items);
    RestoreAllFacts(h, dom, ps, items);
    LeftAreMissing(h, dom, text, spans, f, items, t);
    OnlyOwnPieces(RestoreAll(ps, items), t);
    SortSorts(StartLe, spans);
    SameElements(spans, asc);
    SpanHasPiece(text, asc, 0, f, missing);
    assert Owns(Tok(t, o), t) && Tok(t, o) in ps;
    ViewDiffers(h, dom, ps, t, o);
  }

  lemma {:induction false} LeftAreMissing(h: TextFn, dom: set<string>, text: string, spans: seq<Span>, f: Transform, items: seq<(string, string)>, t: string)
    requires Separated(spans) && InText(spans, |text|)
    requires forall x :: x in spans ==> IsPlainToken(h, dom, f(text[x.start..x.end], x), text[x.start..x.end])
    requires forall x :: x in spans ==> Listed(items, f(text[x.start..x.end], x)) || f(text[x.start..x.end], x) == t
    ensures Tiles(Sort(StartLe, spans), 0, |text|)
    ensures forall q :: q in RestoreAll(PiecesOf(text, Sort(StartLe, spans), 0, f), items) ==> q.Lit? || q.token == t
  {
    EditPieces(h, dom, text, spans, f);
    var ps := PiecesOf(text, Sort(StartLe, spans), 0, f);
    RestoreAllFacts(h, dom, ps, items);
    forall q | q in RestoreAll(ps, items) && q.Tok? ensures q.token == t {
      assert q in ps && FromSpan(q, text, spans, f);
    }
  }
}
