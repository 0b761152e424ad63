/**
  * Durability and the tokenize/detokenize round trip put together: what one process tokenized and
  * saved, a process that loads later can restore, if its load caught it (src/anonymize.py).
  */
module Recovery {
  import opened Spans
  import opened Tokens
  import opened Wal
  import opened StoreState
  import opened Optional
  import opened FileBackend
  import opened StaleLoad

  ghost predicate PlainKinds(actions: seq<Action>)
  {
    forall i :: 0 <= i < |actions| && actions[i].MintIn? ==> PlainLabel(actions[i].kind)
  }

  /** An owner for the whole run, at whose word the memory of every process may be taken. */
  lemma PlainRun(h: TextFn, dom: set<string>, states: seq<State>, actions: seq<Action>) returns (owner: Owner)
    requires DigestShape(h) && NoCollision(h, dom) && IsRun(h, dom, states, actions) && PlainKinds(actions)
    ensures PlainOwnerOf(h, dom, owner) && AllOwned(h, owner, actions)
  {
    owner := PlainOwnerExists(h, dom);
  }

  lemma PlainMemory(h: TextFn, dom: set<string>, owner: Owner, states: seq<State>, actions: seq<Action>, n: nat, q: nat)
    requires PlainOwnerOf(h, dom, owner) && AllOwned(h, owner, actions) && IsRun(h, dom, states, actions)
    requires n < |states| && IsRunning(states[n], q)
    ensures StoreHonest(owner, states[n].procs[q].store) && PlainReverse(h, dom, states[n].procs[q].store.reverse)
  {
    RunInv(h, dom, owner, states, actions, n);
    OldThread(owner, states[n], q, 0);
  }

  /** Each of these spans' tokens was in process p's memory at step k and acknowledged by step m. */
  ghost predicate SavedBy(states: seq<State>, k: nat, m: nat, p: nat, text: string, spans: seq<Span>)
  {
    && k < |states| && m < |states| && IsRunning(states[k], p) && InText(spans, |text|)
    && forall x :: x in spans ==> SavedToken(states, k, m, p, text[x.start..x.end])
  }

  ghost predicate SavedToken(states: seq<State>, k: nat, m: nat, p: nat, original: string)
    requires k < |states| && m < |states| && IsRunning(states[k], p)
  {
    original in states[k].procs[p].store.forward && states[k].procs[p].store.forward[original] in states[m].acked.r
  }

  /** Such a token is a plain token of its original, and any process that knows it knows that original. */
  lemma SavedTokenIsKnown(h: TextFn, dom: set<string>, owner: Owner, states: seq<State>, actions: seq<Action>,
                          k: nat, m: nat, n: nat, p: nat, q: nat, original: string)
    requires PlainOwnerOf(h, dom, owner) && AllOwned(h, owner, actions) && IsRun(h, dom, states, actions)
    requires k < |states| && m < |states| && n < |states| && IsRunning(states[k], p) && IsRunning(states[n], q)
    requires SavedToken(states, k, m, p, original)
    ensures var (t, known) := (states[k].procs[p].store.forward[original], states[n].procs[q].store.reverse);
      && IsPlainToken(h, dom, t, original)
      && (t in known ==> known[t] == original)
  {
    PlainMemory(h, dom, owner, states, actions, k, p);
    PlainMemory(h, dom, owner, states, actions, n, q);
    var store := states[k].procs[p].store;
    assert store.reverse[store.forward[original]] == original;
  }

  /**
    * A text tokenized in process p at step k, whose tokens were acknowledged by step m, comes back from a
    * process q that read the two files at steps i and j with no log removed in between, at any step n of
    * its life: in any iteration order, whatever else q and the others have stored meanwhile, if no append
    * had been torn and the text spells out no token q knows outside its spans.
    */
  lemma {:induction false} AnyLaterProcessRestores(h: TextFn, dom: set<string>, states: seq<State>, actions: seq<Action>,
                                   k: nat, m: nat, p: nat, q: nat, i: nat, j: nat, n: nat,
                                   text: string, spans: seq<Span>, items: seq<(string, string)>)
    requires DigestShape(h) && NoCollision(h, dom) && IsRun(h, dom, states, actions) && PlainKinds(actions)
    requires LoadsAt(states, actions, q, i, j) && NoRemove(actions, i, j) && states[j].tears == 0
    requires m <= j < n < |states| && Survives(actions, q, j, n)
    requires Separated(spans) && SavedBy(states, k, m, p, text, spans)
    requires IsRunning(states[n], q) ==> Enumerates(items, states[n].procs[q].store.reverse)
    requires forall e :: 0 <= e < |items| ==> !Harms(text, spans, Lookup(states[k].procs[p].store), items[e])
    ensures IsRunning(states[n], q)
    ensures forall e :: 0 <= e < |items| ==> items[e].0 != []
    ensures ReplaceAll(RightToLeft(text, spans, Lookup(states[k].procs[p].store)), items) == text
  {
    var f := Lookup(states[k].procs[p].store);
    var owner := PlainRun(h, dom, states, actions);
    AcknowledgedIsLoaded(h, dom, states, actions, q, i, j, m, n);
    PlainMemory(h, dom, owner, states, actions, n, q);
    ItemsGenuine(h, dom, items, states[n].procs[q].store.reverse);
    forall x | x in spans
      ensures IsPlainToken(h, dom, f(text[x.start..x.end], x), text[x.start..x.end])
      ensures Listed(items, f(text[x.start..x.end], x))
    {
      assert SavedToken(states, k, m, p, text[x.start..x.end]);
      SavedTokenIsKnown(h, dom, owner, states, actions, k, m, n, p, q, text[x.start..x.end]);
    }
    EditThenRestore(h, dom, text, spans, f, items);
  }

  /** The tokens of every other original among the spans are known to the process. */
  ghost predicate KnowsTheRest(known: Pairs, store: Store, text: string, spans: seq<Span>, original: string)
    requires InText(spans, |text|)
  {
    forall x :: x in spans && text[x.start..x.end] != original ==>
      text[x.start..x.end] in store.forward && store.forward[text[x.start..x.end]] in known
  }

  /**
    * Whatever was removed between the two reads: a freshly started process that knows the text's other
    * tokens gives the text back exactly if the token of the remaining original was in the snapshot it
    * read or in the log it read.
    */
  lemma {:induction false} RestoresIffRead(h: TextFn, dom: set<string>, states: seq<State>, actions: seq<Action>,
                           k: nat, m: nat, p: nat, q: nat, i: nat, j: nat,
                           text: string, spans: seq<Span>, one: Span, items: seq<(string, string)>)
    requires DigestShape(h) && NoCollision(h, dom) && IsRun(h, dom, states, actions) && PlainKinds(actions)
    requires LoadsAt(states, actions, q, i, j) && m <= j
    requires Separated(spans) && SavedBy(states, k, m, p, text, spans) && one in spans
    requires IsRunning(states[j + 1], q) ==>
               && Enumerates(items, states[j + 1].procs[q].store.reverse)
               && KnowsTheRest(states[j + 1].procs[q].store.reverse, states[k].procs[p].store, text, spans, text[one.start..one.end])
    requires forall e :: 0 <= e < |items| ==> !Harms(text, spans, Lookup(states[k].procs[p].store), items[e])
    requires Lookup(states[k].procs[p].store)(text[one.start..one.end], one) != text[one.start..one.end]
    ensures IsRunning(states[j + 1], q)
    ensures forall e :: 0 <= e < |items| ==> items[e].0 != []
    ensures var (f, store) := (Lookup(states[k].procs[p].store), states[k].procs[p].store);
      && text[one.start..one.end] in store.forward
      && var t := store.forward[text[one.start..one.end]];
         ReplaceAll(RightToLeft(text, spans, f), items) == text
         <==> t in states[i].disk.snapshot.r || t in Overlay(states[j].disk).r
  {
    var f, original := Lookup(states[k].procs[p].store), text[one.start..one.end];
    var owner := PlainRun(h, dom, states, actions);
    assert SavedToken(states, k, m, p, original);
    AcknowledgedIsLoadedIff(h, dom, states, actions, q, i, j, m, f(original, one));
    var known := states[j + 1].procs[q].store.reverse;
    PlainMemory(h, dom, owner, states, actions, j + 1, q);
    ItemsGenuine(h, dom, items, known);
    forall x | x in spans
      ensures IsPlainToken(h, dom, f(text[x.start..x.end], x), text[x.start..x.end])
      ensures Listed(items, f(text[x.start..x.end], x)) || f(text[x.start..x.end], x) == f(original, one)
    {
      assert SavedToken(states, k, m, p, text[x.start..x.end]);
      SavedTokenIsKnown(h, dom, owner, states, actions, k, m, j + 1, p, q, text[x.start..x.end]);
    }
    if f(original, one) in known {
      EditThenRestore(h, dom, text, spans, f, items);
    } else {
      UnlistedStays(h, dom, text, spans, f, items, one);
    }
  }
}
