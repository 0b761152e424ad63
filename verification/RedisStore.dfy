/**
  * Processes sharing one Redis-backed token store (src/anonymize.py): two-step loads, minting and
  * unlocked incremental saves, each save being one transaction of additive writes.
  */
module RedisStore {
  import opened Tokens
  import opened Wal
  import opened StoreState
  import opened Optional
  import FB = FileBackend

  /** A starting process has read the forward hash and not yet the reverse one. */
  datatype Proc = HasForward(f: Pairs) | Running(store: Store)

  datatype State = State(shared: Batch, procs: map<nat, Proc>, acked: Batch)

  datatype Action =
    | ReadForward(p: nat)
    | ReadReverse(p: nat)
    | MintIn(p: nat, original: string, kind: string)
    | Save(p: nat)
    | Crash(p: nat)

  const START: State := State(NOTHING, map[], NOTHING)

  predicate Enabled(s: State, a: Action)
  {
    match a
    case ReadForward(p) => p !in s.procs
    case ReadReverse(p) => p in s.procs && s.procs[p].HasForward?
    case MintIn(p, _, _) => p in s.procs && s.procs[p].Running?
    case Save(p) => p in s.procs && s.procs[p].Running?
    case Crash(p) => p in s.procs
  }

  function Step(h: TextFn, s: State, a: Action): State
    requires Enabled(s, a)
  {
    match a
    case ReadForward(p) => s.(procs := s.procs[p := HasForward(s.shared.f)])
    case ReadReverse(p) => s.(procs := s.procs[p := Running(Fresh(Batch(s.procs[p].f, s.shared.r)))])
    case MintIn(p, original, kind) => s.(procs := s.procs[p := Running(Mint(h, s.procs[p].store, original, kind))])
    case Save(p) =>
      var b := Pending(s.procs[p].store);
      State(Merge(s.shared, b), s.procs[p := Running(Persisted(s.procs[p].store, b))], Merge(s.acked, b))
    case Crash(p) => s.(procs := s.procs - {p})
  }

  /** Entries belong to their owner, whoever wrote them. */
  ghost predicate ProcOk(owner: Owner, shared: Batch, proc: Proc)
  {
    match proc
    case HasForward(f) => f.Keys <= shared.f.Keys && forall x :: x in f ==> f[x] in shared.r && shared.r[f[x]] == x
    case Running(store) =>
      && FB.StoreHonest(owner, store)
      && FB.Held(store, FB.Keys(shared.f.Keys, shared.r.Keys))
  }

  ghost predicate Inv(owner: Owner, s: State)
  {
    && FB.Honest(owner, s.shared)
    && (forall t :: t in s.acked.r ==> owner(t) == Some(s.acked.r[t]))
    && s.acked.f.Keys <= s.shared.f.Keys && s.acked.r.Keys <= s.shared.r.Keys
    && forall p :: p in s.procs ==> ProcOk(owner, s.shared, s.procs[p])
  }

  /** A save by one process never takes anything from another. */
  lemma SaveSpares(owner: Owner, shared: Batch, b: Batch, proc: Proc)
    requires FB.Honest(owner, shared) && FB.Honest(owner, b) && ProcOk(owner, shared, proc)
    ensures ProcOk(owner, Merge(shared, b), proc)
  {
    if proc.HasForward? {
      forall x | x in proc.f ensures proc.f[x] in Merge(shared, b).r && Merge(shared, b).r[proc.f[x]] == x {
        assert owner(proc.f[x]) == Some(shared.r[proc.f[x]]);
      }
    }
  }

  lemma PendingIsHonest(owner: Owner, store: Store)
    requires FB.StoreHonest(owner, store)
    ensures FB.Honest(owner, Pending(store))
    ensures Persisted(store, Pending(store)).pendingForward == map[] && Persisted(store, Pending(store)).pendingReverse == map[]
  {
  }

  lemma SaverStaysOk(owner: Owner, shared: Batch, store: Store)
    requires ProcOk(owner, shared, Running(store))
    ensures ProcOk(owner, Merge(shared, Pending(store)), Running(Persisted(store, Pending(store))))
  {
    PendingIsHonest(owner, store);
    SavedIsHonest(owner, store);
    assert FB.Held(store, FB.Keys(shared.f.Keys, shared.r.Keys));
  }

  lemma SavedIsHonest(owner: Owner, store: Store)
    requires FB.StoreHonest(owner, store)
    ensures FB.StoreHonest(owner, Persisted(store, Pending(store)))
  {
    PendingIsHonest(owner, store);
    assert PairedUp(Batch(map[], map[]));
  }

  lemma SaveStep(h: TextFn, owner: Owner, s: State, a: Action)
    requires Inv(owner, s) && a.Save? && Enabled(s, a)
    ensures Inv(owner, Step(h, s, a))
  {
    var u, store := Step(h, s, a), s.procs[a.p].store;
    var b := Pending(store);
    assert ProcOk(owner, s.shared, s.procs[a.p]);
    PendingIsHonest(owner, store);
    FB.MergeHonest(owner, s.shared, b);
    SaverStaysOk(owner, s.shared, store);
    forall p | p in u.procs ensures ProcOk(owner, u.shared, u.procs[p]) {
      if p != a.p {
        SaveSpares(owner, s.shared, b, s.procs[p]);
      }
    }
  }

  lemma BootsHonest(owner: Owner, shared: Batch, f: Pairs)
    requires FB.Honest(owner, shared) && ProcOk(owner, shared, HasForward(f))
    ensures ProcOk(owner, shared, Running(Fresh(Batch(f, shared.r))))
  {
    assert PairedUp(Batch(map[], map[]));
  }

  lemma StepKeepsInv(h: TextFn, dom: set<string>, owner: Owner, s: State, a: Action)
    requires OwnerOf(h, dom, owner) && Inv(owner, s) && Enabled(s, a) && (a.MintIn? ==> a.original in dom)
    ensures Inv(owner, Step(h, s, a))
  {
    if a.Save? {
      SaveStep(h, owner, s, a);
    } else {
      var u := Step(h, s, a);
      if !a.ReadForward? {
        assert ProcOk(owner, s.shared, s.procs[a.p]);
      }
      if a.MintIn? {
        FB.HonestMint(h, owner, s.procs[a.p].store, a.original, a.kind);
      }
      if a.ReadReverse? {
        BootsHonest(owner, s.shared, s.procs[a.p].f);
      }
      forall p | p in u.procs ensures ProcOk(owner, u.shared, u.procs[p]) {
        if p != a.p {
          assert u.procs[p] == s.procs[p];
        }
      }
    }
  }

  ghost predicate IsRun(h: TextFn, dom: set<string>, states: seq<State>, actions: seq<Action>)
  {
    && |states| == |actions| + 1 && states[0] == START
    && forall i :: 0 <= i < |actions| ==>
         && Enabled(states[i], actions[i]) && states[i + 1] == Step(h, states[i], actions[i])
         && (actions[i].MintIn? ==> actions[i].original in dom)
  }

  lemma {:induction false} RunInv(h: TextFn, dom: set<string>, owner: Owner, states: seq<State>, actions: seq<Action>, n: nat)
    requires OwnerOf(h, dom, owner) && IsRun(h, dom, states, actions) && n < |states|
    ensures Inv(owner, states[n])
  {
    if n > 0 {
      RunInv(h, dom, owner, states, actions, n - 1);
      StepKeepsInv(h, dom, owner, states[n - 1], actions[n - 1]);
    }
  }

  lemma {:induction false} SharedGrows(h: TextFn, dom: set<string>, states: seq<State>, actions: seq<Action>, m: nat, n: nat)
    requires IsRun(h, dom, states, actions) && m <= n < |states|
    ensures states[m].shared.f.Keys <= states[n].shared.f.Keys && states[m].shared.r.Keys <= states[n].shared.r.Keys
    decreases n
  {
    if m < n {
      SharedGrows(h, dom, states, actions, m, n - 1);
      assert states[n - 1 + 1] == Step(h, states[n - 1], actions[n - 1]);
    }
  }

  /**
    * Without any lock: what a save acknowledged stays in the shared store for good, each token with the
    * same original and each original with some token that reverses to it.
    */
  lemma AcknowledgedStays(h: TextFn, dom: set<string>, states: seq<State>, actions: seq<Action>, m: nat, n: nat)
    requires DigestShape(h) && NoCollision(h, dom) && IsRun(h, dom, states, actions) && m <= n < |states|
    ensures Linked(states[n].shared)
    ensures forall t :: t in states[m].acked.r ==> t in states[n].shared.r && states[n].shared.r[t] == states[m].acked.r[t]
    ensures states[m].acked.f.Keys <= states[n].shared.f.Keys
  {
    var owner := OwnerExists(h, dom);
    RunInv(h, dom, owner, states, actions, m);
    RunInv(h, dom, owner, states, actions, n);
    SharedGrows(h, dom, states, actions, m, n);
  }

  /** Saves of different processes commute on the reverse hash, in every reachable state. */
  lemma ReverseWritesCommute(h: TextFn, dom: set<string>, states: seq<State>, actions: seq<Action>, n: nat, p: nat, q: nat)
    requires DigestShape(h) && NoCollision(h, dom) && IsRun(h, dom, states, actions) && n < |states|
    requires p in states[n].procs && states[n].procs[p].Running? && q in states[n].procs && states[n].procs[q].Running?
    ensures var s, a, b := states[n].shared, Pending(states[n].procs[p].store), Pending(states[n].procs[q].store);
            Merge(Merge(s, a), b).r == Merge(Merge(s, b), a).r
  {
    var owner := OwnerExists(h, dom);
    RunInv(h, dom, owner, states, actions, n);
    var a, b := states[n].procs[p].store, states[n].procs[q].store;
    assert ProcOk(owner, states[n].shared, states[n].procs[p]) && ProcOk(owner, states[n].shared, states[n].procs[q]);
    PendingIsHonest(owner, a);
    PendingIsHonest(owner, b);
    OwnedMapsCommute(owner, states[n].shared.r, a.pendingReverse, b.pendingReverse);
  }

  lemma OwnedMapsCommute(owner: Owner, s: Pairs, a: Pairs, b: Pairs)
    requires forall t :: t in a ==> owner(t) == Some(a[t])
    requires forall t :: t in b ==> owner(t) == Some(b[t])
    ensures s + a + b == s + b + a
  {
  }

  /**
    * Two processes that mint a token for one original write the same forward value exactly when they
    * minted it under the same kind: the digest does not cover the kind, the token does.
    */
  lemma ForwardWritesAgreeIff(h: TextFn, a: Store, b: Store, original: string, kind: string, other: string)
    requires original !in a.forward && original !in b.forward
    ensures Mint(h, a, original, kind).forward[original] == Mint(h, b, original, other).forward[original] <==> kind == other
  {
    var x, y := Token(h, kind, original), Token(h, other, original);
    if x == y {
      TokenHasKind(h, kind, original);
      TokenHasKind(h, other, original);
    }
  }

  lemma TokenHasKind(h: TextFn, kind: string, original: string)
    ensures |Token(h, kind, original)| == |MARK| + |kind| + 1 + |h(original)|
    ensures Token(h, kind, original)[|MARK|..|MARK| + |kind|] == kind
  {
  }
}
