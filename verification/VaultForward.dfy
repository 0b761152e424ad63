/**
  * The forward map of the Vault backend, which a save writes before the reverse map and not together
  * with it (src/anonymize.py): what keeps it, when every entry in it can be reversed, and what a crash
  * between the two writes leaves behind.
  */
module VaultForward {
  import opened Tokens
  import opened Wal
  import opened StoreState
  import opened Optional
  import opened VaultLease

  // ------------------------------------------------------------------ forward keys

  /** While a lease is current, nothing has been added to the vault that its holder has not seen. */
  ghost predicate SeesForward(s: State, proc: Proc)
  {
    proc.Proc? && InSection(proc.phase) && proc.phase.lease.version == s.record.version ==>
      && (proc.phase.GotForward? ==> s.vault.f.Keys <= proc.phase.forward.Keys)
      && (proc.phase.Merged? ==> s.vault.f.Keys <= proc.phase.full.f.Keys)
      && (proc.phase.WroteForward? ==> s.vault.f == proc.phase.full.f)
  }

  ghost predicate ForwardInv(s: State)
  {
    forall p :: p in s.procs ==> SeesForward(s, s.procs[p])
  }

  lemma ForwardFrame(h: TextFn, ttl: real, s: State, a: Action, q: nat)
    requires LeaseInv(ttl, s) && Enabled(s, a) && !a.StoreF? && q in s.procs && SeesForward(s, s.procs[q])
    requires q in Step(h, ttl, s, a).procs && Step(h, ttl, s, a).procs[q] == s.procs[q]
    ensures SeesForward(Step(h, ttl, s, a), s.procs[q])
  {
    assert ProcLeaseOk(ttl, s, s.procs[q]);
  }

  lemma NewReader(h: TextFn, ttl: real, s: State, a: Action)
    requires ForwardInv(s) && Enabled(s, a) && !a.StoreF? && !a.Tick? && a.p in Step(h, ttl, s, a).procs
    ensures SeesForward(Step(h, ttl, s, a), Step(h, ttl, s, a).procs[a.p])
  {
    assert a.p in s.procs ==> SeesForward(s, s.procs[a.p]);
  }

  lemma WriteForwardStep(h: TextFn, ttl: real, s: State, a: Action)
    requires LeaseInv(ttl, s) && ForwardInv(s) && Enabled(s, a) && a.StoreF? && InTime(ttl, s, a)
    ensures ForwardInv(Step(h, ttl, s, a)) && s.vault.f.Keys <= Step(h, ttl, s, a).vault.f.Keys
  {
    var s' := Step(h, ttl, s, a);
    OneUnexpiredHolder(ttl, s, a.p, a.p);
    assert SeesForward(s, s.procs[a.p]);
    forall q | q in s'.procs ensures SeesForward(s', s'.procs[q]) {
      assert ProcLeaseOk(ttl, s, s.procs[q]);
      assert q != a.p ==> !SameAttempt(s.procs[a.p], s.procs[q]);
    }
  }

  lemma ForwardStep(h: TextFn, ttl: real, s: State, a: Action)
    requires LeaseInv(ttl, s) && ForwardInv(s) && Enabled(s, a) && InTime(ttl, s, a)
    ensures ForwardInv(Step(h, ttl, s, a)) && s.vault.f.Keys <= Step(h, ttl, s, a).vault.f.Keys
  {
    if a.StoreF? {
      WriteForwardStep(h, ttl, s, a);
    } else {
      var s' := Step(h, ttl, s, a);
      forall q | q in s'.procs ensures SeesForward(s', s'.procs[q]) {
        if !a.Tick? && q == a.p {
          NewReader(h, ttl, s, a);
        } else {
          ForwardFrame(h, ttl, s, a, q);
        }
      }
    }
  }

  lemma {:induction false} RunForward(h: TextFn, dom: set<string>, ttl: real, states: seq<State>, actions: seq<Action>, m: nat, n: nat)
    requires IsRun(h, dom, ttl, states, actions) && AllInTime(ttl, states, actions) && m <= n < |states|
    ensures ForwardInv(states[n]) && states[m].vault.f.Keys <= states[n].vault.f.Keys
    decreases n
  {
    if n > 0 {
      RunForward(h, dom, ttl, states, actions, if m < n then m else n - 1, n - 1);
      RunLease(h, dom, ttl, states, actions, n - 1);
      ForwardStep(h, ttl, states[n - 1], actions[n - 1]);
    }
  }

  /** The merge never loses an original either: if sections stay within their leases, forward keys only grow. */
  lemma ForwardKeysStay(h: TextFn, dom: set<string>, ttl: real, states: seq<State>, actions: seq<Action>, m: nat, n: nat)
    requires IsRun(h, dom, ttl, states, actions) && AllInTime(ttl, states, actions) && m <= n < |states|
    ensures states[m].vault.f.Keys <= states[n].vault.f.Keys
  {
    RunForward(h, dom, ttl, states, actions, m, n);
  }

  // ------------------------------------------------------------------ reversible entries

  predicate Between(s: State, p: nat)
  {
    Live(s, p) && s.procs[p].phase.WroteForward?
  }

  /** Readable in reverse, or about to be written by a process between its two writes. */
  ghost predicate Supplied(s: State, token: string)
  {
    token in s.vault.r || exists p :: Between(s, p) && token in s.procs[p].phase.full.r
  }

  ghost predicate ProcBacked(s: State, proc: Proc)
  {
    match proc
    case Booting => true
    case BootForward(f) => forall x :: x in f ==> Supplied(s, f[x])
    case Proc(store, phase) =>
      && (forall x :: x in store.forward ==> store.forward[x] in store.reverse || Supplied(s, store.forward[x]))
      && (phase.GotForward? ==> forall x :: x in phase.forward ==> Supplied(s, phase.forward[x]))
      && (phase.Merged? || phase.WroteForward? || phase.Stored? ==> Backed(phase.full.f, phase.full.r))
  }

  ghost predicate Backed(f: Pairs, r: Pairs)
  {
    forall x :: x in f ==> f[x] in r
  }

  ghost predicate AllBacked(s: State)
  {
    && (forall x :: x in s.vault.f ==> Supplied(s, s.vault.f[x]))
    && forall p :: p in s.procs ==> ProcBacked(s, s.procs[p])
  }

  /** Some process is between its writes with a lease that ran out: in time, it will never write again. */
  ghost predicate Stuck(ttl: real, s: State)
  {
    exists p :: Between(s, p) && s.now - s.procs[p].phase.lease.since > ttl
  }

  /** Neither a crash nor an exception between the two writes. */
  predicate Gentle(s: State, a: Action)
  {
    a.Crash? || a.Abort? ==> !Between(s, a.p)
  }

  lemma StuckStays(h: TextFn, ttl: real, s: State, a: Action)
    requires Stuck(ttl, s) && Enabled(s, a) && InTime(ttl, s, a) && Gentle(s, a)
    ensures Stuck(ttl, Step(h, ttl, s, a))
  {
    var p :| Between(s, p) && s.now - s.procs[p].phase.lease.since > ttl;
    var s' := Step(h, ttl, s, a);
    assert Between(s', p) && s'.procs[p] == s.procs[p];
  }

  /** A process inside the section in time is alone there, unless somebody is stuck. */
  lemma AloneInTime(ttl: real, s: State, p: nat, t: string)
    requires LeaseInv(ttl, s) && !Stuck(ttl, s) && Unexpired(ttl, s, p) && !Between(s, p) && Supplied(s, t)
    ensures t in s.vault.r
  {
    if q :| Between(s, q) && t in s.procs[q].phase.full.r {
      OneUnexpiredHolder(ttl, s, p, q);
    }
  }

  /** Only the reverse write takes a process out from between its writes. */
  lemma BetweenStays(h: TextFn, ttl: real, s: State, a: Action, p: nat)
    requires Enabled(s, a) && Gentle(s, a) && Between(s, p)
    ensures var s' := Step(h, ttl, s, a);
      if a.StoreR? && a.p == p then s'.vault.r == s.procs[p].phase.full.r
      else Between(s', p) && s'.procs[p] == s.procs[p]
  {
  }

  lemma SuppliedStays(h: TextFn, ttl: real, s: State, a: Action, t: string)
    requires Enabled(s, a) && Gentle(s, a) && Supplied(s, t)
    requires s.vault.r.Keys <= Step(h, ttl, s, a).vault.r.Keys
    ensures Supplied(Step(h, ttl, s, a), t)
  {
    var s' := Step(h, ttl, s, a);
    if t !in s.vault.r {
      var p :| Between(s, p) && t in s.procs[p].phase.full.r;
      BetweenStays(h, ttl, s, a, p);
      assert Between(s', p) || t in s'.vault.r;
    }
  }

  lemma BackedStays(h: TextFn, ttl: real, s: State, a: Action, proc: Proc)
    requires Enabled(s, a) && Gentle(s, a) && ProcBacked(s, proc)
    requires s.vault.r.Keys <= Step(h, ttl, s, a).vault.r.Keys
    ensures ProcBacked(Step(h, ttl, s, a), proc)
  {
    forall t | Supplied(s, t) ensures Supplied(Step(h, ttl, s, a), t) {
      SuppliedStays(h, ttl, s, a, t);
    }
  }

  /** The merge a process makes in time can reverse all of its forward map. */
  lemma MergeIsBacked(ttl: real, s: State, p: nat)
    requires LeaseInv(ttl, s) && !Stuck(ttl, s) && Unexpired(ttl, s, p) && s.procs[p].phase.GotForward? && ProcBacked(s, s.procs[p])
    ensures var full := Merge(Batch(s.procs[p].phase.forward, s.vault.r), Batch(s.procs[p].store.forward, s.procs[p].store.reverse));
      Backed(full.f, full.r)
  {
    var forward, store := s.procs[p].phase.forward, s.procs[p].store;
    forall x | x in forward ensures forward[x] in s.vault.r {
      AloneInTime(ttl, s, p, forward[x]);
    }
    forall x | x in store.forward ensures store.forward[x] in store.reverse || store.forward[x] in s.vault.r {
      if store.forward[x] !in store.reverse {
        AloneInTime(ttl, s, p, store.forward[x]);
      }
    }
  }

  lemma MintIsBacked(h: TextFn, s: State, store: Store, original: string, kind: string)
    requires ProcBacked(s, Proc(store, Outside))
    ensures ProcBacked(s, Proc(Mint(h, store, original, kind), Outside))
  {
  }

  /** The stepping process itself. */
  lemma OwnBacked(h: TextFn, ttl: real, s: State, a: Action)
    requires LeaseInv(ttl, s) && !Stuck(ttl, s) && AllBacked(s) && Enabled(s, a) && InTime(ttl, s, a) && Gentle(s, a)
    requires s.vault.r.Keys <= Step(h, ttl, s, a).vault.r.Keys && !a.Tick? && a.p in Step(h, ttl, s, a).procs
    ensures ProcBacked(Step(h, ttl, s, a), Step(h, ttl, s, a).procs[a.p])
  {
    if a.LoadR? {
      LoadedIsBacked(h, ttl, s, a);
    } else if a.Spawn? || a.ReadF? || a.ReadR? {
      BootIsBacked(h, ttl, s, a);
    } else if a.MintIn? {
      MintedIsBacked(h, ttl, s, a);
    } else if a.LoadF? || a.StoreF? || a.StoreR? || a.Finish? {
      WriterIsBacked(h, ttl, s, a);
    } else {
      LockerIsBacked(h, ttl, s, a);
    }
  }

  /** The steps of the lock protocol leave the store alone and no data in the phase. */
  lemma LockerIsBacked(h: TextFn, ttl: real, s: State, a: Action)
    requires AllBacked(s) && Enabled(s, a) && Gentle(s, a) && !a.Tick? && a.p in s.procs && a.p in Step(h, ttl, s, a).procs
    requires !a.ReadF? && !a.ReadR? && !a.MintIn? && !a.LoadF? && !a.LoadR? && !a.StoreF? && !a.StoreR? && !a.Finish?
    ensures ProcBacked(Step(h, ttl, s, a), Step(h, ttl, s, a).procs[a.p])
  {
    assert ProcBacked(s, s.procs[a.p]);
    BackedStays(h, ttl, s, a, s.procs[a.p]);
  }

  lemma MintedIsBacked(h: TextFn, ttl: real, s: State, a: Action)
    requires AllBacked(s) && Enabled(s, a) && Gentle(s, a) && a.MintIn?
    ensures ProcBacked(Step(h, ttl, s, a), Step(h, ttl, s, a).procs[a.p])
  {
    assert ProcBacked(s, s.procs[a.p]);
    BackedStays(h, ttl, s, a, s.procs[a.p]);
    MintIsBacked(h, Step(h, ttl, s, a), s.procs[a.p].store, a.original, a.kind);
  }

  lemma WriterIsBacked(h: TextFn, ttl: real, s: State, a: Action)
    requires AllBacked(s) && Enabled(s, a) && Gentle(s, a) && s.vault.r.Keys <= Step(h, ttl, s, a).vault.r.Keys
    requires a.LoadF? || a.StoreF? || a.StoreR? || a.Finish?
    ensures ProcBacked(Step(h, ttl, s, a), Step(h, ttl, s, a).procs[a.p])
  {
    assert ProcBacked(s, s.procs[a.p]);
    BackedStays(h, ttl, s, a, s.procs[a.p]);
    VaultStaysSupplied(h, ttl, s, a);
  }

  lemma BootIsBacked(h: TextFn, ttl: real, s: State, a: Action)
    requires AllBacked(s) && Enabled(s, a) && Gentle(s, a) && (a.Spawn? || a.ReadF? || a.ReadR?)
    ensures ProcBacked(Step(h, ttl, s, a), Step(h, ttl, s, a).procs[a.p])
  {
    VaultStaysSupplied(h, ttl, s, a);
    if a.ReadR? {
      assert ProcBacked(s, s.procs[a.p]);
      BackedStays(h, ttl, s, a, s.procs[a.p]);
    }
  }

  lemma VaultStaysSupplied(h: TextFn, ttl: real, s: State, a: Action)
    requires AllBacked(s) && Enabled(s, a) && Gentle(s, a) && s.vault.r.Keys <= Step(h, ttl, s, a).vault.r.Keys
    ensures forall x :: x in s.vault.f ==> Supplied(Step(h, ttl, s, a), s.vault.f[x])
  {
    forall x | x in s.vault.f ensures Supplied(Step(h, ttl, s, a), s.vault.f[x]) {
      SuppliedStays(h, ttl, s, a, s.vault.f[x]);
    }
  }

  lemma LoadedIsBacked(h: TextFn, ttl: real, s: State, a: Action)
    requires LeaseInv(ttl, s) && !Stuck(ttl, s) && AllBacked(s) && Enabled(s, a) && InTime(ttl, s, a) && a.LoadR?
    ensures ProcBacked(Step(h, ttl, s, a), Step(h, ttl, s, a).procs[a.p])
  {
    assert ProcBacked(s, s.procs[a.p]);
    MergeIsBacked(ttl, s, a.p);
    BackedStays(h, ttl, s, a, s.procs[a.p]);
  }

  lemma BackedStep(h: TextFn, ttl: real, s: State, a: Action)
    requires LeaseInv(ttl, s) && !Stuck(ttl, s) && AllBacked(s) && Enabled(s, a) && InTime(ttl, s, a) && Gentle(s, a)
    requires s.vault.r.Keys <= Step(h, ttl, s, a).vault.r.Keys
    ensures AllBacked(Step(h, ttl, s, a))
  {
    var s' := Step(h, ttl, s, a);
    forall p | p in s'.procs ensures ProcBacked(s', s'.procs[p]) {
      if !a.Tick? && p == a.p {
        OwnBacked(h, ttl, s, a);
      } else {
        BackedStays(h, ttl, s, a, s.procs[p]);
      }
    }
    forall x | x in s'.vault.f ensures Supplied(s', s'.vault.f[x]) {
      if a.StoreF? {
        assert ProcBacked(s, s.procs[a.p]);
        assert Between(s', a.p) && s'.vault.f[x] in s'.procs[a.p].phase.full.r;
      } else {
        SuppliedStays(h, ttl, s, a, s.vault.f[x]);
      }
    }
  }

  ghost predicate AllGentle(states: seq<State>, actions: seq<Action>)
    requires |states| == |actions| + 1
  {
    forall i :: 0 <= i < |actions| ==> Gentle(states[i], actions[i])
  }

  lemma {:induction false} RunBacked(h: TextFn, dom: set<string>, owner: Owner, ttl: real,
                                     states: seq<State>, actions: seq<Action>, n: nat)
    requires OwnerOf(h, dom, owner) && IsRun(h, dom, ttl, states, actions) && AllInTime(ttl, states, actions)
    requires AllGentle(states, actions) && n < |states|
    ensures Stuck(ttl, states[n]) || AllBacked(states[n])
  {
    if n > 0 {
      var s, a := states[n - 1], actions[n - 1];
      RunBacked(h, dom, owner, ttl, states, actions, n - 1);
      RunLease(h, dom, ttl, states, actions, n - 1);
      RunStore(h, dom, owner, ttl, states, actions, n - 1, n);
      assert states[n - 1 + 1] == Step(h, ttl, s, a);
      if Stuck(ttl, s) {
        StuckStays(h, ttl, s, a);
      } else {
        BackedStep(h, ttl, s, a);
      }
    }
  }

  /**
    * If sections stay within their leases and nobody crashes or fails between the two writes, then
    * whenever nobody is between them every forward entry of the vault can be reversed.
    */
  lemma VaultIsReversible(h: TextFn, dom: set<string>, ttl: real, states: seq<State>, actions: seq<Action>, n: nat)
    requires DigestShape(h) && NoCollision(h, dom)
    requires IsRun(h, dom, ttl, states, actions) && AllInTime(ttl, states, actions) && AllGentle(states, actions)
    requires n < |states| && forall p :: !Between(states[n], p)
    ensures Backed(states[n].vault.f, states[n].vault.r)
  {
    var owner := OwnerExists(h, dom);
    RunBacked(h, dom, owner, ttl, states, actions, n);
  }

  // ------------------------------------------------------------------ a crash between the writes

  /**
    * What a crash between the two writes leaves, in any run whose sections stay within their leases: a
    * vault that can be reversed exactly if every forward value of the crashed process's merge was
    * readable in reverse before it began.
    */
  lemma CrashLeavesReversibleIff(h: TextFn, dom: set<string>, ttl: real, states: seq<State>, actions: seq<Action>, n: nat, p: nat)
    requires IsRun(h, dom, ttl, states, actions) && AllInTime(ttl, states, actions) && n < |states|
    requires Between(states[n], p) && Unexpired(ttl, states[n], p)
    ensures var s := states[n]; var crashed := Step(h, ttl, s, Crash(p));
      && crashed.vault == s.vault && !Live(crashed, p)
      && (Backed(crashed.vault.f, crashed.vault.r) <==> Backed(s.procs[p].phase.full.f, s.vault.r))
  {
    RunLease(h, dom, ttl, states, actions, n);
    RunForward(h, dom, ttl, states, actions, n, n);
    OneUnexpiredHolder(ttl, states[n], p, p);
    assert SeesForward(states[n], states[n].procs[p]);
  }

  /** A stretch of a run, all of it in time. */
  ghost predicate Leads(h: TextFn, dom: set<string>, ttl: real, s: State, states: seq<State>, actions: seq<Action>)
  {
    && |states| == |actions| + 1 && states[0] == s
    && forall i :: 0 <= i < |actions| ==>
         && Enabled(states[i], actions[i]) && InTime(ttl, states[i], actions[i])
         && states[i + 1] == Step(h, ttl, states[i], actions[i])
         && (actions[i].MintIn? ==> actions[i].original in dom)
  }

  lemma LeadsOn(h: TextFn, dom: set<string>, ttl: real, s: State, states: seq<State>, actions: seq<Action>,
                more: seq<State>, later: seq<Action>)
    requires Leads(h, dom, ttl, s, states, actions) && Leads(h, dom, ttl, states[|actions|], more, later)
    ensures Leads(h, dom, ttl, s, states + more[1..], actions + later)
    ensures (states + more[1..])[|actions + later|] == more[|later|]
  {
    var all, acts, n := states + more[1..], actions + later, |actions|;
    forall i | 0 <= i < |acts|
      ensures Enabled(all[i], acts[i]) && InTime(ttl, all[i], acts[i]) && all[i + 1] == Step(h, ttl, all[i], acts[i])
      ensures acts[i].MintIn? ==> acts[i].original in dom
    {
      if i >= n {
        assert all[i] == more[i - n] && all[i + 1] == more[i - n + 1] && acts[i] == later[i - n];
      }
    }
  }

  /** One process, alone with an unused vault, whose store holds one new token. */
  ghost predicate Minted(s: State, x: string, token: string, phase: Phase)
  {
    && s.vault == NOTHING && s.procs.Keys == {0} && s.procs[0].Proc? && s.procs[0].phase == phase
    && s.procs[0].store.forward == map[x := token] && s.procs[0].store.reverse == map[token := x]
  }

  lemma MintsOne(h: TextFn, ttl: real, x: string, kind: string) returns (states: seq<State>, actions: seq<Action>)
    ensures Leads(h, {x}, ttl, START, states, actions)
    ensures Minted(states[|actions|], x, Token(h, kind, x), Outside) && states[|actions|].record == START.record
  {
    actions := [Spawn(0), ReadF(0), ReadR(0), MintIn(0, x, kind)];
    var s1 := Step(h, ttl, START, actions[0]);
    var s2 := Step(h, ttl, s1, actions[1]);
    var s3 := Step(h, ttl, s2, actions[2]);
    var s4 := Step(h, ttl, s3, actions[3]);
    states := [START, s1, s2, s3, s4];
  }

  lemma FindsFree(h: TextFn, ttl: real, s: State, x: string, token: string) returns (states: seq<State>, actions: seq<Action>)
    requires Minted(s, x, token, Outside) && s.record == START.record
    ensures Leads(h, {x}, ttl, s, states, actions)
    ensures Minted(states[|actions|], x, token, FoundFree(s.nextId, 0)) && states[|actions|].record == START.record
  {
    actions := [Begin(0), ReadLock(0), Decide(0)];
    var s1 := Step(h, ttl, s, actions[0]);
    var s2 := Step(h, ttl, s1, actions[1]);
    var s3 := Step(h, ttl, s2, actions[2]);
    states := [s, s1, s2, s3];
  }

  lemma TakesLease(h: TextFn, ttl: real, s: State, x: string, token: string, id: nat) returns (states: seq<State>, actions: seq<Action>)
    requires Minted(s, x, token, FoundFree(id, 0)) && s.record == START.record
    ensures Leads(h, {x}, ttl, s, states, actions)
    ensures Minted(states[|actions|], x, token, Entered(Lease(id, s.now, 1))) && states[|actions|].now == s.now
  {
    actions := [Stamp(0), CasAcquire(0, Answered)];
    var s1 := Step(h, ttl, s, actions[0]);
    var s2 := Step(h, ttl, s1, actions[1]);
    states := [s, s1, s2];
  }

  lemma Merges(h: TextFn, ttl: real, s: State, x: string, token: string, lease: Lease) returns (states: seq<State>, actions: seq<Action>)
    requires ttl >= 0.0 && lease.since == s.now && Minted(s, x, token, Entered(lease))
    ensures Leads(h, {x}, ttl, s, states, actions)
    ensures Minted(states[|actions|], x, token, VaultLease.Merged(lease, Batch(map[x := token], map[token := x])))
    ensures states[|actions|].now == s.now
  {
    actions := [LoadF(0), LoadR(0)];
    var s1 := Step(h, ttl, s, actions[0]);
    var s2 := Step(h, ttl, s1, actions[1]);
    assert map[] + map[x := token] == map[x := token] && map[] + map[token := x] == map[token := x];
    states := [s, s1, s2];
  }

  /** The vault holds a token for `x` that nothing can reverse, and nobody is left to write it. */
  ghost predicate Orphaned(s: State, x: string, token: string)
  {
    s.vault == Batch(map[x := token], map[]) && s.procs == map[]
  }

  lemma WritesAndDies(h: TextFn, ttl: real, s: State, x: string, token: string, lease: Lease) returns (states: seq<State>, actions: seq<Action>)
    requires ttl >= 0.0 && lease.since == s.now
    requires Minted(s, x, token, VaultLease.Merged(lease, Batch(map[x := token], map[token := x])))
    ensures Leads(h, {x}, ttl, s, states, actions) && Orphaned(states[|actions|], x, token)
  {
    actions := [StoreF(0), Crash(0)];
    var s1 := Step(h, ttl, s, actions[0]);
    var s2 := Step(h, ttl, s1, actions[1]);
    states := [s, s1, s2];
  }

  /** Wherever a forward entry has no reverse entry, the next process to load hands its token out, with nothing left to save. */
  lemma HandsOut(h: TextFn, ttl: real, s: State, q: nat, x: string, kind: string) returns (states: seq<State>, actions: seq<Action>)
    requires q !in s.procs && x in s.vault.f && s.vault.f[x] !in s.vault.r
    ensures Leads(h, {x}, ttl, s, states, actions)
    ensures var t := states[|actions|];
      && t.vault == s.vault && Live(t, q) && Pending(t.procs[q].store) == NOTHING
      && TokenOf(t.procs[q].store, x) == s.vault.f[x] && s.vault.f[x] !in t.procs[q].store.reverse
  {
    actions := [Spawn(q), ReadF(q), ReadR(q), MintIn(q, x, kind)];
    var s1 := Step(h, ttl, s, actions[0]);
    var s2 := Step(h, ttl, s1, actions[1]);
    var s3 := Step(h, ttl, s2, actions[2]);
    var s4 := Step(h, ttl, s3, actions[3]);
    states := [s, s1, s2, s3, s4];
  }

  /**
    * A run that gets there, for every original and every kind: a process crashes between its writes,
    * and the next one hands out a token that neither it nor the vault can ever turn back.
    */
  lemma CrashBetweenWritesOrphans(h: TextFn, ttl: real, x: string, kind: string) returns (states: seq<State>, actions: seq<Action>)
    requires ttl >= 0.0
    ensures IsRun(h, {x}, ttl, states, actions) && AllInTime(ttl, states, actions)
    ensures var t, token := states[|actions|], Token(h, kind, x);
      && x in t.vault.f && t.vault.f[x] == token && token !in t.vault.r
      && Live(t, 1) && TokenOf(t.procs[1].store, x) == token && token !in t.procs[1].store.reverse
      && Pending(t.procs[1].store) == NOTHING
  {
    var token := Token(h, kind, x);
    states, actions := MintsOne(h, ttl, x, kind);
    var id := states[|actions|].nextId;
    var more, later := FindsFree(h, ttl, states[|actions|], x, token);
    states, actions := GoOn(h, x, ttl, states, actions, more, later);
    var lease := Lease(id, states[|actions|].now, 1);
    more, later := TakesLease(h, ttl, states[|actions|], x, token, id);
    states, actions := GoOn(h, x, ttl, states, actions, more, later);
    more, later := Merges(h, ttl, states[|actions|], x, token, lease);
    states, actions := GoOn(h, x, ttl, states, actions, more, later);
    more, later := WritesAndDies(h, ttl, states[|actions|], x, token, lease);
    states, actions := GoOn(h, x, ttl, states, actions, more, later);
    more, later := HandsOut(h, ttl, states[|actions|], 1, x, kind);
    states, actions := GoOn(h, x, ttl, states, actions, more, later);
  }

  lemma GoOn(h: TextFn, x: string, ttl: real, states: seq<State>, actions: seq<Action>, more: seq<State>, later: seq<Action>)
      returns (all: seq<State>, acts: seq<Action>)
    requires Leads(h, {x}, ttl, START, states, actions) && Leads(h, {x}, ttl, states[|actions|], more, later)
    ensures Leads(h, {x}, ttl, START, all, acts) && all[|acts|] == more[|later|]
  {
    LeadsOn(h, {x}, ttl, START, states, actions, more, later);
    all, acts := states + more[1..], actions + later;
  }
}
