/**
  * What the Vault backend's lease does not protect against: a holder that is paused inside its section
  * until the lease has run out, and then goes on writing (src/anonymize.py).
  */
module VaultLate {
  import opened Tokens
  import opened Wal
  import opened StoreState
  import opened Optional
  import opened VaultLease

  /** A stretch of a run, in time or not. */
  ghost predicate Continues(h: TextFn, dom: set<string>, ttl: real, s: State, states: seq<State>, actions: seq<Action>)
  {
    && |states| == |actions| + 1 && states[0] == s
    && forall i :: 0 <= i < |actions| ==>
         && Enabled(states[i], actions[i]) && states[i + 1] == Step(h, ttl, states[i], actions[i])
         && (actions[i].MintIn? ==> actions[i].original in dom)
  }

  lemma ContinuesOn(h: TextFn, dom: set<string>, ttl: real, s: State, states: seq<State>, actions: seq<Action>,
                    more: seq<State>, later: seq<Action>) returns (all: seq<State>, acts: seq<Action>)
    requires Continues(h, dom, ttl, s, states, actions) && Continues(h, dom, ttl, states[|actions|], more, later)
    ensures Continues(h, dom, ttl, s, all, acts) && all[|acts|] == more[|later|]
  {
    all, acts := states + more[1..], actions + later;
    var n := |actions|;
    forall i | 0 <= i < |acts|
      ensures Enabled(all[i], acts[i]) && all[i + 1] == Step(h, ttl, all[i], acts[i])
      ensures acts[i].MintIn? ==> acts[i].original in dom
    {
      if i >= n {
        assert all[i] == more[i - n] && all[i + 1] == more[i - n + 1] && acts[i] == later[i - n];
      }
    }
  }

  /** Process p is alone in its memory: one new token, read off a vault that holds nothing. */
  ghost predicate HoldsOne(s: State, p: nat, x: string, token: string, phase: Phase)
  {
    && Live(s, p) && s.procs[p].phase == phase
    && s.procs[p].store.forward == map[x := token] && s.procs[p].store.reverse == map[token := x]
  }

  function Only(x: string, token: string): Batch
  {
    Batch(map[x := token], map[token := x])
  }

  /** A process starts on an unused vault and mints. */
  lemma StartsAndMints(h: TextFn, dom: set<string>, ttl: real, s: State, p: nat, x: string, kind: string)
      returns (states: seq<State>, actions: seq<Action>)
    requires p !in s.procs && s.vault == NOTHING && x in dom
    ensures Continues(h, dom, ttl, s, states, actions)
    ensures var t := states[|actions|];
      && HoldsOne(t, p, x, Token(h, kind, x), Outside) && t == s.(procs := s.procs[p := t.procs[p]])
  {
    actions := [Spawn(p), ReadF(p), ReadR(p), MintIn(p, x, kind)];
    var s1 := Step(h, ttl, s, actions[0]);
    var s2 := Step(h, ttl, s1, actions[1]);
    var s3 := Step(h, ttl, s2, actions[2]);
    var s4 := Step(h, ttl, s3, actions[3]);
    states := [s, s1, s2, s3, s4];
  }

  /** It reads the lock and finds it free. */
  lemma FindsFree(h: TextFn, dom: set<string>, ttl: real, s: State, p: nat, x: string, token: string)
      returns (states: seq<State>, actions: seq<Action>)
    requires HoldsOne(s, p, x, token, Outside) && IsFree(s.record, s.now, ttl)
    ensures Continues(h, dom, ttl, s, states, actions)
    ensures var t := states[|actions|];
      && HoldsOne(t, p, x, token, FoundFree(s.nextId, s.record.version))
      && t == s.(procs := s.procs[p := t.procs[p]], nextId := s.nextId + 1)
  {
    actions := [Begin(p), ReadLock(p), Decide(p)];
    var s1 := Step(h, ttl, s, actions[0]);
    var s2 := Step(h, ttl, s1, actions[1]);
    var s3 := Step(h, ttl, s2, actions[2]);
    states := [s, s1, s2, s3];
  }

  /** Nobody has written the lock since, so it is taken. */
  lemma TakesIt(h: TextFn, dom: set<string>, ttl: real, s: State, p: nat, x: string, token: string, id: nat)
      returns (states: seq<State>, actions: seq<Action>)
    requires HoldsOne(s, p, x, token, FoundFree(id, s.record.version))
    ensures Continues(h, dom, ttl, s, states, actions)
    ensures var t, v := states[|actions|], s.record.version + 1;
      && HoldsOne(t, p, x, token, Entered(Lease(id, s.now, v)))
      && t == s.(procs := s.procs[p := t.procs[p]], record := Record(v, Some(id), s.now))
  {
    actions := [Stamp(p), CasAcquire(p, Answered)];
    var s1 := Step(h, ttl, s, actions[0]);
    var s2 := Step(h, ttl, s1, actions[1]);
    states := [s, s1, s2];
  }

  /** It loads the empty vault and merges. */
  lemma LoadsNothing(h: TextFn, dom: set<string>, ttl: real, s: State, p: nat, x: string, token: string, lease: Lease)
      returns (states: seq<State>, actions: seq<Action>)
    requires HoldsOne(s, p, x, token, Entered(lease)) && s.vault == NOTHING
    ensures Continues(h, dom, ttl, s, states, actions)
    ensures var t := states[|actions|];
      && HoldsOne(t, p, x, token, VaultLease.Merged(lease, Only(x, token))) && t == s.(procs := s.procs[p := t.procs[p]])
  {
    actions := [LoadF(p), LoadR(p)];
    var s1 := Step(h, ttl, s, actions[0]);
    var s2 := Step(h, ttl, s1, actions[1]);
    assert map[] + map[x := token] == map[x := token] && map[] + map[token := x] == map[token := x];
    states := [s, s1, s2];
  }

  /** It writes both maps and reports success. */
  lemma StoresAndFinishes(h: TextFn, dom: set<string>, ttl: real, s: State, p: nat, x: string, token: string, lease: Lease)
      returns (states: seq<State>, actions: seq<Action>)
    requires HoldsOne(s, p, x, token, VaultLease.Merged(lease, Only(x, token)))
    ensures Continues(h, dom, ttl, s, states, actions)
    ensures var t := states[|actions|];
      && Live(t, p) && t.vault == Only(x, token) && t.procs == s.procs[p := t.procs[p]]
      && t.acked == s.acked + map[token := x]
  {
    actions := [StoreF(p), StoreR(p), Finish(p)];
    var s1 := Step(h, ttl, s, actions[0]);
    var s2 := Step(h, ttl, s1, actions[1]);
    var s3 := Step(h, ttl, s2, actions[2]);
    states := [s, s1, s2, s3];
  }

  lemma Waits(h: TextFn, dom: set<string>, ttl: real, s: State, dt: real) returns (states: seq<State>, actions: seq<Action>)
    requires dt >= 0.0
    ensures Continues(h, dom, ttl, s, states, actions) && states[|actions|] == s.(now := s.now + dt)
  {
    actions := [Tick(dt)];
    states := [s, Step(h, ttl, s, actions[0])];
  }

  /** A whole save by process p on an unused vault with a free lock, up to its merge. */
  lemma UpToMerge(h: TextFn, dom: set<string>, ttl: real, s: State, p: nat, x: string, kind: string)
      returns (states: seq<State>, actions: seq<Action>, lease: Lease)
    requires p !in s.procs && s.vault == NOTHING && x in dom && IsFree(s.record, s.now, ttl)
    ensures Continues(h, dom, ttl, s, states, actions)
    ensures var t := states[|actions|];
      && HoldsOne(t, p, x, Token(h, kind, x), VaultLease.Merged(lease, Only(x, Token(h, kind, x))))
      && t.procs == s.procs[p := t.procs[p]] && t.vault == NOTHING && t.acked == s.acked
      && lease.since == s.now == t.now && t.record.acquiredAt == s.now
  {
    var token := Token(h, kind, x);
    states, actions := StartsAndMints(h, dom, ttl, s, p, x, kind);
    var more, later := FindsFree(h, dom, ttl, states[|actions|], p, x, token);
    states, actions := ContinuesOn(h, dom, ttl, s, states, actions, more, later);
    more, later := TakesIt(h, dom, ttl, states[|actions|], p, x, token, s.nextId);
    lease := Lease(s.nextId, s.now, s.record.version + 1);
    states, actions := ContinuesOn(h, dom, ttl, s, states, actions, more, later);
    more, later := LoadsNothing(h, dom, ttl, states[|actions|], p, x, token, lease);
    states, actions := ContinuesOn(h, dom, ttl, s, states, actions, more, later);
  }

  /**
    * Staying within the lease is needed: for any two originals with different tokens there is a run in
    * which a holder paused beyond its ttl overwrites a reverse entry whose save() had returned True.
    */
  lemma LateHolderErases(h: TextFn, ttl: real, x: string, kx: string, y: string, ky: string)
      returns (states: seq<State>, actions: seq<Action>)
    requires ttl >= 0.0 && Token(h, kx, x) != Token(h, ky, y)
    ensures IsRun(h, {x, y}, ttl, states, actions)
    ensures var t, token := states[|actions|], Token(h, ky, y);
      && token in t.acked && t.acked[token] == y && token !in t.vault.r && (x != y ==> y !in t.vault.f)
  {
    var dom := {x, y};
    var token := Token(h, kx, x);
    var lease, lease1;
    states, actions, lease := UpToMerge(h, dom, ttl, START, 0, x, kx);
    var more, later := Waits(h, dom, ttl, states[|actions|], ttl + 1.0);
    states, actions := ContinuesOn(h, dom, ttl, START, states, actions, more, later);
    more, later, lease1 := UpToMerge(h, dom, ttl, states[|actions|], 1, y, ky);
    states, actions := ContinuesOn(h, dom, ttl, START, states, actions, more, later);
    more, later := StoresAndFinishes(h, dom, ttl, states[|actions|], 1, y, Token(h, ky, y), lease1);
    states, actions := ContinuesOn(h, dom, ttl, START, states, actions, more, later);
    more, later := StoresAndFinishes(h, dom, ttl, states[|actions|], 0, x, token, lease);
    states, actions := ContinuesOn(h, dom, ttl, START, states, actions, more, later);
  }
}
