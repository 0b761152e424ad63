/**
  * The Vault save-lock and the load-merge-save section it guards (src/anonymize.py): a lease kept as an
  * ordinary secret, taken and released by check-and-set, abandoned leases taken over after `ttl`.
  * Processes share one clock; a write may reach the server although its caller sees an error.
  */
module VaultLease {
  import opened Tokens
  import opened Wal
  import opened StoreState
  import opened Optional

  /** Version 0 stands for a secret that was never written. */
  datatype Record = Record(version: nat, owner: Option<nat>, acquiredAt: real)

  /** What a process inside the section remembers: its owner token, its time stamp, its secret version. */
  datatype Lease = Lease(id: nat, since: real, version: nat)

  datatype Phase =
    | Outside
    | Trying(id: nat)
    | HasRead(id: nat, seen: Record)
    | FoundFree(id: nat, version: nat)
    | Stamped(id: nat, version: nat, stamp: real)
    | Entered(lease: Lease)
    | GotForward(lease: Lease, forward: Pairs)
    | Merged(lease: Lease, full: Batch)
    | WroteForward(lease: Lease, full: Batch)
    | Stored(lease: Lease, full: Batch)
    | Leaving(id: nat)
    | Freeing(id: nat, version: nat)

  datatype Proc = Booting | BootForward(forward: Pairs) | Proc(store: Store, phase: Phase)

  /** `acked` is the union of the reverse maps that completed save() calls stored. */
  datatype State = State(now: real, record: Record, vault: Batch, procs: map<nat, Proc>, nextId: nat, acked: Pairs)

  datatype Action =
    | Tick(dt: real)
    | Spawn(p: nat)
    | ReadF(p: nat)
    | ReadR(p: nat)
    | MintIn(p: nat, original: string, kind: string)
    | Begin(p: nat)
    | ReadLock(p: nat)
    | Decide(p: nat)
    | Stamp(p: nat)
    | CasAcquire(p: nat, reply: Reply)
    | GiveUp(p: nat)
    | LoadF(p: nat)
    | LoadR(p: nat)
    | StoreF(p: nat)
    | StoreR(p: nat)
    | Finish(p: nat)
    | Abort(p: nat)
    | ReadForRelease(p: nat)
    | CasRelease(p: nat, reply: Reply)
    | Crash(p: nat)

  /** A request takes effect and is answered, takes effect but looks failed, or never takes effect. */
  datatype Reply = Answered | AnswerLost | NotSent

  const START: State := State(0.0, Record(0, None, 0.0), NOTHING, map[], 0, map[])

  predicate Live(s: State, p: nat) { p in s.procs && s.procs[p].Proc? }

  predicate InSection(phase: Phase)
  {
    phase.Entered? || phase.GotForward? || phase.Merged? || phase.WroteForward? || phase.Stored?
  }

  /** _VaultLockContext's is_free, evaluated at time `now`. */
  predicate IsFree(r: Record, now: real, ttl: real)
  {
    r.owner.None? || now - r.acquiredAt > ttl
  }

  predicate Enabled(s: State, a: Action)
  {
    match a
    case Tick(dt) => dt >= 0.0
    case Spawn(p) => p !in s.procs
    case ReadF(p) => p in s.procs && s.procs[p].Booting?
    case ReadR(p) => p in s.procs && s.procs[p].BootForward?
    case MintIn(p, _, _) => Live(s, p) && s.procs[p].phase.Outside?
    case Begin(p) => Live(s, p) && s.procs[p].phase.Outside?
    case ReadLock(p) => Live(s, p) && s.procs[p].phase.Trying?
    case Decide(p) => Live(s, p) && s.procs[p].phase.HasRead?
    case Stamp(p) => Live(s, p) && s.procs[p].phase.FoundFree?
    case CasAcquire(p, _) => Live(s, p) && s.procs[p].phase.Stamped?
    case GiveUp(p) => Live(s, p) && s.procs[p].phase.Trying?
    case LoadF(p) => Live(s, p) && s.procs[p].phase.Entered?
    case LoadR(p) => Live(s, p) && s.procs[p].phase.GotForward?
    case StoreF(p) => Live(s, p) && s.procs[p].phase.Merged?
    case StoreR(p) => Live(s, p) && s.procs[p].phase.WroteForward?
    case Finish(p) => Live(s, p) && s.procs[p].phase.Stored?
    case Abort(p) => Live(s, p) && InSection(s.procs[p].phase)
    case ReadForRelease(p) => Live(s, p) && s.procs[p].phase.Leaving?
    case CasRelease(p, _) => Live(s, p) && s.procs[p].phase.Freeing?
    case Crash(p) => p in s.procs
  }

  function In(s: State, p: nat, phase: Phase): State
    requires Live(s, p)
  {
    s.(procs := s.procs[p := s.procs[p].(phase := phase)])
  }

  function Step(h: TextFn, ttl: real, s: State, a: Action): State
    requires Enabled(s, a)
  {
    match a
    case Tick(dt) => s.(now := s.now + dt)
    case Spawn(p) => s.(procs := s.procs[p := Booting])
    case ReadF(p) => s.(procs := s.procs[p := BootForward(s.vault.f)])
    case ReadR(p) => s.(procs := s.procs[p := Proc(Fresh(Batch(s.procs[p].forward, s.vault.r)), Outside)])
    case MintIn(p, original, kind) =>
      s.(procs := s.procs[p := s.procs[p].(store := Mint(h, s.procs[p].store, original, kind))])
    case Begin(p) => In(s, p, Trying(s.nextId)).(nextId := s.nextId + 1)
    case ReadLock(p) => In(s, p, HasRead(s.procs[p].phase.id, s.record))
    case Decide(p) =>
      var (id, seen) := (s.procs[p].phase.id, s.procs[p].phase.seen);
      In(s, p, if IsFree(seen, s.now, ttl) then FoundFree(id, seen.version) else Trying(id))
    case Stamp(p) => In(s, p, Stamped(s.procs[p].phase.id, s.procs[p].phase.version, s.now))
    case CasAcquire(p, reply) =>
      var Stamped(id, v, stamp) := s.procs[p].phase;
      if s.record.version != v || reply.NotSent? then In(s, p, Trying(id))
      else In(s, p, if reply.AnswerLost? then Trying(id) else Entered(Lease(id, stamp, v + 1)))
             .(record := Record(v + 1, Some(id), stamp))
    case GiveUp(p) => In(s, p, Outside)
    case LoadF(p) => In(s, p, GotForward(s.procs[p].phase.lease, s.vault.f))
    case LoadR(p) =>
      var GotForward(lease, forward) := s.procs[p].phase;
      In(s, p, Merged(lease, Merge(Batch(forward, s.vault.r), Batch(s.procs[p].store.forward, s.procs[p].store.reverse))))
    case StoreF(p) =>
      var Merged(lease, full) := s.procs[p].phase;
      In(s, p, WroteForward(lease, full)).(vault := Batch(full.f, s.vault.r))
    case StoreR(p) =>
      var WroteForward(lease, full) := s.procs[p].phase;
      In(s, p, Stored(lease, full)).(vault := Batch(s.vault.f, full.r))
    case Finish(p) =>
      var Stored(lease, full) := s.procs[p].phase;
      s.(procs := s.procs[p := Proc(Fresh(full), Leaving(lease.id))], acked := s.acked + full.r)
    case Abort(p) => In(s, p, Leaving(s.procs[p].phase.lease.id))
    case ReadForRelease(p) =>
      var id := s.procs[p].phase.id;
      In(s, p, if s.record.owner == Some(id) then Freeing(id, s.record.version) else Outside)
    case CasRelease(p, reply) =>
      var Freeing(id, v) := s.procs[p].phase;
      if s.record.version != v || reply.NotSent? then In(s, p, Outside)
      else In(s, p, Outside).(record := Record(v + 1, None, 0.0))
    case Crash(p) => s.(procs := map q | q in s.procs && q != p :: s.procs[q])
  }

  /** The assumption on critical sections: each store access happens before the lease runs out. */
  predicate InTime(ttl: real, s: State, a: Action)
    requires Enabled(s, a)
  {
    a.LoadF? || a.LoadR? || a.StoreF? || a.StoreR? ==> s.now - s.procs[a.p].phase.lease.since <= ttl
  }

  // ------------------------------------------------------------------------ the lease

  function IdOf(phase: Phase): Option<nat>
  {
    match phase
    case Outside => None
    case Trying(id) => Some(id)
    case HasRead(id, _) => Some(id)
    case FoundFree(id, _) => Some(id)
    case Stamped(id, _, _) => Some(id)
    case Leaving(id) => Some(id)
    case Freeing(id, _) => Some(id)
    case _ => Some(phase.lease.id)
  }

  /** The lease is current when nobody has written the lock since; otherwise it had run out by then. */
  ghost predicate LeaseOk(ttl: real, now: real, r: Record, l: Lease)
  {
    && l.since <= now && l.version <= r.version
    && if l.version == r.version then r == Record(l.version, Some(l.id), l.since) else now - l.since > ttl
  }

  ghost predicate PhaseOk(ttl: real, now: real, r: Record, phase: Phase)
  {
    match phase
    case HasRead(_, seen) => seen.version <= r.version && (seen.version == r.version ==> seen == r)
    case FoundFree(_, v) => v <= r.version && (v == r.version ==> IsFree(r, now, ttl))
    case Stamped(_, v, stamp) => stamp <= now && v <= r.version && (v == r.version ==> IsFree(r, now, ttl))
    case Freeing(id, v) => v <= r.version && (v == r.version ==> r.owner == Some(id))
    case _ => InSection(phase) ==> LeaseOk(ttl, now, r, phase.lease)
  }

  ghost predicate ProcLeaseOk(ttl: real, s: State, proc: Proc)
  {
    proc.Proc? ==>
      && PhaseOk(ttl, s.now, s.record, proc.phase)
      && (IdOf(proc.phase).Some? ==> IdOf(proc.phase).value < s.nextId)
  }

  ghost predicate SameAttempt(a: Proc, b: Proc)
  {
    a.Proc? && b.Proc? && IdOf(a.phase).Some? && IdOf(a.phase) == IdOf(b.phase)
  }

  ghost predicate LeaseInv(ttl: real, s: State)
  {
    && (s.record.owner.Some? ==> s.record.owner.value < s.nextId)
    && (forall p :: p in s.procs ==> ProcLeaseOk(ttl, s, s.procs[p]))
    && (forall p, q :: p in s.procs && q in s.procs && p != q ==> !SameAttempt(s.procs[p], s.procs[q]))
  }

  /** The lock record is only ever overwritten when it is free, or by the attempt that owns it. */
  ghost predicate RecordMoves(ttl: real, s: State, s': State, writer: Option<nat>)
  {
    || s'.record == s.record
    || (s'.record.version == s.record.version + 1
        && (IsFree(s.record, s'.now, ttl) || (writer.Some? && s.record.owner == writer)))
  }

  lemma OthersKeepLease(ttl: real, s: State, s': State, writer: Option<nat>, proc: Proc)
    requires s.now <= s'.now && s.nextId <= s'.nextId && RecordMoves(ttl, s, s', writer)
    requires ProcLeaseOk(ttl, s, proc)
    requires proc.Proc? && writer.Some? ==> IdOf(proc.phase) != writer
    ensures ProcLeaseOk(ttl, s', proc)
  {
  }

  lemma LeaseFrame(ttl: real, s: State, s': State, p: nat, writer: Option<nat>)
    requires LeaseInv(ttl, s)
    requires s.now <= s'.now && s.nextId <= s'.nextId && RecordMoves(ttl, s, s', writer)
    requires s'.record.owner.Some? ==> s'.record.owner.value < s'.nextId
    requires forall q :: q in s'.procs && q != p ==> q in s.procs && s'.procs[q] == s.procs[q]
    requires writer.Some? ==> p in s.procs && s.procs[p].Proc? && IdOf(s.procs[p].phase) == writer
    requires p in s'.procs ==> ProcLeaseOk(ttl, s', s'.procs[p])
    requires p in s'.procs && s'.procs[p].Proc? && IdOf(s'.procs[p].phase).Some? ==>
               || IdOf(s'.procs[p].phase).value >= s.nextId
               || (p in s.procs && s.procs[p].Proc? && IdOf(s'.procs[p].phase) == IdOf(s.procs[p].phase))
    ensures LeaseInv(ttl, s')
  {
    forall q | q in s'.procs ensures ProcLeaseOk(ttl, s', s'.procs[q]) {
      if q != p {
        assert writer.Some? ==> !SameAttempt(s.procs[p], s.procs[q]);
        OthersKeepLease(ttl, s, s', writer, s.procs[q]);
      }
    }
    forall q, r | q in s'.procs && r in s'.procs && q != r ensures !SameAttempt(s'.procs[q], s'.procs[r]) {
      if p in s.procs {
        assert q != p ==> !SameAttempt(s.procs[q], s.procs[p]) && !SameAttempt(s.procs[p], s.procs[q]);
        assert r != p ==> !SameAttempt(s.procs[r], s.procs[p]) && !SameAttempt(s.procs[p], s.procs[r]);
      }
      if q != p && r != p {
        assert !SameAttempt(s.procs[q], s.procs[r]);
      }
      assert q != p ==> ProcLeaseOk(ttl, s, s.procs[q]);
      assert r != p ==> ProcLeaseOk(ttl, s, s.procs[r]);
    }
  }

  lemma AcquireSteps(h: TextFn, ttl: real, s: State, a: Action)
    requires LeaseInv(ttl, s) && Enabled(s, a)
    requires a.Begin? || a.ReadLock? || a.Decide? || a.Stamp? || a.CasAcquire? || a.GiveUp?
    ensures LeaseInv(ttl, Step(h, ttl, s, a))
  {
    var s' := Step(h, ttl, s, a);
    assert ProcLeaseOk(ttl, s, s.procs[a.p]);
    assert ProcLeaseOk(ttl, s', s'.procs[a.p]);
    LeaseFrame(ttl, s, s', a.p, None);
  }

  lemma SectionSteps(h: TextFn, ttl: real, s: State, a: Action)
    requires LeaseInv(ttl, s) && Enabled(s, a)
    requires a.LoadF? || a.LoadR? || a.StoreF? || a.StoreR? || a.Finish? || a.Abort?
    ensures LeaseInv(ttl, Step(h, ttl, s, a))
  {
    var s' := Step(h, ttl, s, a);
    assert ProcLeaseOk(ttl, s, s.procs[a.p]);
    assert ProcLeaseOk(ttl, s', s'.procs[a.p]);
    LeaseFrame(ttl, s, s', a.p, None);
  }

  lemma ReleaseSteps(h: TextFn, ttl: real, s: State, a: Action)
    requires LeaseInv(ttl, s) && Enabled(s, a) && (a.ReadForRelease? || a.CasRelease?)
    ensures LeaseInv(ttl, Step(h, ttl, s, a))
  {
    var s' := Step(h, ttl, s, a);
    assert ProcLeaseOk(ttl, s, s.procs[a.p]);
    assert ProcLeaseOk(ttl, s', s'.procs[a.p]);
    LeaseFrame(ttl, s, s', a.p, IdOf(s.procs[a.p].phase));
  }

  lemma OutsideSteps(h: TextFn, ttl: real, s: State, a: Action)
    requires LeaseInv(ttl, s) && Enabled(s, a)
    requires a.Spawn? || a.ReadF? || a.ReadR? || a.MintIn? || a.Crash?
    ensures LeaseInv(ttl, Step(h, ttl, s, a))
  {
    var s' := Step(h, ttl, s, a);
    assert a.p in s'.procs ==> ProcLeaseOk(ttl, s', s'.procs[a.p]);
    LeaseFrame(ttl, s, s', a.p, None);
  }

  lemma TickStep(h: TextFn, ttl: real, s: State, a: Action)
    requires LeaseInv(ttl, s) && Enabled(s, a) && a.Tick?
    ensures LeaseInv(ttl, Step(h, ttl, s, a))
  {
    var s' := Step(h, ttl, s, a);
    forall q | q in s'.procs ensures ProcLeaseOk(ttl, s', s'.procs[q]) {
      OthersKeepLease(ttl, s, s', None, s.procs[q]);
    }
  }

  /** Writing the lock never disturbs a lease that is still running. */
  lemma LeaseStep(h: TextFn, ttl: real, s: State, a: Action)
    requires LeaseInv(ttl, s) && Enabled(s, a)
    ensures LeaseInv(ttl, Step(h, ttl, s, a))
  {
    if a.Tick? {
      TickStep(h, ttl, s, a);
    } else if a.ReadForRelease? || a.CasRelease? {
      ReleaseSteps(h, ttl, s, a);
    } else if a.LoadF? || a.LoadR? || a.StoreF? || a.StoreR? || a.Finish? || a.Abort? {
      SectionSteps(h, ttl, s, a);
    } else if a.Spawn? || a.ReadF? || a.ReadR? || a.MintIn? || a.Crash? {
      OutsideSteps(h, ttl, s, a);
    } else {
      AcquireSteps(h, ttl, s, a);
    }
  }

  ghost predicate Unexpired(ttl: real, s: State, p: nat)
  {
    Live(s, p) && InSection(s.procs[p].phase) && s.now - s.procs[p].phase.lease.since <= ttl
  }

  /** Mutual exclusion: two processes are never inside the section with leases that are still running. */
  lemma OneUnexpiredHolder(ttl: real, s: State, p: nat, q: nat)
    requires LeaseInv(ttl, s) && Unexpired(ttl, s, p) && Unexpired(ttl, s, q)
    ensures p == q
    ensures s.record == Record(s.procs[p].phase.lease.version, Some(s.procs[p].phase.lease.id), s.procs[p].phase.lease.since)
  {
    assert ProcLeaseOk(ttl, s, s.procs[p]) && ProcLeaseOk(ttl, s, s.procs[q]);
    assert p != q ==> !SameAttempt(s.procs[p], s.procs[q]);
  }

  /** A release frees the lock only if the record is the releaser's own; anyone else's lease is untouched. */
  lemma ReleaseNeverClearsAnother(h: TextFn, ttl: real, s: State, a: Action)
    requires LeaseInv(ttl, s) && a.CasRelease? && Enabled(s, a)
    ensures Step(h, ttl, s, a).record != s.record ==> s.record.owner == Some(s.procs[a.p].phase.id)
    ensures forall q :: q != a.p && Unexpired(ttl, s, q) ==> Step(h, ttl, s, a).record == s.record
  {
    assert ProcLeaseOk(ttl, s, s.procs[a.p]);
    forall q | q != a.p && Unexpired(ttl, s, q) ensures Step(h, ttl, s, a).record == s.record {
      OneUnexpiredHolder(ttl, s, q, q);
    }
  }

  // ---------------------------------------------------------------------- the secrets

  ghost predicate Agrees(owner: Owner, r: Pairs)
  {
    forall t :: t in r ==> owner(t) == Some(r[t])
  }

  ghost predicate SectionOk(owner: Owner, s: State, proc: Proc)
  {
    proc.Proc? ==>
      && Agrees(owner, proc.store.reverse)
      && (proc.phase.Merged? || proc.phase.WroteForward? ==>
            && Agrees(owner, proc.phase.full.r)
            && (proc.phase.lease.version == s.record.version ==> s.vault.r.Keys <= proc.phase.full.r.Keys))
      && (proc.phase.Stored? ==> Agrees(owner, proc.phase.full.r) && proc.phase.full.r.Keys <= s.vault.r.Keys)
  }

  ghost predicate StoreInv(owner: Owner, s: State)
  {
    && Agrees(owner, s.vault.r) && Agrees(owner, s.acked)
    && s.acked.Keys <= s.vault.r.Keys
    && forall p :: p in s.procs ==> SectionOk(owner, s, s.procs[p])
  }

  lemma MintAgrees(h: TextFn, dom: set<string>, owner: Owner, store: Store, original: string, kind: string)
    requires OwnerOf(h, dom, owner) && original in dom && Agrees(owner, store.reverse)
    ensures Agrees(owner, Mint(h, store, original, kind).reverse)
  {
    assert owner(Token(h, kind, original)) == Some(original);
  }

  lemma SectionFrame(owner: Owner, ttl: real, s: State, s': State, proc: Proc)
    requires SectionOk(owner, s, proc) && ProcLeaseOk(ttl, s, proc)
    requires s'.vault.r == s.vault.r && (s'.record == s.record || s'.record.version > s.record.version)
    ensures SectionOk(owner, s', proc)
  {
  }

  lemma OneSecretStep(h: TextFn, dom: set<string>, owner: Owner, ttl: real, s: State, a: Action, q: nat)
    requires OwnerOf(h, dom, owner) && LeaseInv(ttl, s) && StoreInv(owner, s) && Enabled(s, a)
    requires a.MintIn? ==> a.original in dom
    requires !a.StoreR? && !a.Finish? && q in Step(h, ttl, s, a).procs
    ensures SectionOk(owner, Step(h, ttl, s, a), Step(h, ttl, s, a).procs[q])
  {
    if a.MintIn? && a.p == q {
      assert SectionOk(owner, s, s.procs[q]);
      MintAgrees(h, dom, owner, s.procs[q].store, a.original, a.kind);
    } else if q in s.procs {
      assert SectionOk(owner, s, s.procs[q]) && ProcLeaseOk(ttl, s, s.procs[q]);
      if a.LoadR? && a.p == q {
        MergedSecret(h, owner, ttl, s, a);
      } else {
        SectionFrame(owner, ttl, s, Step(h, ttl, s, a), s.procs[q]);
      }
    }
  }

  lemma MergedSecret(h: TextFn, owner: Owner, ttl: real, s: State, a: Action)
    requires LeaseInv(ttl, s) && StoreInv(owner, s) && Enabled(s, a) && a.LoadR?
    ensures SectionOk(owner, Step(h, ttl, s, a), Step(h, ttl, s, a).procs[a.p])
  {
    assert SectionOk(owner, s, s.procs[a.p]) && ProcLeaseOk(ttl, s, s.procs[a.p]);
  }

  /** Any step but the reverse write: only the stepping process needs a look. */
  lemma OtherSecretSteps(h: TextFn, dom: set<string>, owner: Owner, ttl: real, s: State, a: Action)
    requires OwnerOf(h, dom, owner) && LeaseInv(ttl, s) && StoreInv(owner, s) && Enabled(s, a)
    requires a.MintIn? ==> a.original in dom
    requires !a.StoreR? && !a.Finish?
    ensures StoreInv(owner, Step(h, ttl, s, a)) && Step(h, ttl, s, a).vault.r == s.vault.r
    ensures Step(h, ttl, s, a).acked == s.acked
  {
    var s' := Step(h, ttl, s, a);
    forall q | q in s'.procs ensures SectionOk(owner, s', s'.procs[q]) {
      OneSecretStep(h, dom, owner, ttl, s, a, q);
    }
  }

  lemma FinishStep(h: TextFn, owner: Owner, ttl: real, s: State, a: Action)
    requires LeaseInv(ttl, s) && StoreInv(owner, s) && Enabled(s, a) && a.Finish?
    ensures StoreInv(owner, Step(h, ttl, s, a)) && Step(h, ttl, s, a).vault == s.vault
    ensures s.acked.Keys <= Step(h, ttl, s, a).acked.Keys
  {
    var s' := Step(h, ttl, s, a);
    assert SectionOk(owner, s, s.procs[a.p]);
    forall q | q in s'.procs ensures SectionOk(owner, s', s'.procs[q]) {
      assert SectionOk(owner, s, s.procs[q]);
    }
  }

  /**
    * The reverse write inside a running lease: whatever was stored since the load would need a second
    * running lease, so nothing is overwritten and nobody else's merge becomes stale while current.
    */
  lemma StoreReverseStep(h: TextFn, owner: Owner, ttl: real, s: State, a: Action)
    requires LeaseInv(ttl, s) && StoreInv(owner, s) && Enabled(s, a) && a.StoreR? && InTime(ttl, s, a)
    ensures StoreInv(owner, Step(h, ttl, s, a))
    ensures s.vault.r.Keys <= Step(h, ttl, s, a).vault.r.Keys
  {
    var s' := Step(h, ttl, s, a);
    OneUnexpiredHolder(ttl, s, a.p, a.p);
    assert SectionOk(owner, s, s.procs[a.p]);
    forall q | q in s'.procs ensures SectionOk(owner, s', s'.procs[q]) {
      assert SectionOk(owner, s, s.procs[q]) && ProcLeaseOk(ttl, s, s.procs[q]);
      assert q != a.p ==> !SameAttempt(s.procs[a.p], s.procs[q]);
    }
  }

  lemma SecretStep(h: TextFn, dom: set<string>, owner: Owner, ttl: real, s: State, a: Action)
    requires OwnerOf(h, dom, owner) && LeaseInv(ttl, s) && StoreInv(owner, s) && Enabled(s, a)
    requires a.MintIn? ==> a.original in dom
    requires InTime(ttl, s, a)
    ensures StoreInv(owner, Step(h, ttl, s, a))
    ensures s.vault.r.Keys <= Step(h, ttl, s, a).vault.r.Keys
    ensures s.acked.Keys <= Step(h, ttl, s, a).acked.Keys
  {
    if a.StoreR? {
      StoreReverseStep(h, owner, ttl, s, a);
    } else if a.Finish? {
      FinishStep(h, owner, ttl, s, a);
    } else {
      OtherSecretSteps(h, dom, owner, ttl, s, a);
    }
  }

  // ---------------------------------------------------------------------- whole runs

  ghost predicate IsRun(h: TextFn, dom: set<string>, ttl: real, states: seq<State>, actions: seq<Action>)
  {
    && |states| == |actions| + 1 && states[0] == START
    && forall i :: 0 <= i < |actions| ==>
         && Enabled(states[i], actions[i])
         && states[i + 1] == Step(h, ttl, states[i], actions[i])
         && (actions[i].MintIn? ==> actions[i].original in dom)
  }

  ghost predicate AllInTime(ttl: real, states: seq<State>, actions: seq<Action>)
    requires |states| == |actions| + 1
    requires forall i :: 0 <= i < |actions| ==> Enabled(states[i], actions[i])
  {
    forall i :: 0 <= i < |actions| ==> InTime(ttl, states[i], actions[i])
  }

  lemma {:induction false} RunLease(h: TextFn, dom: set<string>, ttl: real, states: seq<State>, actions: seq<Action>, n: nat)
    requires IsRun(h, dom, ttl, states, actions) && n < |states|
    ensures LeaseInv(ttl, states[n])
  {
    if n > 0 {
      RunLease(h, dom, ttl, states, actions, n - 1);
      LeaseStep(h, ttl, states[n - 1], actions[n - 1]);
    }
  }

  lemma {:induction false} RunStore(h: TextFn, dom: set<string>, owner: Owner, ttl: real, states: seq<State>, actions: seq<Action>, m: nat, n: nat)
    requires OwnerOf(h, dom, owner) && IsRun(h, dom, ttl, states, actions) && AllInTime(ttl, states, actions)
    requires m <= n < |states|
    ensures StoreInv(owner, states[n])
    ensures states[m].vault.r.Keys <= states[n].vault.r.Keys
    decreases n
  {
    if n > 0 {
      RunStore(h, dom, owner, ttl, states, actions, if m < n then m else n - 1, n - 1);
      RunLease(h, dom, ttl, states, actions, n - 1);
      SecretStep(h, dom, owner, ttl, states[n - 1], actions[n - 1]);
    }
  }

  /** In every run, however long sections take, at most one process holds a lease that is still running. */
  lemma AtMostOneRunningLease(h: TextFn, dom: set<string>, ttl: real, states: seq<State>, actions: seq<Action>, n: nat, p: nat, q: nat)
    requires IsRun(h, dom, ttl, states, actions) && n < |states|
    requires Unexpired(ttl, states[n], p) && Unexpired(ttl, states[n], q)
    ensures p == q
  {
    RunLease(h, dom, ttl, states, actions, n);
    OneUnexpiredHolder(ttl, states[n], p, q);
  }

  /**
    * If every store access happens within its lease, a reverse entry once stored, and in particular one
    * whose save() returned True, is stored with the same original ever after, whatever crashes.
    */
  lemma StoredReverseEntriesStay(h: TextFn, dom: set<string>, ttl: real, states: seq<State>, actions: seq<Action>, m: nat, n: nat)
    requires DigestShape(h) && NoCollision(h, dom)
    requires IsRun(h, dom, ttl, states, actions) && AllInTime(ttl, states, actions) && m <= n < |states|
    ensures forall t :: t in states[m].vault.r ==>
              t in states[n].vault.r && states[n].vault.r[t] == states[m].vault.r[t]
    ensures forall t :: t in states[m].acked ==>
              t in states[n].vault.r && states[n].vault.r[t] == states[m].acked[t]
  {
    var owner := OwnerExists(h, dom);
    RunStore(h, dom, owner, ttl, states, actions, m, m);
    RunStore(h, dom, owner, ttl, states, actions, m, n);
  }
}
