/**
  * Any number of processes and threads sharing one file-backed token store: unlocked start-up loads,
  * minting, incremental saves under the file lock, compaction, exceptions, crashes and torn appends.
  * Every action is one primitive step of src/anonymize.py.
  */
module FileBackend {
  import opened Tokens
  import opened Wal
  import opened StoreState
  import opened Optional

  /** Where one thread is inside save(); `b` is the copy of the pending maps it took. */
  datatype Phase =
    | Idle
    | Taken(b: Batch)
    | Locked(b: Batch)
    | Appended(b: Batch)
    | Folding(b: Batch, full: Batch)
    | Renamed(b: Batch)
    | Unlocking(b: Batch)
    | Written(b: Batch)

  datatype Proc =
    | Starting
    | SnapshotRead(snapshot: Batch)
    | Running(store: Store, threads: map<nat, Phase>)

  /**
    * `acked` collects what save() calls that returned True were sent. `lost` collects entries that torn
    * appends made unreadable, `tears` counts torn appends and `wasted` complete appends made unreadable.
    */
  datatype State = State(
    disk: Disk, holder: Option<(nat, nat)>, procs: map<nat, Proc>,
    acked: Batch, lost: Batch, tears: nat, wasted: nat)

  datatype Action =
    | Spawn(p: nat)
    | ReadSnapshot(p: nat)
    | ReadWal(p: nat)
    | MintIn(p: nat, original: string, kind: string)
    | Take(p: nat, t: nat)
    | SkipEmpty(p: nat, t: nat)
    | Acquire(p: nat, t: nat)
    | Write(p: nat, t: nat)
    | Tear(p: nat, t: nat, whole: bool)
    | LoadForFold(p: nat, t: nat)
    | Rename(p: nat, t: nat)
    | Remove(p: nat, t: nat)
    | NoFold(p: nat, t: nat)
    | Release(p: nat, t: nat)
    | Acknowledge(p: nat, t: nat)
    | Fail(p: nat, t: nat)
    | Crash(p: nat)

  const START: State := State(EMPTY_DISK, None, map[], NOTHING, NOTHING, 0, 0)

  predicate IsRunning(s: State, p: nat)
  {
    p in s.procs && s.procs[p].Running?
  }

  function PhaseOf(s: State, p: nat, t: nat): Phase
    requires IsRunning(s, p)
  {
    if t in s.procs[p].threads then s.procs[p].threads[t] else Idle
  }

  function WithPhase(s: State, p: nat, t: nat, phase: Phase): State
    requires IsRunning(s, p)
  {
    s.(procs := s.procs[p := s.procs[p].(threads := s.procs[p].threads[t := phase])])
  }

  function WithStore(s: State, p: nat, store: Store): State
    requires IsRunning(s, p)
  {
    s.(procs := s.procs[p := s.procs[p].(store := store)])
  }

  predicate HoldsLock(phase: Phase)
  {
    phase.Locked? || phase.Appended? || phase.Folding? || phase.Renamed? || phase.Unlocking?
  }

  /** The half-written batch a further write makes unreadable. */
  function Endangered(disk: Disk): Batch
  {
    if disk.tail.Unterminated? then disk.tail.batch else NOTHING
  }

  predicate Enabled(s: State, a: Action)
  {
    match a
    case Spawn(p) => p !in s.procs
    case ReadSnapshot(p) => p in s.procs && s.procs[p].Starting?
    case ReadWal(p) => p in s.procs && s.procs[p].SnapshotRead?
    case MintIn(p, _, _) => IsRunning(s, p)
    case Take(p, t) => IsRunning(s, p) && PhaseOf(s, p, t).Idle?
    case SkipEmpty(p, t) => IsRunning(s, p) && PhaseOf(s, p, t) == Taken(NOTHING)
    case Acquire(p, t) => IsRunning(s, p) && PhaseOf(s, p, t).Taken? && PhaseOf(s, p, t).b != NOTHING && s.holder.None?
    case Write(p, t) => IsRunning(s, p) && PhaseOf(s, p, t).Locked?
    case Tear(p, t, _) => IsRunning(s, p) && PhaseOf(s, p, t).Locked?
    case LoadForFold(p, t) => IsRunning(s, p) && PhaseOf(s, p, t).Appended?
    case Rename(p, t) => IsRunning(s, p) && PhaseOf(s, p, t).Folding?
    case Remove(p, t) => IsRunning(s, p) && PhaseOf(s, p, t).Renamed?
    case NoFold(p, t) => IsRunning(s, p) && PhaseOf(s, p, t).Appended?
    case Release(p, t) => IsRunning(s, p) && PhaseOf(s, p, t).Unlocking?
    case Acknowledge(p, t) => IsRunning(s, p) && PhaseOf(s, p, t).Written?
    case Fail(p, t) => IsRunning(s, p) && !PhaseOf(s, p, t).Idle?
    case Crash(p) => p in s.procs
  }

  function Step(h: TextFn, s: State, a: Action): State
    requires Enabled(s, a)
  {
    match a
    case Spawn(p) => s.(procs := s.procs[p := Starting])
    case ReadSnapshot(p) => s.(procs := s.procs[p := SnapshotRead(s.disk.snapshot)])
    case ReadWal(p) =>
      s.(procs := s.procs[p := Running(Fresh(ReplayFile(s.procs[p].snapshot, s.disk)), map[])])
    case MintIn(p, original, kind) => WithStore(s, p, Mint(h, s.procs[p].store, original, kind))
    case Take(p, t) => WithPhase(s, p, t, Taken(Pending(s.procs[p].store)))
    case SkipEmpty(p, t) => WithPhase(s, p, t, Written(NOTHING))
    case Acquire(p, t) => WithPhase(s, p, t, Locked(PhaseOf(s, p, t).b)).(holder := Some((p, t)))
    case Write(p, t) =>
      var b := PhaseOf(s, p, t).b;
      WithPhase(s, p, t, Appended(b)).(
        disk := Append(s.disk, b),
        lost := if s.disk.tail.Clean? then s.lost else Merge(Merge(s.lost, Endangered(s.disk)), b),
        wasted := if s.disk.tail.Clean? then s.wasted else s.wasted + 1)
    case Tear(p, t, whole) =>
      WithPhase(s, p, t, Idle).(
        holder := None,
        disk := TornAppend(s.disk, PhaseOf(s, p, t).b, whole),
        lost := Merge(s.lost, Endangered(s.disk)),
        tears := s.tears + 1)
    case LoadForFold(p, t) => WithPhase(s, p, t, Folding(PhaseOf(s, p, t).b, Load(s.disk)))
    case Rename(p, t) =>
      WithPhase(s, p, t, Renamed(PhaseOf(s, p, t).b)).(disk := WithSnapshot(s.disk, PhaseOf(s, p, t).full))
    case Remove(p, t) => WithPhase(s, p, t, Unlocking(PhaseOf(s, p, t).b)).(disk := WithoutWal(s.disk))
    case NoFold(p, t) => WithPhase(s, p, t, Unlocking(PhaseOf(s, p, t).b))
    case Release(p, t) => WithPhase(s, p, t, Written(PhaseOf(s, p, t).b)).(holder := None)
    case Acknowledge(p, t) =>
      var b := PhaseOf(s, p, t).b;
      WithStore(WithPhase(s, p, t, Idle), p, Persisted(s.procs[p].store, b)).(acked := Merge(s.acked, b))
    case Fail(p, t) =>
      WithPhase(s, p, t, Idle).(holder := if HoldsLock(PhaseOf(s, p, t)) then None else s.holder)
    case Crash(p) =>
      s.(procs := map q | q in s.procs && q != p :: s.procs[q],
         holder := if s.holder.Some? && s.holder.value.0 == p then None else s.holder)
  }

  // ----------------------------------------------------------------------- invariant

  ghost predicate Honest(owner: Owner, b: Batch)
  {
    Linked(b) && forall t :: t in b.r ==> owner(t) == Some(b.r[t])
  }

  ghost predicate LinesHonest(owner: Owner, lines: seq<Line>)
  {
    forall i :: 0 <= i < |lines| && lines[i].Good? ==> Honest(owner, lines[i].batch)
  }

  ghost predicate DiskHonest(owner: Owner, disk: Disk)
  {
    && Honest(owner, disk.snapshot)
    && LinesHonest(owner, disk.lines)
    && (disk.tail.Unterminated? ==> Honest(owner, disk.tail.batch))
  }

  /** Keys readable from the files, or accounted for as lost to a torn append. */
  datatype Keys = Keys(f: set<string>, r: set<string>)

  ghost function Known(s: State): Keys
  {
    Keys(Load(s.disk).f.Keys + s.lost.f.Keys, Load(s.disk).r.Keys + s.lost.r.Keys)
  }

  ghost predicate Within(b: Batch, known: Keys)
  {
    b.f.Keys <= known.f && b.r.Keys <= known.r
  }

  /** Each in-memory entry is still pending or already known on disk. */
  ghost predicate Held(store: Store, known: Keys)
  {
    && store.forward.Keys <= store.pendingForward.Keys + known.f
    && store.reverse.Keys <= store.pendingReverse.Keys + known.r
  }

  ghost predicate StoreHonest(owner: Owner, store: Store)
  {
    && Honest(owner, Batch(store.forward, store.reverse))
    && SubMap(store.pendingForward, store.forward) && SubMap(store.pendingReverse, store.reverse)
    && PairedUp(Pending(store))
  }

  ghost predicate Sent(b: Batch, store: Store)
  {
    PairedUp(b) && SubMap(b.f, store.forward) && SubMap(b.r, store.reverse)
  }

  ghost predicate ThreadOk(known: Keys, disk: Disk, holder: Option<(nat, nat)>, store: Store, p: nat, t: nat, phase: Phase)
  {
    && (HoldsLock(phase) ==> holder == Some((p, t)))
    && (!phase.Idle? ==> Sent(phase.b, store))
    && (phase.Appended? || phase.Folding? || phase.Renamed? || phase.Unlocking? || phase.Written? ==>
          Within(phase.b, known))
    && (phase.Appended? || phase.Folding? || phase.Renamed? ==> disk.tail == Clean)
    && (phase.Folding? ==> phase.full == Load(disk))
    && (phase.Renamed? ==> disk.snapshot == Load(disk))
  }

  ghost predicate ProcOk(owner: Owner, known: Keys, disk: Disk, holder: Option<(nat, nat)>, p: nat, proc: Proc)
  {
    match proc
    case Starting => true
    case SnapshotRead(b) => Honest(owner, b) && Within(b, known)
    case Running(store, threads) =>
      && StoreHonest(owner, store) && Held(store, known)
      && forall t :: t in threads ==> ThreadOk(known, disk, holder, store, p, t, threads[t])
  }

  ghost predicate Inv(owner: Owner, s: State)
  {
    && DiskHonest(owner, s.disk)
    && Honest(owner, s.acked) && Within(s.acked, Known(s))
    && (s.tears == 0 ==> s.lost == NOTHING)
    && s.wasted + (if s.disk.tail.Clean? then 0 else 1) <= s.tears
    && forall p :: p in s.procs ==> ProcOk(owner, Known(s), s.disk, s.holder, p, s.procs[p])
  }

  // --------------------------------------------------------------- honest disk reads

  lemma MergeHonest(owner: Owner, a: Batch, b: Batch)
    requires Honest(owner, a) && Honest(owner, b)
    ensures Honest(owner, Merge(a, b))
  {
  }

  lemma {:induction false} ReplayHonest(owner: Owner, base: Batch, lines: seq<Line>)
    requires Honest(owner, base) && LinesHonest(owner, lines)
    ensures Honest(owner, Replay(base, lines))
    decreases |lines|
  {
    if lines != [] {
      if lines[0].Good? {
        MergeHonest(owner, base, lines[0].batch);
      }
      ReplayHonest(owner, ApplyLine(base, lines[0]), lines[1..]);
    }
  }

  lemma FileHonest(owner: Owner, base: Batch, disk: Disk)
    requires Honest(owner, base) && DiskHonest(owner, disk)
    ensures Honest(owner, ReplayFile(base, disk))
  {
    ReplayHonest(owner, base, disk.lines);
    if disk.tail.Unterminated? {
      MergeHonest(owner, Replay(base, disk.lines), disk.tail.batch);
    }
  }

  /** Replaying today's log onto an older snapshot reads nothing that is not known today. */
  lemma StaleLoadIsKnown(snapshot: Batch, s: State)
    requires Within(snapshot, Known(s))
    ensures Within(ReplayFile(snapshot, s.disk), Known(s))
    ensures Within(s.disk.snapshot, Known(s))
  {
    FileOverlays(snapshot, s.disk);
    FileOverlays(s.disk.snapshot, s.disk);
  }

  // ------------------------------------------------------------- frames and monotony

  ghost predicate Grows(a: Keys, b: Keys)
  {
    a.f <= b.f && a.r <= b.r
  }

  ghost predicate NoLockIn(proc: Proc)
  {
    proc.Running? ==> forall t :: t in proc.threads ==> !HoldsLock(proc.threads[t])
  }

  /** A process that holds no lock does not care which file operations the others perform. */
  lemma OthersUnaffected(owner: Owner, s: State, s': State, p: nat)
    requires Inv(owner, s) && Grows(Known(s), Known(s'))
    requires p in s.procs && p in s'.procs && s'.procs[p] == s.procs[p]
    requires NoLockIn(s.procs[p]) || (s.disk == s'.disk && s.holder == s'.holder)
    ensures ProcOk(owner, Known(s'), s'.disk, s'.holder, p, s'.procs[p])
  {
    assert ProcOk(owner, Known(s), s.disk, s.holder, p, s.procs[p]);
  }

  lemma OnlyHolderLocks(owner: Owner, s: State, p: nat, t: nat)
    requires Inv(owner, s)
    ensures s.holder.None? ==> forall q :: q in s.procs ==> NoLockIn(s.procs[q])
    ensures s.holder == Some((p, t)) ==> forall q :: q in s.procs && q != p ==> NoLockIn(s.procs[q])
  {
    forall q | q in s.procs && (s.holder.None? || (s.holder == Some((p, t)) && q != p)) ensures NoLockIn(s.procs[q]) {
      assert ProcOk(owner, Known(s), s.disk, s.holder, q, s.procs[q]);
    }
  }

  /** Reassembles the invariant after a step that touched only process `p`. */
  lemma OneProcStep(owner: Owner, s: State, s': State, p: nat)
    requires Inv(owner, s) && Grows(Known(s), Known(s'))
    requires forall q :: q in s'.procs && q != p ==> q in s.procs && s'.procs[q] == s.procs[q]
    requires forall q :: q in s'.procs && q != p ==> NoLockIn(s.procs[q]) || (s.disk == s'.disk && s.holder == s'.holder)
    requires p in s'.procs ==> ProcOk(owner, Known(s'), s'.disk, s'.holder, p, s'.procs[p])
    requires DiskHonest(owner, s'.disk) && Honest(owner, s'.acked) && Within(s'.acked, Known(s'))
    requires s'.tears == 0 ==> s'.lost == NOTHING
    requires s'.wasted + (if s'.disk.tail.Clean? then 0 else 1) <= s'.tears
    ensures Inv(owner, s')
  {
    forall q | q in s'.procs ensures ProcOk(owner, Known(s'), s'.disk, s'.holder, q, s'.procs[q]) {
      if q != p {
        OthersUnaffected(owner, s, s', q);
      }
    }
  }

  lemma BootSteps(h: TextFn, owner: Owner, s: State, a: Action)
    requires Inv(owner, s) && Enabled(s, a)
    requires a.Spawn? || a.ReadSnapshot? || a.ReadWal?
    ensures Inv(owner, Step(h, s, a)) && Load(Step(h, s, a).disk) == Load(s.disk)
  {
    var p, s' := a.p, Step(h, s, a);
    if !a.Spawn? {
      assert ProcOk(owner, Known(s), s.disk, s.holder, p, s.procs[p]);
    }
    if a.ReadSnapshot? {
      StaleLoadIsKnown(NOTHING, s);
    } else if a.ReadWal? {
      var read := s.procs[p].snapshot;
      FileHonest(owner, read, s.disk);
      StaleLoadIsKnown(read, s);
    }
    OneProcStep(owner, s, s', p);
  }

  /** The owner knows the token this action mints. */
  ghost predicate Owned(h: TextFn, owner: Owner, a: Action)
  {
    a.MintIn? ==> owner(Token(h, a.kind, a.original)) == Some(a.original)
  }

  lemma HonestMint(h: TextFn, owner: Owner, store: Store, original: string, kind: string)
    requires owner(Token(h, kind, original)) == Some(original) && StoreHonest(owner, store)
    ensures var store' := Mint(h, store, original, kind);
      && StoreHonest(owner, store')
      && SubMap(store.forward, store'.forward) && SubMap(store.reverse, store'.reverse)
  {
    if original !in store.forward {
      HonestEnter(owner, store, original, Token(h, kind, original));
    }
  }

  lemma HonestEnter(owner: Owner, store: Store, original: string, token: string)
    requires StoreHonest(owner, store) && original !in store.forward && owner(token) == Some(original)
    ensures var store' := Enter(store, original, token);
      && StoreHonest(owner, store')
      && SubMap(store.forward, store'.forward) && SubMap(store.reverse, store'.reverse)
  {
    assert token in store.reverse ==> store.reverse[token] == original;
    assert token !in store.pendingReverse;
    MintedIsPaired(Pending(store), original, token);
    MintedIsLinked(Batch(store.forward, store.reverse), original, token);
    SubMapGrows(store.pendingForward, store.forward, original, token);
    SubMapGrows(store.pendingReverse, store.reverse, token, original);
  }

  lemma SubMapTrans(a: Pairs, b: Pairs, c: Pairs)
    requires SubMap(a, b) && SubMap(b, c)
    ensures SubMap(a, c)
  {
  }

  lemma MintStep(h: TextFn, owner: Owner, s: State, a: Action)
    requires Inv(owner, s) && Owned(h, owner, a) && a.MintIn? && Enabled(s, a)
    ensures Inv(owner, Step(h, s, a))
  {
    var p, s' := a.p, Step(h, s, a);
    assert ProcOk(owner, Known(s), s.disk, s.holder, p, s.procs[p]);
    var store, store' := s.procs[p].store, s'.procs[p].store;
    HonestMint(h, owner, store, a.original, a.kind);
    var threads := s.procs[p].threads;
    forall t | t in threads ensures ThreadOk(Known(s'), s'.disk, s'.holder, store', p, t, threads[t]) {
      assert ThreadOk(Known(s), s.disk, s.holder, store, p, t, threads[t]);
      if !threads[t].Idle? {
        SubMapTrans(threads[t].b.f, store.forward, store'.forward);
        SubMapTrans(threads[t].b.r, store.reverse, store'.reverse);
      }
    }
    OneProcStep(owner, s, s', p);
  }

  /** A step that moves thread (p, t) to `phase` and may rewrite the files, but not p's store. */
  lemma ThreadStep(owner: Owner, s: State, s': State, p: nat, t: nat, phase: Phase)
    requires Inv(owner, s) && IsRunning(s, p)
    requires s'.procs == WithPhase(s, p, t, phase).procs
    requires Grows(Known(s), Known(s'))
    requires (s.disk == s'.disk && s.holder == s'.holder) || s.holder.None? || s.holder == Some((p, t))
    requires ThreadOk(Known(s'), s'.disk, s'.holder, s.procs[p].store, p, t, phase)
    requires DiskHonest(owner, s'.disk) && s'.acked == s.acked
    requires s'.tears == 0 ==> s'.lost == NOTHING
    requires s'.wasted + (if s'.disk.tail.Clean? then 0 else 1) <= s'.tears
    ensures Inv(owner, s')
  {
    assert ProcOk(owner, Known(s), s.disk, s.holder, p, s.procs[p]);
    OnlyHolderLocks(owner, s, p, t);
    var store, threads, threads' := s.procs[p].store, s.procs[p].threads, s'.procs[p].threads;
    forall u | u in threads' ensures ThreadOk(Known(s'), s'.disk, s'.holder, store, p, u, threads'[u]) {
      if u != t {
        assert ThreadOk(Known(s), s.disk, s.holder, store, p, u, threads[u]);
      }
    }
    OneProcStep(owner, s, s', p);
  }

  lemma OldThread(owner: Owner, s: State, p: nat, t: nat)
    requires Inv(owner, s) && IsRunning(s, p)
    ensures ThreadOk(Known(s), s.disk, s.holder, s.procs[p].store, p, t, PhaseOf(s, p, t))
    ensures StoreHonest(owner, s.procs[p].store) && Held(s.procs[p].store, Known(s))
  {
    assert ProcOk(owner, Known(s), s.disk, s.holder, p, s.procs[p]);
  }

  lemma StartSteps(h: TextFn, owner: Owner, s: State, a: Action)
    requires Inv(owner, s) && Enabled(s, a) && (a.Take? || a.SkipEmpty?)
    ensures Inv(owner, Step(h, s, a)) && Step(h, s, a).disk == s.disk
  {
    var s' := Step(h, s, a);
    OldThread(owner, s, a.p, a.t);
    ThreadStep(owner, s, s', a.p, a.t, PhaseOf(s', a.p, a.t));
  }

  lemma LockSteps(h: TextFn, owner: Owner, s: State, a: Action)
    requires Inv(owner, s) && Enabled(s, a) && (a.Acquire? || a.Fail?)
    ensures Inv(owner, Step(h, s, a)) && Step(h, s, a).disk == s.disk
  {
    var s' := Step(h, s, a);
    OldThread(owner, s, a.p, a.t);
    ThreadStep(owner, s, s', a.p, a.t, PhaseOf(s', a.p, a.t));
  }

  lemma LockedSteps(h: TextFn, owner: Owner, s: State, a: Action)
    requires Inv(owner, s) && Enabled(s, a) && (a.LoadForFold? || a.NoFold? || a.Release?)
    ensures Inv(owner, Step(h, s, a)) && Step(h, s, a).disk == s.disk
  {
    var s' := Step(h, s, a);
    OldThread(owner, s, a.p, a.t);
    ThreadStep(owner, s, s', a.p, a.t, PhaseOf(s', a.p, a.t));
  }

  lemma QuietSteps(h: TextFn, owner: Owner, s: State, a: Action)
    requires Inv(owner, s) && Enabled(s, a)
    requires a.Take? || a.SkipEmpty? || a.Acquire? || a.LoadForFold? || a.NoFold? || a.Release? || a.Fail?
    ensures Inv(owner, Step(h, s, a)) && Step(h, s, a).disk == s.disk
  {
    if a.Take? || a.SkipEmpty? {
      StartSteps(h, owner, s, a);
    } else if a.Acquire? || a.Fail? {
      LockSteps(h, owner, s, a);
    } else {
      LockedSteps(h, owner, s, a);
    }
  }

  lemma SentIsHonest(owner: Owner, b: Batch, store: Store)
    requires Sent(b, store) && StoreHonest(owner, store)
    ensures Honest(owner, b)
  {
  }

  /** What is readable is what the terminated lines give, overlaid with an unterminated last batch. */
  lemma LoadSplits(disk: Disk)
    ensures Load(disk) == Merge(Replay(disk.snapshot, disk.lines), Endangered(disk))
  {
    MergeLaws(Replay(disk.snapshot, disk.lines), NOTHING, NOTHING);
  }

  /** A complete append keeps the disk honest; afterwards its batch is readable or accounted for. */
  lemma AppendIsKnown(owner: Owner, disk: Disk, b: Batch, lost: Batch)
    requires DiskHonest(owner, disk) && Honest(owner, b)
    ensures DiskHonest(owner, Append(disk, b))
    ensures var (now, lost') := (Load(Append(disk, b)),
                                 if disk.tail.Clean? then lost else Merge(Merge(lost, Endangered(disk)), b));
      && Load(disk).f.Keys + lost.f.Keys <= now.f.Keys + lost'.f.Keys
      && Load(disk).r.Keys + lost.r.Keys <= now.r.Keys + lost'.r.Keys
      && b.f.Keys <= now.f.Keys + lost'.f.Keys && b.r.Keys <= now.r.Keys + lost'.r.Keys
  {
    AppendAdds(disk, b);
    LoadSplits(disk);
    var line := if disk.tail.Clean? then Good(b) else Bad;
    assert Append(disk, b).lines == disk.lines + [line];
  }

  lemma WriteStep(h: TextFn, owner: Owner, s: State, a: Action)
    requires Inv(owner, s) && a.Write? && Enabled(s, a)
    ensures Inv(owner, Step(h, s, a)) && Grows(Known(s), Known(Step(h, s, a)))
  {
    var s', b := Step(h, s, a), PhaseOf(s, a.p, a.t).b;
    OldThread(owner, s, a.p, a.t);
    SentIsHonest(owner, b, s.procs[a.p].store);
    AppendIsKnown(owner, s.disk, b, s.lost);
    assert s'.disk == Append(s.disk, b) && s'.disk.tail == Clean;
    ThreadStep(owner, s, s', a.p, a.t, Appended(b));
  }

  lemma TearStep(h: TextFn, owner: Owner, s: State, a: Action)
    requires Inv(owner, s) && a.Tear? && Enabled(s, a)
    ensures Inv(owner, Step(h, s, a)) && Grows(Known(s), Known(Step(h, s, a)))
  {
    OldThread(owner, s, a.p, a.t);
    TearIsAccounted(h, owner, s, a);
    ThreadStep(owner, s, Step(h, s, a), a.p, a.t, Idle);
  }

  lemma TearIsAccounted(h: TextFn, owner: Owner, s: State, a: Action)
    requires Inv(owner, s) && a.Tear? && Enabled(s, a)
    ensures DiskHonest(owner, Step(h, s, a).disk) && Grows(Known(s), Known(Step(h, s, a)))
  {
    var s', b := Step(h, s, a), PhaseOf(s, a.p, a.t).b;
    OldThread(owner, s, a.p, a.t);
    SentIsHonest(owner, b, s.procs[a.p].store);
    LoadSplits(s.disk);
    LoadSplits(s'.disk);
  }

  /** Each step of a compaction leaves what a reader loads exactly as it was. */
  lemma FoldSteps(h: TextFn, owner: Owner, s: State, a: Action)
    requires Inv(owner, s) && Enabled(s, a) && (a.Rename? || a.Remove?)
    ensures Inv(owner, Step(h, s, a)) && Load(Step(h, s, a).disk) == Load(s.disk)
  {
    var s' := Step(h, s, a);
    OldThread(owner, s, a.p, a.t);
    SnapshotOfLoadIsInvisible(s.disk);
    FileHonest(owner, s.disk.snapshot, s.disk);
    if a.Remove? {
      assert WithSnapshot(s.disk, Load(s.disk)) == s.disk;
    }
    ThreadStep(owner, s, s', a.p, a.t, PhaseOf(s', a.p, a.t));
  }

  /** Dropping the keys of a sent batch leaves the rest paired up. */
  lemma RestStaysPaired(owner: Owner, store: Store, b: Batch)
    requires StoreHonest(owner, store) && Sent(b, store)
    ensures StoreHonest(owner, Persisted(store, b))
  {
    assert forall t :: t in b.r ==> b.r[t] in b.f && b.r[t] == store.reverse[t];
    assert forall x :: x in b.f ==> b.f[x] in b.r && b.f[x] == store.forward[x];
    var rest := Pending(Persisted(store, b));
    assert forall x :: x in rest.f ==> rest.f[x] in rest.r && rest.r[rest.f[x]] == x;
    assert forall t :: t in rest.r ==> rest.r[t] in rest.f && rest.f[rest.r[t]] == t;
  }

  lemma AckKeepsProc(owner: Owner, s: State, p: nat, t: nat, b: Batch)
    requires Inv(owner, s) && IsRunning(s, p) && Sent(b, s.procs[p].store) && Within(b, Known(s))
    ensures ProcOk(owner, Known(s), s.disk, s.holder, p, Running(Persisted(s.procs[p].store, b), s.procs[p].threads[t := Idle]))
  {
    var store, threads := s.procs[p].store, s.procs[p].threads;
    assert ProcOk(owner, Known(s), s.disk, s.holder, p, s.procs[p]);
    RestStaysPaired(owner, store, b);
    var after := threads[t := Idle];
    forall u | u in after ensures ThreadOk(Known(s), s.disk, s.holder, Persisted(store, b), p, u, after[u]) {
      if u != t {
        assert ThreadOk(Known(s), s.disk, s.holder, store, p, u, threads[u]);
      }
    }
  }

  /** A written batch is honest and known, and so is everything acknowledged with it. */
  lemma WrittenBatch(owner: Owner, s: State, p: nat, t: nat) returns (b: Batch)
    requires Inv(owner, s) && IsRunning(s, p) && PhaseOf(s, p, t).Written?
    ensures b == PhaseOf(s, p, t).b && Sent(b, s.procs[p].store) && Within(b, Known(s))
    ensures Honest(owner, Merge(s.acked, b)) && Within(Merge(s.acked, b), Known(s))
  {
    b := PhaseOf(s, p, t).b;
    OldThread(owner, s, p, t);
    SentIsHonest(owner, b, s.procs[p].store);
    MergeHonest(owner, s.acked, b);
  }

  lemma AcknowledgeStep(h: TextFn, owner: Owner, s: State, a: Action)
    requires Inv(owner, s) && a.Acknowledge? && Enabled(s, a)
    ensures Inv(owner, Step(h, s, a)) && Step(h, s, a).disk == s.disk
  {
    var b := WrittenBatch(owner, s, a.p, a.t);
    AckKeepsProc(owner, s, a.p, a.t, b);
    OneProcStep(owner, s, Step(h, s, a), a.p);
  }

  lemma CrashStep(h: TextFn, owner: Owner, s: State, a: Action)
    requires Inv(owner, s) && a.Crash? && Enabled(s, a)
    ensures Inv(owner, Step(h, s, a)) && Step(h, s, a).disk == s.disk
  {
    var s' := Step(h, s, a);
    if s.holder.Some? {
      OnlyHolderLocks(owner, s, s.holder.value.0, s.holder.value.1);
    }
    OneProcStep(owner, s, s', a.p);
  }

  /** Every primitive step keeps the invariant and forgets nothing that was known on disk. */
  lemma StepKeepsInv(h: TextFn, owner: Owner, s: State, a: Action)
    requires Owned(h, owner, a) && Inv(owner, s) && Enabled(s, a)
    ensures Inv(owner, Step(h, s, a))
    ensures Grows(Known(s), Known(Step(h, s, a)))
    ensures !a.Write? && !a.Tear? ==> Load(Step(h, s, a).disk) == Load(s.disk)
  {
    match a
    case Spawn(_) => BootSteps(h, owner, s, a);
    case ReadSnapshot(_) => BootSteps(h, owner, s, a);
    case ReadWal(_) => BootSteps(h, owner, s, a);
    case MintIn(_, _, _) => MintStep(h, owner, s, a);
    case Write(_, _) => WriteStep(h, owner, s, a);
    case Tear(_, _, _) => TearStep(h, owner, s, a);
    case Rename(_, _) => FoldSteps(h, owner, s, a);
    case Remove(_, _) => FoldSteps(h, owner, s, a);
    case Acknowledge(_, _) => AcknowledgeStep(h, owner, s, a);
    case Crash(_) => CrashStep(h, owner, s, a);
    case _ => QuietSteps(h, owner, s, a);
  }

  // ---------------------------------------------------------------------- whole runs

  ghost predicate IsRun(h: TextFn, dom: set<string>, states: seq<State>, actions: seq<Action>)
  {
    && |states| == |actions| + 1 && states[0] == START
    && forall i :: 0 <= i < |actions| ==>
         && Enabled(states[i], actions[i])
         && states[i + 1] == Step(h, states[i], actions[i])
         && (actions[i].MintIn? ==> actions[i].original in dom)
  }

  ghost predicate AllOwned(h: TextFn, owner: Owner, actions: seq<Action>)
  {
    forall i :: 0 <= i < |actions| ==> Owned(h, owner, actions[i])
  }

  lemma {:induction false} RunInv(h: TextFn, dom: set<string>, owner: Owner, states: seq<State>, actions: seq<Action>, n: nat)
    requires IsRun(h, dom, states, actions) && AllOwned(h, owner, actions) && n < |states|
    ensures Inv(owner, states[n])
  {
    if n > 0 {
      RunInv(h, dom, owner, states, actions, n - 1);
      StepKeepsInv(h, owner, states[n - 1], actions[n - 1]);
    }
  }

  lemma GrowsTwice(a: Keys, b: Keys, c: Keys)
    requires Grows(a, b) && Grows(b, c)
    ensures Grows(a, c)
  {
  }

  lemma RunStep(h: TextFn, dom: set<string>, owner: Owner, states: seq<State>, actions: seq<Action>, n: nat)
    requires IsRun(h, dom, states, actions) && AllOwned(h, owner, actions) && n < |actions|
    ensures Grows(Known(states[n]), Known(states[n + 1]))
  {
    RunInv(h, dom, owner, states, actions, n);
    StepKeepsInv(h, owner, states[n], actions[n]);
  }

  lemma {:induction false} KnownGrows(h: TextFn, dom: set<string>, owner: Owner, states: seq<State>, actions: seq<Action>, m: nat, n: nat)
    requires IsRun(h, dom, states, actions) && AllOwned(h, owner, actions) && m <= n < |states|
    ensures Grows(Known(states[m]), Known(states[n]))
  {
    if m < n {
      var k: nat := n - 1;
      KnownGrows(h, dom, owner, states, actions, m, k);
      RunStep(h, dom, owner, states, actions, k);
      GrowsTwice(Known(states[m]), Known(states[k]), Known(states[n]));
    }
  }

  /**
    * Durability. Whatever was acknowledged at step m can still be read at every later step n as long as
    * no append was ever torn: each token with the same original, each original with some token that
    * reverses to it. With torn appends, whatever is unreadable is among the batches they swallowed, at
    * most one complete batch per torn append.
    */
  lemma AcknowledgedStaysReadable(h: TextFn, dom: set<string>, states: seq<State>, actions: seq<Action>, m: nat, n: nat)
    requires DigestShape(h) && NoCollision(h, dom) && IsRun(h, dom, states, actions) && m <= n < |states|
    ensures Linked(Load(states[n].disk))
    ensures states[n].tears == 0 ==> forall t :: t in states[m].acked.r ==>
              t in Load(states[n].disk).r && Load(states[n].disk).r[t] == states[m].acked.r[t]
    ensures states[n].tears == 0 ==> states[m].acked.f.Keys <= Load(states[n].disk).f.Keys
    ensures states[m].acked.r.Keys <= Load(states[n].disk).r.Keys + states[n].lost.r.Keys
    ensures states[m].acked.f.Keys <= Load(states[n].disk).f.Keys + states[n].lost.f.Keys
    ensures states[n].wasted <= states[n].tears
  {
    var owner := OwnerExists(h, dom);
    RunInv(h, dom, owner, states, actions, m);
    RunInv(h, dom, owner, states, actions, n);
    KnownGrows(h, dom, owner, states, actions, m, n);
    FileHonest(owner, states[n].disk.snapshot, states[n].disk);
  }

  /** Every entry a process holds in memory is waiting to be saved or already readable by the others. */
  lemma MemoryIsPendingOrStored(h: TextFn, dom: set<string>, states: seq<State>, actions: seq<Action>, n: nat, p: nat)
    requires DigestShape(h) && NoCollision(h, dom) && IsRun(h, dom, states, actions) && n < |states|
    requires IsRunning(states[n], p) && states[n].tears == 0
    ensures var (store, loaded) := (states[n].procs[p].store, Load(states[n].disk));
      && (forall t :: t in store.reverse ==>
            t in store.pendingReverse || (t in loaded.r && loaded.r[t] == store.reverse[t]))
      && (forall x :: x in store.forward ==>
            x in store.pendingForward || (x in loaded.f && loaded.f[x] in loaded.r && loaded.r[loaded.f[x]] == x))
  {
    var owner := OwnerExists(h, dom);
    RunInv(h, dom, owner, states, actions, n);
    OldThread(owner, states[n], p, 0);
    FileHonest(owner, states[n].disk.snapshot, states[n].disk);
  }

  /** Only appends change what is readable: no step of a compaction, crash or restart does. */
  lemma OnlyAppendsChangeTheFile(h: TextFn, dom: set<string>, states: seq<State>, actions: seq<Action>, n: nat)
    requires DigestShape(h) && NoCollision(h, dom) && IsRun(h, dom, states, actions) && n < |actions|
    ensures !actions[n].Write? && !actions[n].Tear? ==> Load(states[n + 1].disk) == Load(states[n].disk)
    ensures actions[n].Write? && states[n].disk.tail.Clean? ==>
              Load(states[n + 1].disk) == Merge(Load(states[n].disk), PhaseOf(states[n], actions[n].p, actions[n].t).b)
  {
    var owner := OwnerExists(h, dom);
    RunInv(h, dom, owner, states, actions, n);
    StepKeepsInv(h, owner, states[n], actions[n]);
    if actions[n].Write? {
      AppendAdds(states[n].disk, PhaseOf(states[n], actions[n].p, actions[n].t).b);
    }
  }
}
