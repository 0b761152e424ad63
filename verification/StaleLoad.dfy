/**
  * What a starting process gets from the two files. It takes no lock: it reads the snapshot at one
  * moment and the log at a later one, while others append and compact (src/anonymize.py).
  */
module StaleLoad {
  import opened Tokens
  import opened Wal
  import opened StoreState
  import opened Optional
  import opened FileBackend

  /** Process q reads the snapshot at step i and then the log at step j, without dying in between. */
  ghost predicate LoadsAt(states: seq<State>, actions: seq<Action>, q: nat, i: nat, j: nat)
  {
    && i < j < |actions| < |states| && actions[i] == ReadSnapshot(q) && actions[j] == ReadWal(q)
    && forall k :: i < k < j ==> actions[k] != Crash(q) && actions[k] != ReadWal(q)
  }

  /** What it then holds. */
  ghost function Loaded(states: seq<State>, i: nat, j: nat): Batch
    requires i < |states| && j < |states|
  {
    ReplayFile(states[i].disk.snapshot, states[j].disk)
  }

  ghost predicate NoRemove(actions: seq<Action>, i: nat, j: nat)
    requires i <= j <= |actions|
  {
    forall k :: i <= k < j ==> !actions[k].Remove?
  }

  lemma {:induction false} HoldsSnapshot(h: TextFn, dom: set<string>, states: seq<State>, actions: seq<Action>, q: nat, i: nat, j: nat, k: nat)
    requires IsRun(h, dom, states, actions) && LoadsAt(states, actions, q, i, j) && i < k <= j
    ensures q in states[k].procs && states[k].procs[q] == SnapshotRead(states[i].disk.snapshot)
  {
    var n: nat := k - 1;
    if n > i {
      HoldsSnapshot(h, dom, states, actions, q, i, j, n);
      StaysBooting(h, states[n], actions[n], q);
    }
  }

  lemma StaysBooting(h: TextFn, s: State, a: Action, q: nat)
    requires Enabled(s, a) && q in s.procs && s.procs[q].SnapshotRead? && a != Crash(q) && a != ReadWal(q)
    ensures q in Step(h, s, a).procs && Step(h, s, a).procs[q] == s.procs[q]
  {
  }

  /** The process starts with the log of step j on top of the snapshot of step i. */
  lemma StartsWithLoaded(h: TextFn, dom: set<string>, states: seq<State>, actions: seq<Action>, q: nat, i: nat, j: nat)
    requires IsRun(h, dom, states, actions) && LoadsAt(states, actions, q, i, j)
    ensures IsRunning(states[j + 1], q) && states[j + 1].procs[q].store == Fresh(Loaded(states, i, j))
  {
    HoldsSnapshot(h, dom, states, actions, q, i, j, j);
  }

  // ------------------------------------------------------------------ no removal in between

  /** The terminated lines give the same on top of an older snapshot as on top of the present one. */
  ghost predicate Catches(base: Batch, disk: Disk)
  {
    Replay(base, disk.lines) == Replay(disk.snapshot, disk.lines)
  }

  lemma CatchesAppend(base: Batch, disk: Disk, line: Line)
    requires Catches(base, disk)
    ensures Catches(base, disk.(lines := disk.lines + [line], tail := Clean))
  {
    ReplayAppend(base, disk.lines, line);
    ReplayAppend(disk.snapshot, disk.lines, line);
  }

  lemma CatchesRename(base: Batch, disk: Disk)
    requires Catches(base, disk) && disk.tail.Clean?
    ensures Catches(base, WithSnapshot(disk, Load(disk)))
  {
    SnapshotOfLoadIsInvisible(disk);
  }

  lemma CatchesStep(h: TextFn, owner: Owner, base: Batch, s: State, a: Action)
    requires Inv(owner, s) && Enabled(s, a) && !a.Remove? && Catches(base, s.disk)
    ensures Catches(base, Step(h, s, a).disk)
  {
    if a.Write? {
      CatchesAppend(base, s.disk, if s.disk.tail.Clean? then Good(PhaseOf(s, a.p, a.t).b) else Bad);
    } else if a.Rename? {
      OldThread(owner, s, a.p, a.t);
      CatchesRename(base, s.disk);
    }
  }

  lemma CatchesNext(h: TextFn, dom: set<string>, owner: Owner, states: seq<State>, actions: seq<Action>, base: Batch, n: nat)
    requires IsRun(h, dom, states, actions) && AllOwned(h, owner, actions) && n < |actions| && !actions[n].Remove?
    requires Catches(base, states[n].disk)
    ensures Catches(base, states[n + 1].disk)
  {
    RunInv(h, dom, owner, states, actions, n);
    CatchesStep(h, owner, base, states[n], actions[n]);
  }

  lemma {:induction false} CatchesUp(h: TextFn, dom: set<string>, owner: Owner, states: seq<State>, actions: seq<Action>, base: Batch, i: nat, j: nat)
    requires IsRun(h, dom, states, actions) && AllOwned(h, owner, actions) && i <= j <= |actions|
    requires Catches(base, states[i].disk) && NoRemove(actions, i, j)
    ensures Catches(base, states[j].disk)
  {
    if i < j {
      var k: nat := j - 1;
      CatchesUp(h, dom, owner, states, actions, base, i, k);
      CatchesNext(h, dom, owner, states, actions, base, k);
    }
  }

  lemma CatchesLoads(base: Batch, disk: Disk)
    requires Catches(base, disk)
    ensures ReplayFile(base, disk) == Load(disk)
  {
  }

  /** With no log removed between its two reads, a process starts with exactly what the files hold. */
  lemma LoadIsExact(h: TextFn, dom: set<string>, states: seq<State>, actions: seq<Action>, q: nat, i: nat, j: nat)
    requires DigestShape(h) && NoCollision(h, dom) && IsRun(h, dom, states, actions) && LoadsAt(states, actions, q, i, j)
    requires NoRemove(actions, i, j)
    ensures IsRunning(states[j + 1], q) && states[j + 1].procs[q].store == Fresh(Load(states[j].disk))
  {
    var owner := OwnerExists(h, dom);
    CatchesUp(h, dom, owner, states, actions, states[i].disk.snapshot, i, j);
    CatchesLoads(states[i].disk.snapshot, states[j].disk);
    StartsWithLoaded(h, dom, states, actions, q, i, j);
  }

  // ------------------------------------------------------------------ a removal in between

  /** Step k is the last removal of a log between the two reads. */
  ghost predicate LastRemove(actions: seq<Action>, i: nat, j: nat, k: nat)
    requires i <= j <= |actions|
  {
    i <= k < j && actions[k].Remove? && NoRemove(actions, k + 1, j)
  }

  /** The files hold the snapshot of the removal with everything written since on top. */
  lemma SinceRemoval(h: TextFn, dom: set<string>, owner: Owner, states: seq<State>, actions: seq<Action>, i: nat, j: nat, k: nat)
    requires IsRun(h, dom, states, actions) && AllOwned(h, owner, actions) && i <= j <= |actions| && LastRemove(actions, i, j, k)
    ensures Load(states[j].disk) == Merge(states[k].disk.snapshot, Overlay(states[j].disk))
  {
    var base := states[k].disk.snapshot;
    assert states[k + 1].disk == WithoutWal(states[k].disk);
    CatchesUp(h, dom, owner, states, actions, base, k + 1, j);
    CatchesLoads(base, states[j].disk);
    FileOverlays(base, states[j].disk);
  }

  /** The keys of one map that the files hold and the starting process does not. */
  ghost function Missing(held: Pairs, got: Pairs): set<string>
  {
    held.Keys - got.Keys
  }

  /**
    * With a log removed between its two reads, a process misses exactly what the last compaction folded
    * into the snapshot and neither the snapshot it read nor the log it read holds. Whatever it has, it
    * has with the files' own originals, unless a torn append has made that unreadable since.
    */
  lemma MissesWhatWasFolded(h: TextFn, dom: set<string>, states: seq<State>, actions: seq<Action>, q: nat, i: nat, j: nat, k: nat)
    requires DigestShape(h) && NoCollision(h, dom) && IsRun(h, dom, states, actions) && LoadsAt(states, actions, q, i, j)
    requires LastRemove(actions, i, j, k)
    ensures IsRunning(states[j + 1], q)
    ensures var (store, log, full) := (states[j + 1].procs[q].store, Overlay(states[j].disk), Load(states[j].disk));
      && Missing(full.r, store.reverse) == states[k].disk.snapshot.r.Keys - states[i].disk.snapshot.r.Keys - log.r.Keys
      && Missing(full.f, store.forward) == states[k].disk.snapshot.f.Keys - states[i].disk.snapshot.f.Keys - log.f.Keys
      && (states[j].tears == 0 ==> SubMap(store.reverse, full.r))
  {
    var owner := OwnerExists(h, dom);
    StartsWithLoaded(h, dom, states, actions, q, i, j);
    FileOverlays(states[i].disk.snapshot, states[j].disk);
    SinceRemoval(h, dom, owner, states, actions, i, j, k);
    LoadedIsHonest(h, dom, owner, states, actions, q, i, j);
  }

  lemma LoadedIsHonest(h: TextFn, dom: set<string>, owner: Owner, states: seq<State>, actions: seq<Action>, q: nat, i: nat, j: nat)
    requires IsRun(h, dom, states, actions) && AllOwned(h, owner, actions) && LoadsAt(states, actions, q, i, j)
    ensures states[j].tears == 0 ==> SubMap(Loaded(states, i, j).r, Load(states[j].disk).r)
  {
    RunInv(h, dom, owner, states, actions, i);
    RunInv(h, dom, owner, states, actions, j);
    RunInv(h, dom, owner, states, actions, j + 1);
    StartsWithLoaded(h, dom, states, actions, q, i, j);
    OldThread(owner, states[j + 1], q, 0);
    FileHonest(owner, states[j].disk.snapshot, states[j].disk);
  }

  // ------------------------------------------------------------------ durability for the process

  ghost predicate Survives(actions: seq<Action>, q: nat, j: nat, n: nat)
    requires j < n <= |actions|
  {
    forall k :: j < k < n ==> actions[k] != Crash(q)
  }

  lemma OthersStay(h: TextFn, s: State, a: Action, q: nat)
    requires Enabled(s, a) && q in s.procs && a.p != q
    ensures q in Step(h, s, a).procs && Step(h, s, a).procs[q] == s.procs[q]
  {
  }

  lemma OwnStepsKeep(h: TextFn, s: State, a: Action)
    requires Enabled(s, a) && IsRunning(s, a.p) && !a.Crash? && !a.MintIn?
    ensures IsRunning(Step(h, s, a), a.p) && Step(h, s, a).procs[a.p].store.reverse == s.procs[a.p].store.reverse
  {
  }

  lemma OnlyMintsGrow(h: TextFn, s: State, a: Action, q: nat)
    requires Enabled(s, a) && IsRunning(s, q) && a != Crash(q) && !(a.MintIn? && a.p == q)
    ensures IsRunning(Step(h, s, a), q) && Step(h, s, a).procs[q].store.reverse == s.procs[q].store.reverse
  {
    if a.p == q {
      OwnStepsKeep(h, s, a);
    } else {
      OthersStay(h, s, a, q);
    }
  }

  lemma KeepsReverse(h: TextFn, owner: Owner, s: State, a: Action, q: nat)
    requires Owned(h, owner, a) && Inv(owner, s) && Enabled(s, a) && IsRunning(s, q) && a != Crash(q)
    ensures IsRunning(Step(h, s, a), q) && SubMap(s.procs[q].store.reverse, Step(h, s, a).procs[q].store.reverse)
  {
    if a.MintIn? && a.p == q {
      OldThread(owner, s, q, 0);
      HonestMint(h, owner, s.procs[q].store, a.original, a.kind);
    } else {
      OnlyMintsGrow(h, s, a, q);
    }
  }

  lemma {:induction false} ReverseGrows(h: TextFn, dom: set<string>, owner: Owner, states: seq<State>, actions: seq<Action>, q: nat, j: nat, n: nat)
    requires IsRun(h, dom, states, actions) && AllOwned(h, owner, actions) && j < n < |states|
    requires IsRunning(states[j + 1], q) && Survives(actions, q, j, n)
    ensures IsRunning(states[n], q) && SubMap(states[j + 1].procs[q].store.reverse, states[n].procs[q].store.reverse)
    decreases n
  {
    if n > j + 1 {
      ReverseGrows(h, dom, owner, states, actions, q, j, n - 1);
      RunInv(h, dom, owner, states, actions, n - 1);
      KeepsReverse(h, owner, states[n - 1], actions[n - 1], q);
      SubMapTrans(states[j + 1].procs[q].store.reverse, states[n - 1].procs[q].store.reverse, states[n].procs[q].store.reverse);
    }
  }

  /**
    * Durability as a process sees it. What was acknowledged by the time it reads the log is in its own
    * reverse map for as long as it lives, if no append was torn and no log was removed between its reads.
    */
  lemma AcknowledgedIsLoaded(h: TextFn, dom: set<string>, states: seq<State>, actions: seq<Action>,
                             q: nat, i: nat, j: nat, m: nat, n: nat)
    requires DigestShape(h) && NoCollision(h, dom) && IsRun(h, dom, states, actions) && LoadsAt(states, actions, q, i, j)
    requires m <= j < n < |states| && Survives(actions, q, j, n) && states[j].tears == 0 && NoRemove(actions, i, j)
    ensures IsRunning(states[n], q) && SubMap(states[m].acked.r, states[n].procs[q].store.reverse)
  {
    var owner := OwnerExists(h, dom);
    LoadIsExact(h, dom, states, actions, q, i, j);
    AcknowledgedStaysReadable(h, dom, states, actions, m, j);
    ReverseGrows(h, dom, owner, states, actions, q, j, n);
  }

  /** Without the condition: an acknowledged token is there exactly if one of the two reads showed it. */
  lemma AcknowledgedIsLoadedIff(h: TextFn, dom: set<string>, states: seq<State>, actions: seq<Action>,
                                q: nat, i: nat, j: nat, m: nat, t: string)
    requires DigestShape(h) && NoCollision(h, dom) && IsRun(h, dom, states, actions) && LoadsAt(states, actions, q, i, j)
    requires m <= j && t in states[m].acked.r
    ensures IsRunning(states[j + 1], q)
    ensures t in states[j + 1].procs[q].store.reverse
       <==> t in states[i].disk.snapshot.r || t in Overlay(states[j].disk).r
    ensures t in states[j + 1].procs[q].store.reverse ==> states[j + 1].procs[q].store.reverse[t] == states[m].acked.r[t]
  {
    var owner := OwnerExists(h, dom);
    StartsWithLoaded(h, dom, states, actions, q, i, j);
    FileOverlays(states[i].disk.snapshot, states[j].disk);
    RunInv(h, dom, owner, states, actions, m);
    RunInv(h, dom, owner, states, actions, j + 1);
    OldThread(owner, states[j + 1], q, 0);
  }

  // ------------------------------------------------------------------ the run that loses it

  /** A stretch of a run. */
  ghost predicate Continues(h: TextFn, dom: set<string>, s: State, states: seq<State>, actions: seq<Action>)
  {
    && |states| == |actions| + 1 && states[0] == s
    && forall i :: 0 <= i < |actions| ==>
         && Enabled(states[i], actions[i]) && states[i + 1] == Step(h, states[i], actions[i])
         && (actions[i].MintIn? ==> actions[i].original in dom)
  }

  lemma ContinuesOn(h: TextFn, dom: set<string>, s: State, states: seq<State>, actions: seq<Action>,
                    more: seq<State>, later: seq<Action>) returns (all: seq<State>, acts: seq<Action>)
    requires Continues(h, dom, s, states, actions) && Continues(h, dom, states[|actions|], more, later)
    ensures Continues(h, dom, s, all, acts) && all == states + more[1..] && acts == actions + later
    ensures all[|acts|] == more[|later|]
  {
    all, acts := states + more[1..], actions + later;
    var n := |actions|;
    forall i | 0 <= i < |acts|
      ensures Enabled(all[i], acts[i]) && all[i + 1] == Step(h, all[i], acts[i])
      ensures acts[i].MintIn? ==> acts[i].original in dom
    {
      if i >= n {
        assert all[i] == more[i - n] && all[i + 1] == more[i - n + 1] && acts[i] == later[i - n];
      }
    }
  }

  function Only(x: string, token: string): Batch
  {
    Batch(map[x := token], map[token := x])
  }

  /** Process 0 with its one thread, beside other processes. */
  function Solo(store: Store, phase: Phase, disk: Disk, acked: Batch, others: map<nat, Proc>): State
  {
    State(disk, if HoldsLock(phase) then Some((0, 0)) else None,
          others[0 := Running(store, map[0 := phase])], acked, NOTHING, 0, 0)
  }

  lemma SoloMoves(store: Store, phase: Phase, phase': Phase, disk: Disk, acked: Batch, others: map<nat, Proc>)
    ensures WithPhase(Solo(store, phase, disk, acked, others), 0, 0, phase').procs == Solo(store, phase', disk, acked, others).procs
    ensures PhaseOf(Solo(store, phase, disk, acked, others), 0, 0) == phase
  {
    assert map[0 := phase][0 := phase'] == map[0 := phase'];
    var before, after := Running(store, map[0 := phase]), Running(store, map[0 := phase']);
    assert others[0 := before][0 := after] == others[0 := after];
  }

  lemma SoloStores(store: Store, store': Store, phase: Phase, disk: Disk, acked: Batch, others: map<nat, Proc>)
    ensures WithStore(Solo(store, phase, disk, acked, others), 0, store') == Solo(store', phase, disk, acked, others)
  {
    var before, after := Running(store, map[0 := phase]), Running(store', map[0 := phase]);
    assert others[0 := before][0 := after] == others[0 := after];
  }

  function Minted(b: Batch): Store { Store(b.f, b.r, b.f, b.r) }

  function Saved(b: Batch): Store { Store(b.f, b.r, map[], map[]) }

  lemma StartsAndMints(h: TextFn, x: string, kind: string, dom: set<string>) returns (states: seq<State>, actions: seq<Action>)
    requires x in dom
    ensures Continues(h, dom, START, states, actions)
    ensures states[|actions|] == START.(procs := map[0 := Running(Minted(Only(x, Token(h, kind, x))), map[])])
    ensures Harmless(actions)
  {
    actions := [Spawn(0), ReadSnapshot(0), ReadWal(0), MintIn(0, x, kind)];
    var s1 := Step(h, START, actions[0]);
    var s2 := Step(h, s1, actions[1]);
    var s3 := Step(h, s2, actions[2]);
    var s4 := Step(h, s3, actions[3]);
    states := [START, s1, s2, s3, s4];
  }

  ghost predicate Harmless(actions: seq<Action>)
  {
    forall k :: 0 <= k < |actions| ==> !actions[k].Crash? && !actions[k].Fail?
  }

  /** Taking the pending batch, the lock, and appending. */
  lemma Appends(h: TextFn, dom: set<string>, s: State, store: Store, disk: Disk, acked: Batch, others: map<nat, Proc>)
      returns (states: seq<State>, actions: seq<Action>)
    requires 0 !in others && disk.tail.Clean? && Pending(store) != NOTHING
    requires s == Solo(store, Idle, disk, acked, others) || s == Solo(store, Idle, disk, acked, others).(procs := others[0 := Running(store, map[])])
    ensures Continues(h, dom, s, states, actions) && Harmless(actions) && forall k :: 0 <= k < |actions| ==> !actions[k].ReadWal?
    ensures states[|actions|] == Solo(store, Appended(Pending(store)), Append(disk, Pending(store)), acked, others)
  {
    var b := Pending(store);
    actions := [Take(0, 0), Acquire(0, 0), Write(0, 0)];
    var s1, s2, s3 := Solo(store, Taken(b), disk, acked, others), Solo(store, Locked(b), disk, acked, others),
                      Solo(store, Appended(b), Append(disk, b), acked, others);
    states := [s, s1, s2, s3];
    FirstTake(h, s, store, disk, acked, others);
    SoloMoves(store, Taken(b), Locked(b), disk, acked, others);
    assert Step(h, s1, Acquire(0, 0)) == s2;
    SoloMoves(store, Locked(b), Appended(b), disk, acked, others);
    assert Step(h, s2, Write(0, 0)) == s3;
  }

  lemma FirstTake(h: TextFn, s: State, store: Store, disk: Disk, acked: Batch, others: map<nat, Proc>)
    requires s == Solo(store, Idle, disk, acked, others) || s == Solo(store, Idle, disk, acked, others).(procs := others[0 := Running(store, map[])])
    ensures Enabled(s, Take(0, 0)) && Step(h, s, Take(0, 0)) == Solo(store, Taken(Pending(store)), disk, acked, others)
  {
    var b := Pending(store);
    SoloMoves(store, Idle, Taken(b), disk, acked, others);
    assert map[][0 := Taken(b)] == map[0 := Taken(b)];
    var start, after := Running(store, map[]), Running(store, map[0 := Taken(b)]);
    assert others[0 := start][0 := after] == others[0 := after];
  }

  /** Leaving the section without compacting, and reporting success. */
  lemma Reports(h: TextFn, dom: set<string>, b: Batch, disk: Disk, acked: Batch, others: map<nat, Proc>)
      returns (states: seq<State>, actions: seq<Action>)
    requires 0 !in others
    ensures Continues(h, dom, Solo(Minted(b), Appended(b), disk, acked, others), states, actions) && Harmless(actions)
    ensures states[|actions|] == Solo(Saved(b), Idle, disk, Merge(acked, b), others)
  {
    actions := [NoFold(0, 0), Release(0, 0), Acknowledge(0, 0)];
    var store := Minted(b);
    var s0, s1, s2, s3 := Solo(store, Appended(b), disk, acked, others), Solo(store, Unlocking(b), disk, acked, others),
                          Solo(store, Written(b), disk, acked, others), Solo(Saved(b), Idle, disk, Merge(acked, b), others);
    states := [s0, s1, s2, s3];
    SoloMoves(store, Appended(b), Unlocking(b), disk, acked, others);
    assert Step(h, s0, NoFold(0, 0)) == s1;
    SoloMoves(store, Unlocking(b), Written(b), disk, acked, others);
    assert Step(h, s1, Release(0, 0)) == s2;
    LastAcknowledge(h, b, disk, acked, others);
  }

  lemma LastAcknowledge(h: TextFn, b: Batch, disk: Disk, acked: Batch, others: map<nat, Proc>)
    ensures var s := Solo(Minted(b), Written(b), disk, acked, others);
      && Enabled(s, Acknowledge(0, 0))
      && Step(h, s, Acknowledge(0, 0)) == Solo(Saved(b), Idle, disk, Merge(acked, b), others)
  {
    var s := Solo(Minted(b), Written(b), disk, acked, others);
    SoloMoves(Minted(b), Written(b), Idle, disk, acked, others);
    assert WithPhase(s, 0, 0, Idle) == Solo(Minted(b), Idle, disk, acked, others);
    assert b.f - b.f.Keys == map[] && b.r - b.r.Keys == map[];
    assert Persisted(Minted(b), b) == Saved(b);
    SoloStores(Minted(b), Saved(b), Idle, disk, acked, others);
  }

  /** Process 1 is spawned and reads the snapshot. */
  lemma HalfLoads(h: TextFn, dom: set<string>, store: Store, disk: Disk, acked: Batch) returns (states: seq<State>, actions: seq<Action>)
    ensures Continues(h, dom, Solo(store, Idle, disk, acked, map[]), states, actions)
    ensures actions == [Spawn(1), ReadSnapshot(1)]
    ensures states[2] == Solo(store, Idle, disk, acked, map[1 := SnapshotRead(disk.snapshot)])
  {
    actions := [Spawn(1), ReadSnapshot(1)];
    var s0, s1, s2 := Solo(store, Idle, disk, acked, map[]), Solo(store, Idle, disk, acked, map[1 := Starting]),
                      Solo(store, Idle, disk, acked, map[1 := SnapshotRead(disk.snapshot)]);
    assert s1.procs == s0.procs[1 := Starting] && s2.procs == s1.procs[1 := SnapshotRead(disk.snapshot)];
    states := [s0, s1, s2];
  }

  /** The compaction at the end of a save. */
  lemma Folds(h: TextFn, dom: set<string>, store: Store, b: Batch, disk: Disk, acked: Batch, others: map<nat, Proc>)
      returns (states: seq<State>, actions: seq<Action>)
    requires 0 !in others
    ensures Continues(h, dom, Solo(store, Appended(b), disk, acked, others), states, actions) && Harmless(actions)
    ensures forall k :: 0 <= k < |actions| ==> !actions[k].ReadWal?
    ensures states[|actions|] == Solo(store, Unlocking(b), Disk(Load(disk), [], Clean), acked, others)
  {
    actions := [LoadForFold(0, 0), Rename(0, 0), Remove(0, 0)];
    var full := Load(disk);
    var s0, s1, s2, s3 := Solo(store, Appended(b), disk, acked, others), Solo(store, Folding(b, full), disk, acked, others),
                          Solo(store, Renamed(b), WithSnapshot(disk, full), acked, others),
                          Solo(store, Unlocking(b), Disk(full, [], Clean), acked, others);
    states := [s0, s1, s2, s3];
    SoloMoves(store, Appended(b), Folding(b, full), disk, acked, others);
    assert Step(h, s0, LoadForFold(0, 0)) == s1;
    SoloMoves(store, Folding(b, full), Renamed(b), disk, acked, others);
    assert Step(h, s1, Rename(0, 0)) == s2;
    SoloMoves(store, Renamed(b), Unlocking(b), WithSnapshot(disk, full), acked, others);
    assert Step(h, s2, Remove(0, 0)) == s3;
  }

  lemma MintsAnother(h: TextFn, dom: set<string>, b: Batch, y: string, kind: string, disk: Disk, acked: Batch, others: map<nat, Proc>)
      returns (states: seq<State>, actions: seq<Action>)
    requires 0 !in others && y in dom && y !in b.f
    ensures Continues(h, dom, Solo(Saved(b), Idle, disk, acked, others), states, actions) && actions == [MintIn(0, y, kind)]
    ensures states[1] == Solo(Enter(Saved(b), y, Token(h, kind, y)), Idle, disk, acked, others)
    ensures Pending(Enter(Saved(b), y, Token(h, kind, y))) == Only(y, Token(h, kind, y))
  {
    actions := [MintIn(0, y, kind)];
    var s0, s1 := Solo(Saved(b), Idle, disk, acked, others), Solo(Enter(Saved(b), y, Token(h, kind, y)), Idle, disk, acked, others);
    assert s1.procs == s0.procs[0 := s1.procs[0]];
    states := [s0, s1];
  }

  lemma NotEmpty(x: string, token: string)
    ensures Only(x, token) != NOTHING
  {
    assert x in Only(x, token).f;
  }

  /** The second half of the run: the files are compacted while process 1 has read only the snapshot. */
  lemma CompactsMeanwhile(h: TextFn, dom: set<string>, b: Batch, y: string, kind: string, disk: Disk, acked: Batch, others: map<nat, Proc>)
      returns (states: seq<State>, actions: seq<Action>)
    requires 0 !in others && y in dom && y !in b.f && disk.tail.Clean?
    ensures Continues(h, dom, Solo(Saved(b), Idle, disk, acked, others), states, actions) && Harmless(actions)
    ensures forall k :: 0 <= k < |actions| ==> !actions[k].ReadWal?
    ensures var t := states[|actions|];
      && t.procs.Keys == others.Keys + {0} && (forall q :: q in others ==> t.procs[q] == others[q])
      && t.disk == Disk(Merge(Load(disk), Only(y, Token(h, kind, y))), [], Clean) && t.acked == acked && t.tears == 0
  {
    var token := Token(h, kind, y);
    var store, one := Enter(Saved(b), y, token), Only(y, token);
    NotEmpty(y, token);
    states, actions := MintsAnother(h, dom, b, y, kind, disk, acked, others);
    var s := Solo(Saved(b), Idle, disk, acked, others);
    var more, later := Appends(h, dom, states[1], store, disk, acked, others);
    states, actions := ContinuesOn(h, dom, s, states, actions, more, later);
    more, later := Folds(h, dom, store, one, Append(disk, one), acked, others);
    states, actions := ContinuesOn(h, dom, s, states, actions, more, later);
    AppendAdds(disk, one);
  }

  /** The first half: x's token is saved and acknowledged, into the log. */
  lemma SavesOne(h: TextFn, dom: set<string>, x: string, kind: string) returns (states: seq<State>, actions: seq<Action>)
    requires x in dom
    ensures Continues(h, dom, START, states, actions) && Harmless(actions)
    ensures var b := Only(x, Token(h, kind, x));
      states[|actions|] == Solo(Saved(b), Idle, Append(EMPTY_DISK, b), b, map[])
  {
    var b := Only(x, Token(h, kind, x));
    NotEmpty(x, Token(h, kind, x));
    states, actions := StartsAndMints(h, x, kind, dom);
    assert states[|actions|] == Solo(Minted(b), Idle, EMPTY_DISK, NOTHING, map[]).(procs := map[][0 := Running(Minted(b), map[])]);
    var more, later := Appends(h, dom, states[|actions|], Minted(b), EMPTY_DISK, NOTHING, map[]);
    states, actions := ContinuesOn(h, dom, START, states, actions, more, later);
    more, later := Reports(h, dom, b, Append(EMPTY_DISK, b), NOTHING, map[]);
    states, actions := ContinuesOn(h, dom, START, states, actions, more, later);
    MergeLaws(b, b, b);
  }

  /** The log is read last, on top of the snapshot that was read first. */
  lemma ReadsLog(h: TextFn, dom: set<string>, s: State, read: Batch) returns (states: seq<State>, actions: seq<Action>)
    requires 1 in s.procs && s.procs[1] == SnapshotRead(read) && s.disk.lines == [] && s.disk.tail == Clean
    ensures Continues(h, dom, s, states, actions) && actions == [ReadWal(1)]
    ensures states[1].disk == s.disk && states[1].tears == s.tears
    ensures IsRunning(states[1], 1) && states[1].procs[1].store == Fresh(read)
  {
    actions := [ReadWal(1)];
    states := [s, Step(h, s, actions[0])];
  }

  /** x's token is saved and acknowledged, and process 1 has read the snapshot. */
  lemma SavesThenHalfLoads(h: TextFn, dom: set<string>, x: string, kind: string)
      returns (states: seq<State>, actions: seq<Action>, m: nat)
    requires x in dom
    ensures Continues(h, dom, START, states, actions) && Harmless(actions)
    ensures m + 2 == |actions| && actions[m..] == [Spawn(1), ReadSnapshot(1)]
    ensures 1 !in states[m].procs && Token(h, kind, x) in states[m].acked.r
    ensures var b := Only(x, Token(h, kind, x));
      states[|actions|] == Solo(Saved(b), Idle, Append(EMPTY_DISK, b), b, map[1 := SnapshotRead(NOTHING)])
  {
    var b := Only(x, Token(h, kind, x));
    states, actions := SavesOne(h, dom, x, kind);
    m := |actions|;
    var more, later := HalfLoads(h, dom, Saved(b), Append(EMPTY_DISK, b), b);
    states, actions := ContinuesOn(h, dom, START, states, actions, more, later);
  }

  /**
    * The failing run, for any two originals: x's token is saved and acknowledged before process 1 is even
    * spawned, no append is torn and nothing crashes, and process 1 ends up with an empty store because a
    * compaction fell between its two reads. The files hold the token all the time.
    */
  lemma CompactionHidesAcknowledged(h: TextFn, x: string, kx: string, y: string, ky: string)
      returns (states: seq<State>, actions: seq<Action>, m: nat, i: nat, j: nat)
    requires x != y && Token(h, kx, x) != Token(h, ky, y)
    ensures IsRun(h, {x, y}, states, actions) && LoadsAt(states, actions, 1, i, j) && Harmless(actions)
    ensures m < i && 1 !in states[m].procs && Token(h, kx, x) in states[m].acked.r
    ensures var last := states[j + 1];
      && last.tears == 0 && Token(h, kx, x) in Load(last.disk).r
      && IsRunning(last, 1) && last.procs[1].store == Fresh(NOTHING)
  {
    var dom, b := {x, y}, Only(x, Token(h, kx, x));
    var disk := Append(EMPTY_DISK, b);
    states, actions, m := SavesThenHalfLoads(h, dom, x, kx);
    i := m + 1;
    assert actions[i] == actions[m..][1];
    var more, later := CompactsMeanwhile(h, dom, b, y, ky, disk, b, map[1 := SnapshotRead(NOTHING)]);
    states, actions := ContinuesOn(h, dom, START, states, actions, more, later);
    AppendAdds(EMPTY_DISK, b);
    j := |actions|;
    more, later := ReadsLog(h, dom, states[j], NOTHING);
    states, actions := ContinuesOn(h, dom, START, states, actions, more, later);
  }
}
