/** The file provider and the token store as the objects the source updates in place (src/anonymize.py). */
module TokenStore {
  import opened Spans
  import opened Sorting
  import opened Tokens
  import opened Wal
  import opened StoreState
  import opened Optional

  class FileStorageProvider {
    var snapshot: Batch
    var lines: seq<Line>
    var tail: Tail
    const compactThreshold: nat

    constructor (threshold: nat, initial: Disk)
      ensures Contents() == initial && compactThreshold == threshold
    {
      snapshot, lines, tail := initial.snapshot, initial.lines, initial.tail;
      compactThreshold := threshold;
    }

    function Contents(): Disk
      reads this
    {
      Disk(snapshot, lines, tail)
    }

    method LoadAll() returns (loaded: Batch)
      ensures loaded == Load(Contents())
    {
      loaded := snapshot;
      for i := 0 to |lines|
        invariant Replay(loaded, lines[i..]) == Replay(snapshot, lines)
      {
        loaded := ApplyLine(loaded, lines[i]);
      }
      loaded := ApplyTail(loaded, tail);
    }

    method SaveSnapshot(full: Batch)
      modifies this`snapshot
      ensures Contents() == WithSnapshot(old(Contents()), full)
    {
      snapshot := full;
    }

    /** Folding the log into the snapshot shortens the file and changes nothing a reader can see. */
    method Compact()
      modifies this
      ensures lines == [] && tail == Clean
      ensures Load(Contents()) == old(Load(Contents()))
    {
      SnapshotOfLoadIsInvisible(Contents());
      var full := LoadAll();
      SaveSnapshot(full);
      lines, tail := [], Clean;
    }

    /** One batch is added; what was readable before stays readable when the log ends cleanly. */
    method SaveIncremental(batch: Batch) returns (handled: bool)
      modifies this
      ensures handled
      ensures batch == NOTHING ==> Contents() == old(Contents())
      ensures batch != NOTHING ==> tail == Clean && Load(Contents()) == old(Load(Append(Contents(), batch)))
      ensures old(tail) == Clean ==> Load(Contents()) == Merge(old(Load(Contents())), batch)
      ensures batch != NOTHING ==> |lines| < compactThreshold || lines == []
    {
      AppendAdds(Contents(), batch);
      MergeLaws(Load(Contents()), batch, batch);
      if batch.f == map[] && batch.r == map[] {
        return true;
      }
      lines := lines + [if tail.Clean? then Good(batch) else Bad];
      tail := Clean;
      if LineCount(Contents()) >= compactThreshold {
        Compact();
      }
      return true;
    }
  }

  class TokenStore {
    const h: TextFn
    const provider: FileStorageProvider
    const saveEvery: nat
    var callsSinceSave: nat
    var forward: Pairs
    var reverse: Pairs
    var pendingForward: Pairs
    var pendingReverse: Pairs

    function State(): Store
      reads this
    {
      Store(forward, reverse, pendingForward, pendingReverse)
    }

    constructor (h: TextFn, provider: FileStorageProvider, saveEveryNCalls: nat)
      ensures State() == Fresh(Load(provider.Contents())) && callsSinceSave == 0
      ensures this.h == h && this.provider == provider && saveEvery == Max1(saveEveryNCalls)
    {
      this.h := h;
      this.provider := provider;
      saveEvery := Max1(saveEveryNCalls);
      callsSinceSave := 0;
      new;
      var loaded := provider.LoadAll();
      forward, reverse := loaded.f, loaded.r;
      pendingForward, pendingReverse := map[], map[];
    }

    method GetOrCreateToken(original: string, kind: string) returns (token: string)
      modifies this
      ensures State() == Mint(h, old(State()), original, kind) && callsSinceSave == old(callsSinceSave)
      ensures token == TokenOf(State(), original)
      ensures forall dom :: DigestShape(h) && NoCollision(h, dom) && original in dom && ValidStore(h, dom, old(State()))
                ==> ValidStore(h, dom, State())
    {
      forall dom | DigestShape(h) && NoCollision(h, dom) && original in dom && ValidStore(h, dom, State())
        ensures ValidStore(h, dom, Mint(h, State(), original, kind))
      {
        MintKeepsValid(h, dom, State(), original, kind);
      }
      if original in forward {
        return forward[original];
      }
      token := Token(h, kind, original);
      forward := forward[original := token];
      reverse := reverse[token := original];
      pendingForward := pendingForward[original := token];
      pendingReverse := pendingReverse[token := original];
    }

    /**
      * A valid store answers every token it has handed out with the original it was minted for, and
      * whatever else it answers is an original whose token this is.
      */
    method Resolve(token: string) returns (original: Option<string>)
      ensures original == if token in reverse then Some(reverse[token]) else None
      ensures forall dom, x :: ValidStore(h, dom, State()) && x in forward && TokenOf(State(), x) == token ==> original == Some(x)
      ensures forall dom :: ValidStore(h, dom, State()) && original.Some? ==> IsToken(h, dom, token, original.value)
    {
      original := if token in reverse then Some(reverse[token]) else None;
    }

    /**
      * Debounced save. When it reports a write, everything pending is readable from a clean log and
      * nothing is pending any more; otherwise only the call counter moved.
      */
    method Save(force: bool) returns (wrote: bool)
      modifies this, provider
      ensures wrote == (force || old(callsSinceSave) + 1 >= saveEvery)
      ensures !wrote ==> State() == old(State()) && provider.Contents() == old(provider.Contents())
                         && callsSinceSave == old(callsSinceSave) + 1
      ensures wrote ==> State() == Persisted(old(State()), Pending(old(State()))) && callsSinceSave == 0
                        && pendingForward == map[] && pendingReverse == map[]
      ensures wrote && old(provider.tail) == Clean ==>
                Load(provider.Contents()) == Merge(old(Load(provider.Contents())), Pending(old(State())))
    {
      callsSinceSave := callsSinceSave + 1;
      if !(force || callsSinceSave >= saveEvery) {
        return false;
      }
      callsSinceSave := 0;
      var sent := Batch(pendingForward, pendingReverse);
      var handled := provider.SaveIncremental(sent);
      assert handled;
      pendingForward := pendingForward - sent.f.Keys;
      pendingReverse := pendingReverse - sent.r.Keys;
      return true;
    }
  }

  function Max1(n: nat): nat { if n == 0 then 1 else n }

  /** tokenize on the live store: same text and same store as the specification's pass. */
  method Tokenize(lower: TextFn, text: string, spans: seq<Span>, store: TokenStore) returns (out: string)
    modifies store
    ensures (store.State(), out) == Tokenized(store.h, lower, old(store.State()), text, spans)
    ensures store.callsSinceSave == old(store.callsSinceSave)
  {
    var deduped := DedupSpans(spans);
    var ordered := Sort(StartGe, deduped);
    out := text;
    for i := 0 to |ordered|
      invariant TokenizeFrom(store.h, lower, store.State(), out, ordered[i..])
             == Tokenized(store.h, lower, old(store.State()), text, spans)
      invariant store.callsSinceSave == old(store.callsSinceSave)
    {
      var x := ordered[i];
      var original := Slice(out, x.start, x.end);
      var token := store.GetOrCreateToken(original, lower(x.etype));
      out := ReplaceAt(out, x, token);
    }
  }
}
