/** On-disk format of the file backend: a JSON snapshot with a line-per-batch write-ahead log on top. */
module Wal {

  /** Forward (original to token) and reverse (token to original) entries, as one JSON object holds them. */
  datatype Batch = Batch(f: map<string, string>, r: map<string, string>)

  const NOTHING: Batch := Batch(map[], map[])

  /** dict.update: the right-hand entries win. */
  function Merge(a: Batch, b: Batch): Batch
  {
    Batch(a.f + b.f, a.r + b.r)
  }

  /** A terminated WAL line: one batch, or text that json.loads rejects. */
  datatype Line = Good(batch: Batch) | Bad

  /** What follows the last newline: nothing, part of a batch, or a whole batch lacking only its newline. */
  datatype Tail = Clean | Fragment | Unterminated(batch: Batch)

  datatype Disk = Disk(snapshot: Batch, lines: seq<Line>, tail: Tail)

  const EMPTY_DISK: Disk := Disk(NOTHING, [], Clean)

  function ApplyLine(base: Batch, line: Line): Batch
  {
    match line
    case Good(b) => Merge(base, b)
    case Bad => base
  }

  function Replay(base: Batch, lines: seq<Line>): Batch
    decreases |lines|
  {
    if lines == [] then base else Replay(ApplyLine(base, lines[0]), lines[1..])
  }

  function ApplyTail(base: Batch, tail: Tail): Batch
  {
    if tail.Unterminated? then Merge(base, tail.batch) else base
  }

  function ReplayFile(base: Batch, disk: Disk): Batch
  {
    ApplyTail(Replay(base, disk.lines), disk.tail)
  }

  function Load(disk: Disk): Batch
  {
    ReplayFile(disk.snapshot, disk)
  }

  /** A complete append; after a torn one it lands on the same line and the whole line is unreadable. */
  function Append(disk: Disk, b: Batch): Disk
  {
    disk.(lines := disk.lines + [if disk.tail.Clean? then Good(b) else Bad], tail := Clean)
  }

  /** An append cut short; `whole` when only the newline is missing. */
  function TornAppend(disk: Disk, b: Batch, whole: bool): Disk
  {
    disk.(tail := if disk.tail.Clean? && whole then Unterminated(b) else Fragment)
  }

  function WithSnapshot(disk: Disk, full: Batch): Disk
  {
    disk.(snapshot := full)
  }

  function WithoutWal(disk: Disk): Disk
  {
    disk.(lines := [], tail := Clean)
  }

  function LineCount(disk: Disk): nat
  {
    |disk.lines| + if disk.tail.Clean? then 0 else 1
  }

  // ------------------------------------------------------------------ replay laws

  lemma MergeLaws(a: Batch, b: Batch, c: Batch)
    ensures Merge(Merge(a, b), c) == Merge(a, Merge(b, c))
    ensures Merge(Merge(a, b), b) == Merge(a, b)
    ensures Merge(a, NOTHING) == a && Merge(NOTHING, a) == a
  {
    assert (a.f + b.f) + c.f == a.f + (b.f + c.f) && (a.r + b.r) + c.r == a.r + (b.r + c.r);
    assert (a.f + b.f) + b.f == a.f + b.f && (a.r + b.r) + b.r == a.r + b.r;
    assert a.f + map[] == a.f && a.r + map[] == a.r && map[] + a.f == a.f && map[] + a.r == a.r;
  }

  /** Replaying a log overlays one fixed batch, whatever it is replayed onto. */
  lemma {:induction false} ReplayOverlays(base: Batch, lines: seq<Line>)
    ensures Replay(base, lines) == Merge(base, Replay(NOTHING, lines))
    decreases |lines|
  {
    MergeLaws(base, NOTHING, NOTHING);
    if lines != [] {
      var d := Replay(NOTHING, lines[1..]);
      ReplayOverlays(ApplyLine(base, lines[0]), lines[1..]);
      ReplayOverlays(ApplyLine(NOTHING, lines[0]), lines[1..]);
      if lines[0].Good? {
        MergeLaws(base, lines[0].batch, d);
        MergeLaws(lines[0].batch, d, d);
      }
    }
  }

  ghost function Overlay(disk: Disk): Batch
  {
    ReplayFile(NOTHING, disk)
  }

  lemma FileOverlays(base: Batch, disk: Disk)
    ensures ReplayFile(base, disk) == Merge(base, Overlay(disk))
  {
    ReplayOverlays(base, disk.lines);
    if disk.tail.Unterminated? {
      MergeLaws(base, Replay(NOTHING, disk.lines), disk.tail.batch);
    }
  }

  /** Writing the loaded state as snapshot changes nothing, before and after the log is removed. */
  lemma SnapshotOfLoadIsInvisible(disk: Disk)
    ensures Load(WithSnapshot(disk, Load(disk))) == Load(disk)
    ensures Load(WithoutWal(WithSnapshot(disk, Load(disk)))) == Load(disk)
  {
    var full := Load(disk);
    FileOverlays(disk.snapshot, disk);
    FileOverlays(full, WithSnapshot(disk, full));
    assert Overlay(WithSnapshot(disk, full)) == Overlay(disk);
    MergeLaws(disk.snapshot, Overlay(disk), Overlay(disk));
  }

  lemma {:induction false} ReplayAppend(base: Batch, lines: seq<Line>, line: Line)
    ensures Replay(base, lines + [line]) == ApplyLine(Replay(base, lines), line)
    decreases |lines|
  {
    if lines == [] {
      assert [] + [line] == [line];
    } else {
      assert (lines + [line])[1..] == lines[1..] + [line];
      ReplayAppend(ApplyLine(base, lines[0]), lines[1..], line);
    }
  }

  /** A complete append to a clean log adds exactly its batch. */
  lemma AppendAdds(disk: Disk, b: Batch)
    ensures disk.tail.Clean? ==> Load(Append(disk, b)) == Merge(Load(disk), b)
    ensures !disk.tail.Clean? ==> Load(Append(disk, b)) == Replay(disk.snapshot, disk.lines)
  {
    ReplayAppend(disk.snapshot, disk.lines, if disk.tail.Clean? then Good(b) else Bad);
  }

  /**
    * A torn append costs more than itself: the next complete batch lands on the same line and is
    * skipped with it, although its save() succeeds. Appends after that are readable again.
    */
  lemma TornAppendCostsTheNext(disk: Disk, torn: Batch, whole: bool, next: Batch, third: Batch)
    requires disk.tail.Clean?
    ensures Load(Append(TornAppend(disk, torn, whole), next)) == Load(disk)
    ensures Load(Append(Append(TornAppend(disk, torn, whole), next), third)) == Merge(Load(disk), third)
  {
    AppendAdds(TornAppend(disk, torn, whole), next);
    AppendAdds(Append(TornAppend(disk, torn, whole), next), third);
  }
}
