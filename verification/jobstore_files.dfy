/**
  What a record file holds while it is written, and the store's operations as the agent
  calls them.
 */
module JobFiles {
  import opened Wrappers
  import opened Bytes
  import opened JobStore

  /** The path's entries and temp file are consistent with how files are created. */
  ghost predicate DiskOk(d: Disk, p: Path) {
    && (forall q | q in d.tmp :: d.tmp[q].path == q)
    && (p in d.tmp ==> d.tmp[p].n < d.next)
    && (forall x | x in History(d, p) && x.Some? ::
          x.value.path == p && x.value.n < d.next && (p in d.tmp ==> d.tmp[p] != x.value))
  }

  ghost predicate HandleOk(p: Path, stage: Stage) {
    match stage
    case Filling(i) => i.path == p
    case Flushing(i) => i.path == p
    case Renaming(i) => i.path == p
    case _ => true
  }

  /** How far a write of `bytes` to `p` has come. */
  ghost predicate Writer(d: Disk, p: Path, bytes: seq<byte>, stage: Stage) {
    match stage
    case Creating => true
    case Filling(i) => p in d.tmp && d.tmp[p] == i && i in d.content && d.content[i].bytes == []
    case Flushing(i) => p in d.tmp && d.tmp[p] == i && i in d.content && d.content[i].bytes == bytes
    case Renaming(i) => p in d.tmp && d.tmp[p] == i && i in d.content && d.content[i] == File(bytes, true)
    case FlushingDir =>
      View(d, p).Some? && View(d, p).value in d.content && d.content[View(d, p).value] == File(bytes, true)
  }

  /** Whatever a crash brings back, the path holds exactly these bytes. */
  ghost predicate Holds(d: Disk, p: Path, bytes: seq<byte>) {
    forall x | x in History(d, p) :: x.Some? && x.value in d.content && d.content[x.value] == File(bytes, true)
  }

  /** The path is untouched, except that a directory fsync may have settled it. */
  ghost predicate Keeps(d: Disk, d': Disk, p: Path) {
    && DiskOk(d', p)
    && (History(d', p) == History(d, p) || History(d', p) == [View(d, p)])
    && (p in d'.tmp <==> p in d.tmp) && (p in d.tmp ==> d'.tmp[p] == d.tmp[p])
    && (forall i: Inode | i.path == p ::
          && (i in d'.content <==> i in d.content)
          && (i in d.content ==> d'.content[i] == d.content[i]))
  }

  lemma OtherContent(d: Disk, q: Path, data: seq<byte>, stage: Stage, c: Choice, p: Path)
    requires p != q && DiskOk(d, p) && HandleOk(q, stage) && !stage.Renaming? && stage != FlushingDir
    ensures var (d', r) := WriteStep(d, q, data, stage, c); Keeps(d, d', p) && (r.Next? ==> HandleOk(q, r.stage))
  {
    hide History, Rename, SyncDir;
    var d' := WriteStep(d, q, data, stage, c).0;
    assert d'.dir == d.dir;
    HistoryOf(d, p);
  }

  lemma OtherEntry(d: Disk, q: Path, data: seq<byte>, stage: Stage, c: Choice, p: Path)
    requires p != q && DiskOk(d, p) && (stage.Renaming? || stage == FlushingDir)
    ensures var (d', r) := WriteStep(d, q, data, stage, c); Keeps(d, d', p) && (r.Next? ==> HandleOk(q, r.stage))
  {
    hide SyncDir, Rename, History;
    SyncDirHistory(d, p);
    if q in d.tmp {
      RenameHistory(d, q, p);
    }
  }

  lemma OtherPath(d: Disk, q: Path, data: seq<byte>, stage: Stage, c: Choice, p: Path)
    requires p != q && DiskOk(d, p) && HandleOk(q, stage)
    ensures var (d', r) := WriteStep(d, q, data, stage, c); Keeps(d, d', p) && (r.Next? ==> HandleOk(q, r.stage))
  {
    hide WriteStep, Keeps, DiskOk;
    if stage.Renaming? || stage == FlushingDir {
      OtherEntry(d, q, data, stage, c, p);
    } else {
      OtherContent(d, q, data, stage, c, p);
    }
  }

  /** The history depends on nothing but the directory. */
  lemma HistoryOf(d: Disk, p: Path)
    ensures forall d': Disk | d'.dir == d.dir :: History(d', p) == History(d, p)
  {
  }

  lemma OwnPath(d: Disk, p: Path, bytes: seq<byte>, stage: Stage, c: Choice)
    requires DiskOk(d, p) && HandleOk(p, stage) && Writer(d, p, bytes, stage)
    ensures var (d', r) := WriteStep(d, p, bytes, stage, c);
      && DiskOk(d', p)
      && (r.Next? ==> HandleOk(p, r.stage) && Writer(d', p, bytes, r.stage))
      && (r == Written ==> Holds(d', p, bytes))
  {
    SyncDirHistory(d, p);
    if p in d.tmp {
      RenameHistory(d, p, p);
    }
  }

  lemma KeepsWriter(d: Disk, d': Disk, p: Path, bytes: seq<byte>, stage: Stage)
    requires DiskOk(d, p) && Keeps(d, d', p)
    ensures Writer(d, p, bytes, stage) ==> Writer(d', p, bytes, stage)
    ensures Holds(d, p, bytes) ==> Holds(d', p, bytes)
  {
    assert View(d', p) == View(d, p) && View(d, p) in History(d, p);
  }

  /** The order of the system calls. */
  predicate Follows(a: Stage, b: Stage) {
    match a
    case Creating => b.Filling?
    case Filling(_) => b.Flushing?
    case Flushing(_) => b.Renaming?
    case Renaming(_) => b == FlushingDir
    case FlushingDir => false
  }

  /** A call that does not fail takes a write to its next stage, and the last one ends it. */
  lemma GoesOn(d: Disk, p: Path, bytes: seq<byte>, stage: Stage)
    requires Writer(d, p, bytes, stage)
    ensures var r := WriteStep(d, p, bytes, stage, Go).1;
      if stage == FlushingDir then r == Written else r.Next? && Follows(stage, r.stage)
  {
  }

  /** The directory fsync is needed: after the rename alone a crash can still bring back "never seen". */
  lemma RenameIsNotDurable(d: Disk, p: Path)
    requires p in d.tmp && History(d, p) == [None]
    ensures View(Rename(d, p), p).Some?
    ensures exists pick :: View(Crash(Rename(d, p), pick, map[]), p) == None
    ensures forall pick, junk :: View(Crash(SyncDir(Rename(d, p)), pick, junk), p).Some?
  {
    var pick: map<Path, nat> := map[p := 0];
    assert History(Rename(d, p), p) == [None, Some(d.tmp[p])];
    assert View(Crash(Rename(d, p), pick, map[]), p) == None;
    forall pick, junk
      ensures View(Crash(SyncDir(Rename(d, p)), pick, junk), p).Some?
    {
      SyncDirHistory(Rename(d, p), p);
      CrashHistory(SyncDir(Rename(d, p)), pick, junk, p);
    }
  }

  class Store {
    const hash: seq<byte> -> Path
    const codec: Codec
    var disk: Disk

    constructor (hash: seq<byte> -> Path, codec: Codec, disk: Disk)
      ensures this.hash == hash && this.codec == codec && this.disk == disk
    {
      this.hash, this.codec, this.disk := hash, codec, disk;
    }

    /** One system call of a write: `Fail` has no effect, `FailAfter` has its effect and still fails. */
    method Call(p: Path, bytes: seq<byte>, stage: Stage) returns (r: Progress)
      requires DiskOk(disk, p) && HandleOk(p, stage) && Writer(disk, p, bytes, stage)
      modifies this`disk
      ensures DiskOk(disk, p) && (old(Pinned(disk, p)) ==> Pinned(disk, p))
      ensures r.Next? ==> HandleOk(p, r.stage) && Writer(disk, p, bytes, r.stage) && Follows(stage, r.stage)
      ensures r == Written ==> stage == FlushingDir && Holds(disk, p, bytes)
      ensures r != Failure ==> (r == Written <==> stage == FlushingDir)
    {
      hide DiskOk, Writer, Holds, Pinned;
      var c := Go;
      if * {
        c := Fail;
      } else if * {
        c := FailAfter;
      } else if * {
        var n: nat := *;
        c := Short(n);
      }
      OwnPath(disk, p, bytes, stage, c);
      WriteStepPins(disk, p, bytes, stage, c, p);
      var (d, next) := WriteStep(disk, p, bytes, stage, c);
      disk, r := d, next;
    }

    /**
      Temp file, fsync, rename, directory fsync; any of them may fail, before or after
      taking effect.  On success the path holds exactly these bytes whatever crash
      follows; on failure a record that could not disappear before still cannot.
     */
    method WriteDurably(p: Path, bytes: seq<byte>) returns (ok: bool)
      requires DiskOk(disk, p)
      modifies this`disk
      ensures DiskOk(disk, p)
      ensures ok ==> Holds(disk, p, bytes)
      ensures old(Pinned(disk, p)) ==> Pinned(disk, p)
    {
      hide DiskOk, Holds, Pinned;
      ok := false;
      var created := Call(p, bytes, Creating);
      if created == Failure { return; }
      var filled := Call(p, bytes, created.stage);
      if filled == Failure { return; }
      var flushed := Call(p, bytes, filled.stage);
      if flushed == Failure { return; }
      var renamed := Call(p, bytes, flushed.stage);
      if renamed == Failure { return; }
      var settled := Call(p, bytes, renamed.stage);
      ok := settled == Written;
    }

    /** The recorded state of a job, or an error if the record cannot be read. */
    method Lookup(j: seq<byte>) returns (r: Result<Option<JobState>, ()>)
      ensures r.Ok? ==> (r.value.None? <==> View(disk, hash(j)).None?)
      ensures forall o: Outcome | r.Ok? && codec.RoundTrips() && o.terminal.Some?
                                  && Holds(disk, hash(j), DoneRecord(codec, o)) ::
                r.value == Some(Done(o))
      ensures r.Ok? && Holds(disk, hash(j), StartedRecord()) ==> r.value == Some(Started)
    {
      if * {
        return Err(());
      }
      var v := View(disk, hash(j));
      assert v in History(disk, hash(j));
      if v.None? {
        return Ok(None);
      }
      if v.value !in disk.content {
        return Ok(Some(Started));
      }
      r := Ok(Some(Decode(codec, disk.content[v.value].bytes)));
      forall o: Outcome | codec.RoundTrips() && o.terminal.Some? && Holds(disk, hash(j), DoneRecord(codec, o))
        ensures r.value == Some(Done(o))
      {
        RecordRoundTrip(codec, o);
      }
    }

    method MarkStarted(j: seq<byte>) returns (ok: bool)
      requires DiskOk(disk, hash(j))
      modifies this`disk
      ensures DiskOk(disk, hash(j)) && (ok ==> Holds(disk, hash(j), StartedRecord()))
      ensures old(Pinned(disk, hash(j))) ==> Pinned(disk, hash(j))
    {
      ok := WriteDurably(hash(j), StartedRecord());
    }

    method RecordDone(j: seq<byte>, outcome: Outcome) returns (ok: bool)
      requires DiskOk(disk, hash(j))
      modifies this`disk
      ensures DiskOk(disk, hash(j)) && (ok ==> Holds(disk, hash(j), DoneRecord(codec, outcome)))
      ensures old(Pinned(disk, hash(j))) ==> Pinned(disk, hash(j))
    {
      ok := WriteDurably(hash(j), DoneRecord(codec, outcome));
    }
  }
}
