/**
  The job store's files.  A directory entry that was renamed or removed reaches the
  disk only with the next directory fsync, so each path carries the history of the
  entries a crash may still bring back; file contents are safe once the file is synced.
 */
module JobStore {
  import opened Wrappers
  import opened Bytes

  type Path = string

  datatype Inode = Inode(path: Path, n: nat)

  datatype File = File(bytes: seq<byte>, synced: bool)

  /** `dir` maps a record path to its entries since the last directory fsync, the newest last. */
  datatype Disk = Disk(content: map<Inode, File>, tmp: map<Path, Inode>, dir: map<Path, seq<Option<Inode>>>, next: nat)

  function History(d: Disk, p: Path): (h: seq<Option<Inode>>)
    ensures h != []
  {
    if p in d.dir && d.dir[p] != [] then d.dir[p] else [None]
  }

  /** What a reader sees. */
  function View(d: Disk, p: Path): Option<Inode> {
    var h := History(d, p);
    h[|h| - 1]
  }

  /** No crash can make the record disappear. */
  ghost predicate Pinned(d: Disk, p: Path) {
    forall i | 0 <= i < |History(d, p)| :: History(d, p)[i].Some?
  }

  // --- The system calls ---

  /** Open the temp file, truncating one that is already there. */
  function Create(d: Disk, p: Path): (r: (Disk, Inode))
    ensures r.1.path == p || (p in d.tmp && r.1 == d.tmp[p])
  {
    if p in d.tmp then (d.(content := d.content[d.tmp[p] := File([], false)]), d.tmp[p])
    else
      var i := Inode(p, d.next);
      (d.(content := d.content[i := File([], false)], tmp := d.tmp[p := i], next := d.next + 1), i)
  }

  /** Write at offset zero through an open handle. */
  function Overwrite(d: Disk, i: Inode, data: seq<byte>): Disk {
    var was := if i in d.content then d.content[i].bytes else [];
    d.(content := d.content[i := File(data + (if |was| > |data| then was[|data|..] else []), false)])
  }

  function SyncFile(d: Disk, i: Inode): Disk {
    if i in d.content then d.(content := d.content[i := d.content[i].(synced := true)]) else d
  }

  function Rename(d: Disk, p: Path): Disk
    requires p in d.tmp
  {
    d.(dir := d.dir[p := History(d, p) + [Some(d.tmp[p])]], tmp := d.tmp - {p})
  }

  function SyncDir(d: Disk): Disk {
    d.(dir := map p | p in d.dir :: [View(d, p)])
  }

  function Remove(d: Disk, p: Path): Disk {
    d.(dir := d.dir[p := History(d, p) + [None]])
  }

  /**
    After a crash every record path shows one of the entries of its history, and a file
    that was not synced may hold anything.  A temp name that survives is truncated by
    its next creation, which is the same as its not surviving.
   */
  function Crash(d: Disk, pick: map<Path, nat>, junk: map<Inode, seq<byte>>): Disk {
    d.(dir := map p | p in d.dir ::
         var h := History(d, p);
         [h[if p in pick && pick[p] < |h| then pick[p] else |h| - 1]],
       content := map i | i in d.content ::
         if d.content[i].synced then d.content[i] else File(if i in junk then junk[i] else [], true),
       tmp := map[])
  }

  // --- Records ---

  datatype Reason =
    | InvalidJobId | StoreUnavailable | Interrupted | DeniedVerb(kind: string) | DeniedRunAs(runAs: string)
    | UnsupportedKind(kind: string) | MalformedParams | NoTerminalStatus | ExecFailed(message: string)

  datatype Terminal = ExitCode(code: int) | Signal(signal: int) | Error(reason: Reason)

  datatype Outcome = Outcome(terminal: Option<Terminal>, truncated: bool, timedOut: bool)

  function Failed(reason: Reason): Outcome {
    Outcome(Some(Error(reason)), false, false)
  }

  /** The message encoding, taken as given. */
  datatype Codec = Codec(encode: Outcome -> seq<byte>, decode: seq<byte> -> Option<Outcome>) {
    ghost predicate RoundTrips() {
      forall o :: decode(encode(o)) == Some(o)
    }
  }

  datatype JobState = Started | Done(outcome: Outcome)

  const TAG_STARTED: byte := 0
  const TAG_DONE: byte := 1

  function StartedRecord(): seq<byte> {
    [TAG_STARTED]
  }

  function DoneRecord(codec: Codec, o: Outcome): seq<byte> {
    [TAG_DONE] + codec.encode(o)
  }

  /** Anything that is not a complete terminal record reads as an interrupted job. */
  function Decode(codec: Codec, bytes: seq<byte>): JobState {
    if bytes != [] && bytes[0] == TAG_DONE then
      match codec.decode(bytes[1..])
      case Some(o) => if o.terminal.Some? then Done(o) else Started
      case None => Started
    else Started
  }

  lemma RecordRoundTrip(codec: Codec, o: Outcome)
    requires codec.RoundTrips() && o.terminal.Some?
    ensures Decode(codec, DoneRecord(codec, o)) == Done(o)
    ensures Decode(codec, StartedRecord()) == Started && StartedRecord() == [0]
  {
    assert DoneRecord(codec, o)[1..] == codec.encode(o);
  }

  /** A file reads as done exactly if it is the byte 1 and a decodable outcome with a terminal status, and as that. */
  lemma DoneIff(codec: Codec, bytes: seq<byte>, o: Outcome)
    ensures Decode(codec, bytes) == Done(o)
            <==> |bytes| > 0 && bytes[0] == 1 && codec.decode(bytes[1..]) == Some(o) && o.terminal.Some?
  {
  }

  // --- write_durably, one system call at a time ---

  datatype Stage = Creating | Filling(file: Inode) | Flushing(file: Inode) | Renaming(file: Inode) | FlushingDir

  /** How a system call ends. */
  datatype Choice = Go | Fail | FailAfter | Short(n: nat) | Emit(data: seq<byte>) | Exit(outcome: Outcome)

  datatype Progress = Next(stage: Stage) | Written | Failure

  function WriteStep(d: Disk, p: Path, bytes: seq<byte>, stage: Stage, c: Choice): (Disk, Progress) {
    if c == Fail then (d, Failure)
    else
      match stage
      case Creating =>
        var (d', i) := Create(d, p);
        (d', if c == FailAfter then Failure else Next(Filling(i)))
      case Filling(i) =>
        if c.Short? && c.n < |bytes| then (Overwrite(d, i, bytes[..c.n]), Failure)
        else (Overwrite(d, i, bytes), if c == FailAfter then Failure else Next(Flushing(i)))
      case Flushing(i) => (SyncFile(d, i), if c == FailAfter then Failure else Next(Renaming(i)))
      case Renaming(_) =>
        if p !in d.tmp then (d, Failure)
        else (Rename(d, p), if c == FailAfter then Failure else Next(FlushingDir))
      case FlushingDir => (SyncDir(d), if c == FailAfter then Failure else Written)
  }

  lemma SyncDirHistory(d: Disk, q: Path)
    ensures History(SyncDir(d), q) == [View(d, q)] && SyncDir(d) == d.(dir := SyncDir(d).dir)
  {
    if q in d.dir {
      assert SyncDir(d).dir[q] == [View(d, q)];
    }
  }

  lemma RenameHistory(d: Disk, p: Path, q: Path)
    requires p in d.tmp
    ensures History(Rename(d, p), q) == History(d, q) + (if q == p then [Some(d.tmp[p])] else [])
    ensures Rename(d, p) == d.(dir := Rename(d, p).dir, tmp := d.tmp - {p})
  {
  }

  lemma CrashHistory(d: Disk, pick: map<Path, nat>, junk: map<Inode, seq<byte>>, q: Path)
    ensures exists k | 0 <= k < |History(d, q)| :: History(Crash(d, pick, junk), q) == [History(d, q)[k]]
  {
    var h := History(d, q);
    var k := if q in pick && pick[q] < |h| then pick[q] else |h| - 1;
    if q in d.dir {
      assert Crash(d, pick, junk).dir[q] == [h[k]];
      assert History(Crash(d, pick, junk), q) == [h[k]];
    } else {
      assert History(Crash(d, pick, junk), q) == [h[0]];
    }
  }

  /** No step of a write unpins or hides any record, and finishing one pins its own. */
  lemma WriteStepPins(d: Disk, p: Path, bytes: seq<byte>, stage: Stage, c: Choice, q: Path)
    ensures var (d', r) := WriteStep(d, p, bytes, stage, c);
      && (Pinned(d, q) ==> Pinned(d', q))
      && (View(d, q).Some? ==> View(d', q).Some?)
      && (r == Next(FlushingDir) ==> View(d', p).Some?)
      && (r == Written ==> stage == FlushingDir && (View(d, p).Some? ==> Pinned(d', p)))
  {
    SyncDirHistory(d, q);
    SyncDirHistory(d, p);
    if p in d.tmp {
      RenameHistory(d, p, q);
      RenameHistory(d, p, p);
    }
    hide SyncDir, Rename;
  }

  lemma CrashPins(d: Disk, pick: map<Path, nat>, junk: map<Inode, seq<byte>>, q: Path)
    requires Pinned(d, q)
    ensures Pinned(Crash(d, pick, junk), q)
  {
    CrashHistory(d, pick, junk, q);
  }

  lemma PinnedIsSeen(d: Disk, p: Path)
    requires Pinned(d, p)
    ensures View(d, p).Some?
  {
  }
}
