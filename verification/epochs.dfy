/**
  Session epochs end to end: the agent's durable counter, with crashes between any two
  system calls, and the coordinator's check-and-set admission.
 */
module Epochs {
  import opened Wrappers
  import opened Bytes
  import opened Framing
  import opened Admission
  import opened JobStore
  import opened JobFiles

  const EPOCH_FILE: Path := "session_epoch"

  /** The decimal text of the file, taken as given. */
  datatype Decimal = Decimal(show: U64Value -> seq<byte>, parse: seq<byte> -> Option<U64Value>) {
    ghost predicate RoundTrips() {
      forall n: U64Value :: parse(show(n)) == Some(n)
    }
  }

  // --- The agent's counter ---

  datatype Call = Idle | Reading | Writing(epoch: U64Value, stage: Stage)

  /** `issued` lists the epochs `next_epoch` has returned. */
  datatype Agent = Agent(disk: Disk, call: Call, issued: seq<U64Value>)

  datatype Event = Enter | Advance(c: Choice) | Kill | Stop(pick: map<Path, nat>, junk: map<Inode, seq<byte>>)

  /** The stored epoch, 0 for no file; none if the file cannot be parsed. */
  function Stored(dec: Decimal, d: Disk): Option<U64Value> {
    match View(d, EPOCH_FILE)
    case None => Some(0)
    case Some(i) => if i in d.content then dec.parse(d.content[i].bytes) else None
  }

  function Act(dec: Decimal, a: Agent, c: Choice): Agent {
    match a.call
    case Idle => a
    case Reading =>
      var stored := Stored(dec, a.disk);
      if c == Fail || stored.None? || stored.value == TWO_64 - 1 then a.(call := Idle)
      else a.(call := Writing(stored.value + 1, Creating))
    case Writing(n, stage) =>
      var (disk, r) := WriteStep(a.disk, EPOCH_FILE, dec.show(n), stage, c);
      match r
      case Next(s) => a.(disk := disk, call := Writing(n, s))
      case Failure => a.(disk := disk, call := Idle)
      case Written => Agent(disk, Idle, a.issued + [n])
  }

  function Step(dec: Decimal, a: Agent, e: Event): Agent {
    match e
    case Enter => if a.call == Idle then a.(call := Reading) else a
    case Advance(c) => Act(dec, a, c)
    case Kill => a.(call := Idle)
    case Stop(pick, junk) => a.(disk := Crash(a.disk, pick, junk), call := Idle)
  }

  function Run(dec: Decimal, disk: Disk, events: seq<Event>): Agent {
    if events == [] then Agent(disk, Idle, [])
    else Step(dec, Run(dec, disk, events[..|events| - 1]), events[|events| - 1])
  }

  function Newest(issued: seq<U64Value>): U64Value {
    if issued == [] then 0 else issued[|issued| - 1]
  }

  ghost predicate Increasing(s: seq<U64Value>) {
    forall i, j | 0 <= i < j < |s| :: s[i] < s[j]
  }

  /** Whatever entry a crash brings back, it stands at `floor` or above. */
  ghost predicate AtLeast(dec: Decimal, d: Disk, floor: U64Value) {
    forall x | x in History(d, EPOCH_FILE) :: Standing(dec, d, x, floor)
  }

  ghost predicate Standing(dec: Decimal, d: Disk, x: Option<Inode>, floor: U64Value) {
    match x
    case None => floor == 0
    case Some(i) =>
      && i in d.content && d.content[i].synced
      && exists m: U64Value | floor <= m :: d.content[i].bytes == dec.show(m)
  }

  ghost predicate Inv(dec: Decimal, a: Agent) {
    && DiskOk(a.disk, EPOCH_FILE)
    && Increasing(a.issued)
    && AtLeast(dec, a.disk, Newest(a.issued))
    && (a.call.Writing? ==>
          && Newest(a.issued) < a.call.epoch && HandleOk(EPOCH_FILE, a.call.stage)
          && Writer(a.disk, EPOCH_FILE, dec.show(a.call.epoch), a.call.stage))
  }

  lemma StoredStands(dec: Decimal, d: Disk, floor: U64Value)
    requires dec.RoundTrips() && AtLeast(dec, d, floor)
    ensures Stored(dec, d).Some? && floor <= Stored(dec, d).value
  {
    assert View(d, EPOCH_FILE) in History(d, EPOCH_FILE);
    assert Standing(dec, d, View(d, EPOCH_FILE), floor);
  }

  /** While the new number is on its way, the entries that were there keep standing; the new one joins them. */
  lemma WriteStands(dec: Decimal, d: Disk, n: U64Value, stage: Stage, c: Choice, floor: U64Value)
    requires DiskOk(d, EPOCH_FILE) && HandleOk(EPOCH_FILE, stage) && Writer(d, EPOCH_FILE, dec.show(n), stage)
    requires AtLeast(dec, d, floor) && floor <= n
    ensures AtLeast(dec, WriteStep(d, EPOCH_FILE, dec.show(n), stage, c).0, floor)
  {
    if stage.Renaming? || stage == FlushingDir {
      EntryStands(dec, d, n, stage, c, floor);
    } else {
      ContentStands(dec, d, n, stage, c, floor);
    }
  }

  lemma ContentStands(dec: Decimal, d: Disk, n: U64Value, stage: Stage, c: Choice, floor: U64Value)
    requires DiskOk(d, EPOCH_FILE) && HandleOk(EPOCH_FILE, stage) && Writer(d, EPOCH_FILE, dec.show(n), stage)
    requires AtLeast(dec, d, floor) && !stage.Renaming? && stage != FlushingDir
    ensures AtLeast(dec, WriteStep(d, EPOCH_FILE, dec.show(n), stage, c).0, floor)
  {
    hide History, Rename, SyncDir;
    var d' := WriteStep(d, EPOCH_FILE, dec.show(n), stage, c).0;
    assert d'.dir == d.dir;
    HistoryOf(d, EPOCH_FILE);
    forall x | x in History(d', EPOCH_FILE)
      ensures Standing(dec, d', x, floor)
    {
      assert Standing(dec, d, x, floor);
      assert x.Some? ==> x.value in d'.content && d'.content[x.value] == d.content[x.value];
    }
  }

  lemma EntryStands(dec: Decimal, d: Disk, n: U64Value, stage: Stage, c: Choice, floor: U64Value)
    requires Writer(d, EPOCH_FILE, dec.show(n), stage) && AtLeast(dec, d, floor) && floor <= n
    requires stage.Renaming? || stage == FlushingDir
    ensures AtLeast(dec, WriteStep(d, EPOCH_FILE, dec.show(n), stage, c).0, floor)
  {
    hide History, Rename, SyncDir;
    SyncDirHistory(d, EPOCH_FILE);
    if EPOCH_FILE in d.tmp {
      RenameHistory(d, EPOCH_FILE, EPOCH_FILE);
    }
    ViewIsEntry(d);
    var d' := WriteStep(d, EPOCH_FILE, dec.show(n), stage, c).0;
    assert d'.content == d.content;
    forall x | x in History(d', EPOCH_FILE)
      ensures Standing(dec, d', x, floor)
    {
      if x in History(d, EPOCH_FILE) {
        assert Standing(dec, d, x, floor);
      }
    }
  }

  lemma ViewIsEntry(d: Disk)
    ensures View(d, EPOCH_FILE) in History(d, EPOCH_FILE)
  {
  }

  lemma HoldsStands(dec: Decimal, d: Disk, n: U64Value)
    requires Holds(d, EPOCH_FILE, dec.show(n))
    ensures AtLeast(dec, d, n)
  {
  }

  lemma WritingInv(dec: Decimal, a: Agent, c: Choice)
    requires Inv(dec, a) && a.call.Writing?
    ensures Inv(dec, Act(dec, a, c))
  {
    hide DiskOk, HandleOk, Writer, Holds, AtLeast, WriteStep;
    var n, stage := a.call.epoch, a.call.stage;
    OwnPath(a.disk, EPOCH_FILE, dec.show(n), stage, c);
    WriteStands(dec, a.disk, n, stage, c, Newest(a.issued));
    var (disk, r) := WriteStep(a.disk, EPOCH_FILE, dec.show(n), stage, c);
    if r == Written {
      HoldsStands(dec, disk, n);
    }
  }

  lemma CrashStands(dec: Decimal, d: Disk, pick: map<Path, nat>, junk: map<Inode, seq<byte>>, floor: U64Value)
    requires DiskOk(d, EPOCH_FILE) && AtLeast(dec, d, floor)
    ensures DiskOk(Crash(d, pick, junk), EPOCH_FILE) && AtLeast(dec, Crash(d, pick, junk), floor)
  {
    CrashHistory(d, pick, junk, EPOCH_FILE);
    hide History;
    var d' := Crash(d, pick, junk);
    forall x | x in History(d', EPOCH_FILE)
      ensures Standing(dec, d', x, floor)
    {
      assert x in History(d, EPOCH_FILE) && Standing(dec, d, x, floor);
    }
  }

  lemma {:induction false} InvHolds(dec: Decimal, disk: Disk, events: seq<Event>)
    requires dec.RoundTrips() && DiskOk(disk, EPOCH_FILE) && AtLeast(dec, disk, 0)
    ensures Inv(dec, Run(dec, disk, events))
  {
    hide DiskOk, AtLeast, Act, Crash, Writer, HandleOk, Stored;
    if events != [] {
      var a, e := Run(dec, disk, events[..|events| - 1]), events[|events| - 1];
      InvHolds(dec, disk, events[..|events| - 1]);
      match e
      case Enter =>
      case Kill =>
      case Stop(pick, junk) => CrashStands(dec, a.disk, pick, junk, Newest(a.issued));
      case Advance(c) =>
        if a.call.Writing? {
          WritingInv(dec, a, c);
        } else {
          ReadingInv(dec, a, c);
        }
    }
  }

  lemma ReadingInv(dec: Decimal, a: Agent, c: Choice)
    requires dec.RoundTrips() && Inv(dec, a) && !a.call.Writing?
    ensures Inv(dec, Act(dec, a, c))
  {
    hide DiskOk, AtLeast, WriteStep, Stored;
    StoredStands(dec, a.disk, Newest(a.issued));
  }

  /** Across crashes at any step, every epoch handed out exceeds all handed out before. */
  lemma EpochsIncrease(dec: Decimal, disk: Disk, events: seq<Event>)
    requires dec.RoundTrips() && DiskOk(disk, EPOCH_FILE) && AtLeast(dec, disk, 0)
    ensures Increasing(Run(dec, disk, events).issued)
  {
    InvHolds(dec, disk, events);
  }

  function Again(dec: Decimal, a: Agent, n: nat): Agent
    decreases n
  {
    if n == 0 then a else Again(dec, Step(dec, a, Advance(Go)), n - 1)
  }

  lemma OneCall(dec: Decimal, a: Agent)
    requires Inv(dec, a) && a.call.Writing?
    ensures var a' := Step(dec, a, Advance(Go));
      && Inv(dec, a')
      && (if a.call.stage == FlushingDir then a'.call == Idle && a'.issued == a.issued + [a.call.epoch]
          else a'.call.Writing? && a'.call.epoch == a.call.epoch && Follows(a.call.stage, a'.call.stage)
               && a'.issued == a.issued)
  {
    hide WriteStep, DiskOk, AtLeast, HandleOk, Writer, Stored;
    GoesOn(a.disk, EPOCH_FILE, dec.show(a.call.epoch), a.call.stage);
    WritingInv(dec, a, Go);
  }

  /** A call none of whose system calls fails hands out the stored epoch plus one. */
  lemma UndisturbedCall(dec: Decimal, a: Agent)
    requires dec.RoundTrips() && Inv(dec, a) && a.call == Idle && Stored(dec, a.disk).Some?
             && Stored(dec, a.disk).value < TWO_64 - 1
    ensures Again(dec, Step(dec, a, Enter), 6).issued == a.issued + [Stored(dec, a.disk).value + 1]
    ensures Again(dec, Step(dec, a, Enter), 6).call == Idle
  {
    hide Act, Inv, Stored;
    var a0 := Step(dec, a, Enter);
    var a1 := Step(dec, a0, Advance(Go));
    ReadEpoch(dec, a);
    var a2 := Step(dec, a1, Advance(Go));
    var a3 := Step(dec, a2, Advance(Go));
    var a4 := Step(dec, a3, Advance(Go));
    var a5 := Step(dec, a4, Advance(Go));
    OneCall(dec, a1);
    OneCall(dec, a2);
    OneCall(dec, a3);
    OneCall(dec, a4);
    OneCall(dec, a5);
    assert Again(dec, a0, 6) == Again(dec, a1, 5) == Again(dec, a2, 4);
    assert Again(dec, a2, 4) == Again(dec, a3, 3) == Again(dec, a4, 2);
    assert Again(dec, a4, 2) == Again(dec, a5, 1) == Step(dec, a5, Advance(Go));
  }

  lemma ReadEpoch(dec: Decimal, a: Agent)
    requires dec.RoundTrips() && Inv(dec, a) && a.call == Idle && Stored(dec, a.disk).Some?
             && Stored(dec, a.disk).value < TWO_64 - 1
    ensures var a' := Step(dec, Step(dec, a, Enter), Advance(Go));
      Inv(dec, a') && a'.call == Writing(Stored(dec, a.disk).value + 1, Creating) && a'.issued == a.issued
  {
    hide DiskOk, AtLeast, WriteStep, Stored;
    ReadingInv(dec, Step(dec, a, Enter), Go);
  }

  /**
    A call goes on with the stored epoch plus one, or hands out nothing: on a file that does not
    parse, or at the end.
   */
  lemma ReadsOrRefuses(dec: Decimal, a: Agent, i: Inode)
    requires a.call == Reading && i in a.disk.content && View(a.disk, "session_epoch") == Some(i)
    ensures var a', n := Step(dec, a, Advance(Go)), dec.parse(a.disk.content[i].bytes);
      && a'.issued == a.issued && a'.disk == a.disk
      && a'.call == if n.None? || n.value == 0xffff_ffff_ffff_ffff then Idle else Writing(n.value + 1, Creating)
  {
  }

  // --- Both together ---

  /** One host's agent, the shared mark, and the epochs of the hellos that were admitted. */
  datatype System = System(agent: Agent, mark: Option<U64Value>, admitted: seq<U64Value>)

  /** `Hello` delivers any hello the agent ever signed, at any replica, as often as the network likes. */
  datatype SystemEvent = OnAgent(e: Event) | Hello(epoch: U64Value, reported: bool)

  predicate Admits(s: System, epoch: U64Value) {
    epoch <= I64_MAX && Above(s.mark, epoch)
  }

  /** The mark moves with the admission even where the store's answer is lost and no session results. */
  function SystemStep(dec: Decimal, s: System, e: SystemEvent): System {
    match e
    case OnAgent(e) => s.(agent := Step(dec, s.agent, e))
    case Hello(epoch, reported) =>
      if epoch !in s.agent.issued || !Admits(s, epoch) then s
      else s.(mark := Some(epoch), admitted := if reported then s.admitted + [epoch] else s.admitted)
  }

  function SystemRun(dec: Decimal, disk: Disk, events: seq<SystemEvent>): System {
    if events == [] then System(Agent(disk, Idle, []), None, [])
    else SystemStep(dec, SystemRun(dec, disk, events[..|events| - 1]), events[|events| - 1])
  }

  ghost predicate SystemInv(dec: Decimal, s: System) {
    && Inv(dec, s.agent)
    && Increasing(s.admitted)
    && (forall i | 0 <= i < |s.admitted| :: s.mark.Some? && s.admitted[i] <= s.mark.value)
    && (s.mark.Some? ==> s.mark.value in s.agent.issued)
  }

  lemma StepInv(dec: Decimal, a: Agent, e: Event)
    requires dec.RoundTrips() && Inv(dec, a)
    ensures Inv(dec, Step(dec, a, e)) && a.issued <= Step(dec, a, e).issued
  {
    hide DiskOk, AtLeast, Crash, Writer, HandleOk, Stored, WriteStep;
    match e
    case Enter =>
    case Kill =>
    case Stop(pick, junk) => CrashStands(dec, a.disk, pick, junk, Newest(a.issued));
    case Advance(c) =>
      if a.call.Writing? {
        WritingInv(dec, a, c);
      } else {
        ReadingInv(dec, a, c);
      }
  }

  lemma {:induction false} SystemHolds(dec: Decimal, disk: Disk, events: seq<SystemEvent>)
    requires dec.RoundTrips() && DiskOk(disk, EPOCH_FILE) && AtLeast(dec, disk, 0)
    ensures SystemInv(dec, SystemRun(dec, disk, events))
  {
    hide DiskOk, AtLeast, Inv, Step;
    if events == [] {
      InvHolds(dec, disk, []);
    } else {
      var s, e := SystemRun(dec, disk, events[..|events| - 1]), events[|events| - 1];
      SystemHolds(dec, disk, events[..|events| - 1]);
      if e.OnAgent? {
        StepInv(dec, s.agent, e.e);
        assert forall x | x in s.agent.issued :: x in Step(dec, s.agent, e.e).issued;
      }
    }
  }

  lemma NewestIsLargest(issued: seq<U64Value>, e: U64Value)
    requires Increasing(issued) && e in issued
    ensures e <= Newest(issued)
  {
    var i :| 0 <= i < |issued| && issued[i] == e;
  }

  /**
    Across agent crashes and coordinator restarts: admitted epochs strictly increase; a
    hello that was admitted is never admitted again; and the agent's newest hello is
    admitted unless it already was, if its epoch fits the store.
   */
  lemma NoResurrection(dec: Decimal, disk: Disk, events: seq<SystemEvent>, epoch: U64Value)
    requires dec.RoundTrips() && DiskOk(disk, EPOCH_FILE) && AtLeast(dec, disk, 0)
    ensures var s := SystemRun(dec, disk, events);
      && Increasing(s.admitted)
      && (epoch in s.admitted ==> !Admits(s, epoch))
      && (s.agent.issued != [] && epoch == Newest(s.agent.issued) && s.mark != Some(epoch) && epoch <= I64_MAX ==>
            Admits(s, epoch))
  {
    hide SystemRun, Inv;
    SystemHolds(dec, disk, events);
    var s := SystemRun(dec, disk, events);
    IssuedIncrease(dec, s.agent);
    if s.mark.Some? {
      NewestIsLargest(s.agent.issued, s.mark.value);
    }
  }

  lemma IssuedIncrease(dec: Decimal, a: Agent)
    requires Inv(dec, a)
    ensures Increasing(a.issued)
  {
  }
}
