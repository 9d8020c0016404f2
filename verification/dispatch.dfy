/**
  The agent's job runner as a transition system.  Any number of deliveries run
  concurrently; each `Advance` is one atomic action of one of them, every system call
  may fail before or after taking effect, and between any two actions the process may die
  (`Kill`, which leaves the files as they are seen) or the host may stop (`Stop`, which
  leaves of them what had reached the disk).  An event that is not enabled changes
  nothing, so a run is any sequence of events.
 */
module Dispatch {
  import opened Wrappers
  import opened Bytes
  import opened Allowlist
  import opened JobStore

  type JobId = seq<byte>

  datatype Dispatch = Dispatch(job: JobId, kind: string, runAs: string, params: seq<byte>)

  /** What the runner is configured with: the record naming, the encodings, the host's backstop. */
  datatype Config = Config(hash: JobId -> Path, codec: Codec, allowlist: LocalAllowlist,
                           paramsDecode: seq<byte> -> bool)

  datatype Msg = Chunk(data: seq<byte>) | Final(outcome: Outcome)

  /** What a delivery learned about its job before doing anything. */
  datatype Answer = Unasked | Refused | Busy | Missing | Found(state: JobState) | Unreadable

  datatype Purpose = Start | Record(outcome: Outcome)

  datatype Phase =
    | Arrived | Claimed | Cleared | Writing(why: Purpose, stage: Stage) | Ready | Running
    | Closing(outcome: Outcome) | Sent | Gone

  /**
    One delivery.  As history: `after` is the outcome that was on record when it arrived,
    `exit` how its process ended, `kept` whether the record of that was written.
   */
  datatype Task = Task(
    d: Dispatch,
    phase: Phase,
    answer: Answer,
    sent: seq<Msg>,
    after: Option<Outcome>,
    exit: Option<Outcome>,
    kept: Option<bool>)

  /** Tasks and claims are lost in a crash; the disk is not. `log`, `prunes` and `recorded` are history. */
  datatype State = State(
    tasks: map<nat, Task>,
    claims: set<JobId>,
    disk: Disk,
    starting: bool,
    log: seq<Dispatch>,
    prunes: map<Path, nat>,
    recorded: map<JobId, Outcome>)

  datatype Event =
    | Deliver(t: nat, d: Dispatch)
    | Advance(t: nat, c: Choice)
    | Kill
    | Stop(pick: map<Path, nat>, junk: map<Inode, seq<byte>>)
    | Prune(p: Path)

  const MAX_JOB_ID_LEN := 256
  const KIND := "exec"

  function Init(disk: Disk): State {
    State(map[], {}, disk, true, [], map[], map[])
  }

  function Prunes(s: State, p: Path): nat {
    if p in s.prunes then s.prunes[p] else 0
  }

  /** How often the job's process was started. */
  function Starts(log: seq<Dispatch>, j: JobId): nat {
    if log == [] then 0
    else Starts(log[..|log| - 1], j) + (if log[|log| - 1].job == j then 1 else 0)
  }

  /** The verdict of everything checked between the lookup and the start marker. */
  function Precheck(cfg: Config, d: Dispatch): Option<Outcome> {
    match cfg.allowlist.Permits(d.kind, d.runAs)
    case Err(Verb(kind)) => Some(Failed(DeniedVerb(kind)))
    case Err(RunAs(user)) => Some(Failed(DeniedRunAs(user)))
    case Ok(_) =>
      if d.kind != KIND then Some(Failed(UnsupportedKind(d.kind)))
      else if !cfg.paramsDecode(d.params) then Some(Failed(MalformedParams))
      else None
  }

  /** What the host's backstop, the kind and the parameters must be for a job to be run. */
  predicate Permitted(cfg: Config, d: Dispatch) {
    cfg.allowlist.Permits(d.kind, d.runAs).Ok? && d.kind == "exec" && cfg.paramsDecode(d.params)
  }

  /** One error, and nothing else about the run that did not happen. */
  predicate Says(o: Outcome, reason: Reason) {
    o.terminal == Some(Error(reason)) && !o.truncated && !o.timedOut
  }

  /** Why a job that has no record was not run: the backstop, the kind, the parameters, or else the store. */
  predicate TurnedAway(cfg: Config, d: Dispatch, o: Outcome) {
    match cfg.allowlist.Permits(d.kind, d.runAs)
    case Err(Verb(_)) => Says(o, DeniedVerb(d.kind))
    case Err(RunAs(_)) => Says(o, DeniedRunAs(d.runAs))
    case Ok(_) =>
      Says(o, if d.kind != "exec" then UnsupportedKind(d.kind)
              else if !cfg.paramsDecode(d.params) then MalformedParams
              else StoreUnavailable)
  }

  /** The check refuses exactly what is not permitted, with the reason the operator is owed. */
  lemma PrecheckIs(cfg: Config, d: Dispatch)
    ensures Precheck(cfg, d) == None <==> Permitted(cfg, d)
    ensures Precheck(cfg, d).Some? ==> TurnedAway(cfg, d, Precheck(cfg, d).value)
    ensures Permitted(cfg, d) ==> TurnedAway(cfg, d, Failed(StoreUnavailable))
  {
  }

  function RecordBytes(cfg: Config, why: Purpose): seq<byte> {
    match why
    case Start => StartedRecord()
    case Record(o) => DoneRecord(cfg.codec, o)
  }

  /** What follows a store write: a start marker gates the start, a lost outcome record is still reported. */
  function AfterWrite(why: Purpose, r: Progress): Phase {
    match r
    case Next(stage) => Writing(why, stage)
    case Written => if why == Start then Ready else Closing(why.outcome)
    case Failure => Closing(if why == Start then Failed(StoreUnavailable) else why.outcome)
  }

  /** What the store says about a job. */
  function Lookup(cfg: Config, disk: Disk, j: JobId): Option<JobState> {
    match View(disk, cfg.hash(j))
    case None => None
    case Some(i) => Some(if i in disk.content then Decode(cfg.codec, disk.content[i].bytes) else Started)
  }

  /** A delivery's next state, given the claim set, the store's answer and the result of its own write, if any. */
  function Move(cfg: Config, k: Task, c: Choice, claimed: bool, seen: Option<JobState>, r: Progress): Task {
    match k.phase
    case Arrived =>
      if |k.d.job| == 0 || |k.d.job| > MAX_JOB_ID_LEN then k.(phase := Closing(Failed(InvalidJobId)), answer := Refused)
      else if claimed then k.(phase := Gone, answer := Busy)
      else k.(phase := Claimed)
    case Claimed =>
      if c == Fail then k.(phase := Closing(Failed(StoreUnavailable)), answer := Unreadable)
      else if seen.None? then k.(phase := Cleared, answer := Missing)
      else k.(phase := Closing(if seen.value.Done? then seen.value.outcome else Failed(Interrupted)),
              answer := Found(seen.value))
    case Cleared =>
      k.(phase := match Precheck(cfg, k.d) case Some(o) => Closing(o) case None => Writing(Start, Creating))
    case Writing(why, _) =>
      k.(phase := AfterWrite(why, r), kept := if why == Start || r.Next? then k.kept else Some(r == Written))
    case Ready => k.(phase := Running)
    case Running =>
      if c.Emit? then k.(sent := k.sent + [Chunk(c.data)])
      else if c.Exit? && c.outcome.terminal.Some? then
        k.(phase := Writing(Record(c.outcome), Creating), exit := Some(c.outcome))
      else k
    case Closing(o) => k.(phase := Sent, sent := k.sent + [Final(o)])
    case Sent => k.(phase := Gone)
    case Gone => k
  }

  /** The claim is taken on the way in and dropped on every way out. */
  function Claims(claims: set<JobId>, k: Task, k': Task): set<JobId> {
    if k.phase == Arrived && k'.phase == Claimed then claims + {k.d.job}
    else if k.phase == Sent && k.answer != Refused then claims - {k.d.job}
    else claims
  }

  /** The store write a delivery is in the middle of, one system call further. */
  function Persist(cfg: Config, disk: Disk, k: Task, c: Choice): (Disk, Progress) {
    if k.phase.Writing? then WriteStep(disk, cfg.hash(k.d.job), RecordBytes(cfg, k.phase.why), k.phase.stage, c)
    else (disk, Failure)
  }

  /** One action of one delivery. */
  function Act(cfg: Config, s: State, t: nat, c: Choice): State
    requires t in s.tasks
  {
    var k := s.tasks[t];
    var (disk, r) := Persist(cfg, s.disk, k, c);
    var k' := Move(cfg, k, c, k.d.job in s.claims, Lookup(cfg, s.disk, k.d.job), r);
    s.(tasks := s.tasks[t := k'],
       claims := Claims(s.claims, k, k'),
       disk := disk,
       log := if k.phase == Ready then s.log + [k.d] else s.log,
       recorded := if k.phase.Writing? && k.phase.why.Record? && r == Written
                   then s.recorded[k.d.job := k.phase.why.outcome] else s.recorded)
  }

  function Step(cfg: Config, s: State, e: Event): State {
    match e
    case Deliver(t, d) =>
      if t in s.tasks then s
      else
        var after := if d.job in s.recorded then Some(s.recorded[d.job]) else None;
        s.(tasks := s.tasks[t := Task(d, Arrived, Unasked, [], after, None, None)], starting := false)
    case Advance(t, c) => if t in s.tasks then Act(cfg, s, t, c) else s
    case Kill => s.(tasks := map[], claims := {}, starting := true)
    case Stop(pick, junk) => s.(tasks := map[], claims := {}, disk := Crash(s.disk, pick, junk), starting := true)
    case Prune(p) =>
      if s.starting && View(s.disk, p).Some? then
        s.(disk := Remove(s.disk, p), prunes := s.prunes[p := Prunes(s, p) + 1])
      else s
  }

  function Run(cfg: Config, disk: Disk, events: seq<Event>): State {
    if events == [] then Init(disk)
    else Step(cfg, Run(cfg, disk, events[..|events| - 1]), events[|events| - 1])
  }
}
