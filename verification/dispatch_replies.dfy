/**
  The result protocol: what each delivery sends, and that a delivery after completion
  replays exactly the recorded outcome, across crashes.
 */
module DispatchReplies {
  import opened Wrappers
  import opened Bytes
  import opened JobStore
  import opened JobFiles
  import opened Dispatch
  import opened DispatchOnce

  // --- What one delivery sends ---

  predicate AllChunks(sent: seq<Msg>) {
    forall i | 0 <= i < |sent| :: sent[i].Chunk?
  }

  /**
    The outcome a delivery reports, and whether output may precede it, given what it
    learned: a job that ran reports how its process ended, after an attempt to record it.
   */
  predicate Fits(cfg: Config, k: Task, chunks: seq<Msg>, o: Outcome) {
    match k.answer
    case Refused => chunks == [] && Says(o, InvalidJobId)
    case Unreadable => chunks == [] && Says(o, StoreUnavailable)
    case Found(Done(recorded)) => chunks == [] && o == recorded
    case Found(Started) => chunks == [] && Says(o, Interrupted)
    case Missing =>
      if k.exit.Some? then AllChunks(chunks) && o == k.exit.value && k.kept.Some? && Permitted(cfg, k.d)
      else chunks == [] && TurnedAway(cfg, k.d, o)
    case _ => false
  }

  /** An id of 1 to 256 bytes, as the store is asked about. */
  predicate GoodId(j: JobId) {
    0 < |j| <= 256
  }

  /** Output first, then exactly one outcome, and nothing after it; a bad id is refused, and nothing else is. */
  predicate Complete(cfg: Config, k: Task) {
    && (k.answer == Refused <==> !GoodId(k.d.job))
    && k.sent != [] && k.sent[|k.sent| - 1].Final?
    && Fits(cfg, k, k.sent[..|k.sent| - 1], k.sent[|k.sent| - 1].outcome)
  }

  /** On its way to a start, and not there yet. */
  predicate Unstarted(cfg: Config, k: Task) {
    k.sent == [] && k.answer == Missing && k.exit == None && Permitted(cfg, k.d)
  }

  predicate Protocol(cfg: Config, k: Task) {
    && (k.phase != Arrived ==> (k.answer == Refused <==> !GoodId(k.d.job)))
    && match k.phase
       case Arrived => k.sent == [] && k.answer == Unasked && k.exit == None
       case Claimed => k.sent == [] && k.answer == Unasked && k.exit == None
       case Cleared => k.sent == [] && k.answer == Missing && k.exit == None
       case Writing(Start, _) => Unstarted(cfg, k)
       case Ready => Unstarted(cfg, k)
       case Running => AllChunks(k.sent) && k.answer == Missing && k.exit == None && Permitted(cfg, k.d)
       case Writing(Record(o), _) =>
         && AllChunks(k.sent) && k.answer == Missing && Permitted(cfg, k.d)
         && o.terminal.Some? && k.exit == Some(o)
       case Closing(o) => Fits(cfg, k, k.sent, o)
       case Sent => Complete(cfg, k)
       case Gone => if k.answer == Busy then k.sent == [] else Complete(cfg, k)
  }

  lemma EnteringKeepsProtocol(cfg: Config, k: Task, c: Choice, claimed: bool, seen: Option<JobState>, r: Progress)
    requires Protocol(cfg, k) && (k.phase == Arrived || k.phase == Claimed || k.phase == Cleared)
    ensures Protocol(cfg, Move(cfg, k, c, claimed, seen, r)) && k.sent <= Move(cfg, k, c, claimed, seen, r).sent
  {
    hide Precheck, Permitted, TurnedAway, Complete;
    PrecheckIs(cfg, k.d);
  }

  lemma WritingKeepsProtocol(cfg: Config, k: Task, c: Choice, claimed: bool, seen: Option<JobState>, r: Progress)
    requires Protocol(cfg, k) && k.phase.Writing?
    ensures Protocol(cfg, Move(cfg, k, c, claimed, seen, r)) && k.sent <= Move(cfg, k, c, claimed, seen, r).sent
  {
    hide Precheck, Permitted, TurnedAway, Complete;
    PrecheckIs(cfg, k.d);
  }

  lemma RunningKeepsProtocol(cfg: Config, k: Task, c: Choice, claimed: bool, seen: Option<JobState>, r: Progress)
    requires Protocol(cfg, k) && (k.phase == Ready || k.phase == Running)
    ensures Protocol(cfg, Move(cfg, k, c, claimed, seen, r)) && k.sent <= Move(cfg, k, c, claimed, seen, r).sent
  {
    hide Precheck, Complete, Fits;
  }

  lemma ClosingKeepsProtocol(cfg: Config, k: Task, c: Choice, claimed: bool, seen: Option<JobState>, r: Progress)
    requires Protocol(cfg, k) && (k.phase.Closing? || k.phase == Sent || k.phase == Gone)
    ensures Protocol(cfg, Move(cfg, k, c, claimed, seen, r)) && k.sent <= Move(cfg, k, c, claimed, seen, r).sent
  {
    hide Precheck, Fits, AllChunks;
    var k' := Move(cfg, k, c, claimed, seen, r);
    if k.phase.Closing? {
      assert k'.sent[..|k'.sent| - 1] == k.sent;
      SameFit(cfg, k, k', k.sent, k.phase.outcome);
    } else if k.sent != [] && k.sent[|k.sent| - 1].Final? {
      SameFit(cfg, k, k', k.sent[..|k.sent| - 1], k.sent[|k.sent| - 1].outcome);
    }
  }

  lemma SameFit(cfg: Config, k: Task, k': Task, chunks: seq<Msg>, o: Outcome)
    requires k'.d == k.d && k'.answer == k.answer && k'.exit == k.exit && k'.kept == k.kept
    ensures Fits(cfg, k, chunks, o) == Fits(cfg, k', chunks, o)
    ensures Fits(cfg, k, chunks, o) ==> k.answer != Busy
  {
    hide Precheck, Permitted, TurnedAway, AllChunks;
  }

  lemma MoveKeepsProtocol(cfg: Config, k: Task, c: Choice, claimed: bool, seen: Option<JobState>, r: Progress)
    requires Protocol(cfg, k)
    ensures Protocol(cfg, Move(cfg, k, c, claimed, seen, r))
    ensures k.sent <= Move(cfg, k, c, claimed, seen, r).sent
  {
    hide Protocol, Move;
    if k.phase == Arrived || k.phase == Claimed || k.phase == Cleared {
      EnteringKeepsProtocol(cfg, k, c, claimed, seen, r);
    } else if k.phase.Writing? {
      WritingKeepsProtocol(cfg, k, c, claimed, seen, r);
    } else if k.phase == Ready || k.phase == Running {
      RunningKeepsProtocol(cfg, k, c, claimed, seen, r);
    } else {
      ClosingKeepsProtocol(cfg, k, c, claimed, seen, r);
    }
  }

  ghost predicate Replies(cfg: Config, s: State) {
    forall t | t in s.tasks :: Protocol(cfg, s.tasks[t])
  }

  lemma StepKeepsReplies(cfg: Config, s: State, e: Event)
    requires Replies(cfg, s)
    ensures Replies(cfg, Step(cfg, s, e))
  {
    hide Move, Persist, Lookup, Claims, Crash;
    if e.Advance? && e.t in s.tasks {
      var k := s.tasks[e.t];
      MoveKeepsProtocol(cfg, k, e.c, k.d.job in s.claims, Lookup(cfg, s.disk, k.d.job), Persist(cfg, s.disk, k, e.c).1);
    }
  }

  /**
    In every run, every delivery that is over either was ignored, because its job was
    running, and sent nothing; or sent output chunks followed by exactly one outcome.
    Output is possible only where the store had no record and the job ran, and then the
    outcome is how its process ended, after an attempt to record it; a recorded outcome is
    sent back as it is, and a start marker or a corrupt record yields exactly one error.
   */
  lemma {:induction false} ReplyProtocol(cfg: Config, disk: Disk, events: seq<Event>)
    ensures Replies(cfg, Run(cfg, disk, events))
    ensures var s := Run(cfg, disk, events);
      forall t | t in s.tasks && s.tasks[t].phase == Gone ::
        if s.tasks[t].answer == Busy then s.tasks[t].sent == [] else Complete(cfg, s.tasks[t])
  {
    hide Step, Complete;
    if events != [] {
      ReplyProtocol(cfg, disk, events[..|events| - 1]);
      StepKeepsReplies(cfg, Run(cfg, disk, events[..|events| - 1]), events[|events| - 1]);
    }
  }

  /**
    In every run, a delivery that found no record and ran nothing sent exactly one message:
    the error that says why it was not run.  One that may not be run never is.
   */
  lemma TurnedAwayIsTold(cfg: Config, disk: Disk, events: seq<Event>, t: nat)
    requires t in Run(cfg, disk, events).tasks && Run(cfg, disk, events).tasks[t].phase == Gone
    requires Run(cfg, disk, events).tasks[t].answer == Missing
    ensures var k := Run(cfg, disk, events).tasks[t];
      && (!Permitted(cfg, k.d) ==> k.exit == None)
      && (k.exit == None ==> |k.sent| == 1 && k.sent[0].Final? && TurnedAway(cfg, k.d, k.sent[0].outcome))
  {
    hide Run, TurnedAway, Permitted, AllChunks;
    ReplyProtocol(cfg, disk, events);
    var k := Run(cfg, disk, events).tasks[t];
    assert k.sent == k.sent[..|k.sent| - 1] + [k.sent[|k.sent| - 1]];
  }

  /**
    What a delivery takes from the store: without a record it goes on; a record that is
    the byte 1 and an outcome with a terminal status is replayed; any other, empty or
    undecodable ones included, is reported as interrupted.
   */
  lemma AnswersFromStore(cfg: Config, s: State, t: nat, c: Choice, i: Inode)
    requires t in s.tasks && s.tasks[t].phase == Claimed && i in s.disk.content
    ensures var k', p, b := Act(cfg, s, t, c).tasks[t], cfg.hash(s.tasks[t].d.job), s.disk.content[i].bytes;
      && (c == Fail ==> k'.phase.Closing? && Says(k'.phase.outcome, StoreUnavailable))
      && (c != Fail && View(s.disk, p) == None ==> k'.phase == Cleared)
      && (c != Fail && View(s.disk, p) == Some(i) ==>
            && k'.phase.Closing?
            && var o := if |b| > 0 && b[0] == 1 then cfg.codec.decode(b[1..]) else None;
            if o.Some? && o.value.terminal.Some? then k'.phase.outcome == o.value
            else Says(k'.phase.outcome, Interrupted))
  {
  }

  // --- A delivery after completion ---

  /** Past the lookup and not yet reporting. */
  predicate Active(k: Task) {
    k.phase == Cleared || k.phase.Writing? || k.phase == Ready || k.phase == Running
  }

  /** What a delivery that came after the outcome was recorded may have learned. */
  predicate Replayed(answer: Answer, o: Outcome) {
    answer == Unasked || answer == Busy || answer == Refused || answer == Unreadable || answer == Found(Done(o))
  }

  ghost predicate Focus(cfg: Config, s: State, j: JobId, k: Task) {
    var p := cfg.hash(j);
    && (cfg.hash(k.d.job) == p ==> k.d.job == j)
    && (k.phase.Writing? ==> HandleOk(cfg.hash(k.d.job), k.phase.stage))
    && (k.d.job == j && k.phase.Writing? ==> Writer(s.disk, p, RecordBytes(cfg, k.phase.why), k.phase.stage))
    && (k.d.job == j && Prunes(s, p) == 0 && j in s.recorded ==> !Active(k))
    && (k.d.job == j && Prunes(s, p) == 0 && k.after.Some? ==>
          j in s.recorded && s.recorded[j] == k.after.value && Replayed(k.answer, k.after.value))
    && (k.d.job == j && Prunes(s, p) == 0 && k.kept == Some(true) ==>
          j in s.recorded && k.exit == Some(s.recorded[j]))
  }

  ghost predicate Kept(cfg: Config, s: State, j: JobId) {
    j in s.recorded && Prunes(s, cfg.hash(j)) == 0 ==>
      s.recorded[j].terminal.Some? && Holds(s.disk, cfg.hash(j), DoneRecord(cfg.codec, s.recorded[j]))
  }

  ghost predicate RecInv(cfg: Config, s: State, j: JobId) {
    DiskOk(s.disk, cfg.hash(j)) && Kept(cfg, s, j) && forall t | t in s.tasks :: Focus(cfg, s, j, s.tasks[t])
  }

  lemma LookupRecorded(cfg: Config, s: State, j: JobId)
    requires cfg.codec.RoundTrips() && Kept(cfg, s, j) && j in s.recorded && Prunes(s, cfg.hash(j)) == 0
    ensures Lookup(cfg, s.disk, j) == Some(Done(s.recorded[j]))
  {
    hide Decode, DoneRecord;
    RecordRoundTrip(cfg.codec, s.recorded[j]);
    assert View(s.disk, cfg.hash(j)) in History(s.disk, cfg.hash(j));
  }

  // Actions of deliveries of other jobs.

  lemma OtherJobDisk(cfg: Config, s: State, j: JobId, k: Task, c: Choice)
    requires DiskOk(s.disk, cfg.hash(j)) && Focus(cfg, s, j, k) && k.d.job != j
    ensures var (d', r) := Persist(cfg, s.disk, k, c);
      Keeps(s.disk, d', cfg.hash(j)) && (k.phase.Writing? && r.Next? ==> HandleOk(cfg.hash(k.d.job), r.stage))
  {
    hide WriteStep, Writer, RecordBytes;
    if k.phase.Writing? {
      OtherPath(s.disk, cfg.hash(k.d.job), RecordBytes(cfg, k.phase.why), k.phase.stage, c, cfg.hash(j));
    }
  }

  lemma OtherJobActs(cfg: Config, s: State, j: JobId, t: nat, c: Choice)
    requires RecInv(cfg, s, j) && t in s.tasks && s.tasks[t].d.job != j
    ensures RecInv(cfg, Act(cfg, s, t, c), j)
  {
    hide Persist, DiskOk, Holds, Writer, Lookup, Precheck, RecordBytes, Claims, DoneRecord;
    var s', p := Act(cfg, s, t, c), cfg.hash(j);
    OtherJobDisk(cfg, s, j, s.tasks[t], c);
    if j in s.recorded {
      KeepsWriter(s.disk, s'.disk, p, DoneRecord(cfg.codec, s.recorded[j]), Creating);
    }
    OtherJobOwn(cfg, s, j, t, c);
    hide Move, Keeps;
    forall u | u in s'.tasks
      ensures Focus(cfg, s', j, s'.tasks[u])
    {
      var k := s.tasks[u];
      if u != t && k.d.job == j && k.phase.Writing? {
        KeepsWriter(s.disk, s'.disk, p, RecordBytes(cfg, k.phase.why), k.phase.stage);
      }
    }
  }

  lemma OtherJobOwn(cfg: Config, s: State, j: JobId, t: nat, c: Choice)
    requires RecInv(cfg, s, j) && t in s.tasks && s.tasks[t].d.job != j
    ensures Focus(cfg, Act(cfg, s, t, c), j, Act(cfg, s, t, c).tasks[t])
  {
    hide Persist, DiskOk, Holds, Writer, Lookup, Precheck, RecordBytes, Claims, DoneRecord, Keeps;
    OtherJobDisk(cfg, s, j, s.tasks[t], c);
  }

  // Actions of the job's own deliveries.

  ghost predicate OwnStep(cfg: Config, s: State, s': State, j: JobId, k': Task) {
    && DiskOk(s'.disk, cfg.hash(j)) && Kept(cfg, s', j) && Focus(cfg, s', j, k')
    && (j in s.recorded && Prunes(s, cfg.hash(j)) == 0 ==> j in s'.recorded && s'.recorded[j] == s.recorded[j])
  }

  lemma OwnJobWrites(cfg: Config, s: State, j: JobId, t: nat, c: Choice)
    requires RecInv(cfg, s, j) && t in s.tasks && s.tasks[t].d.job == j && Protocol(cfg, s.tasks[t])
             && s.tasks[t].phase.Writing?
    ensures OwnStep(cfg, s, Act(cfg, s, t, c), j, Act(cfg, s, t, c).tasks[t])
  {
    hide WriteStep, DiskOk, Holds, Writer, Lookup, Claims, DoneRecord;
    var k, p := s.tasks[t], cfg.hash(j);
    assert Focus(cfg, s, j, k);
    OwnPath(s.disk, p, RecordBytes(cfg, k.phase.why), k.phase.stage, c);
  }

  lemma MoveFocus(cfg: Config, s: State, j: JobId, k: Task, c: Choice, claimed: bool, seen: Option<JobState>,
                  r: Progress)
    requires Focus(cfg, s, j, k) && k.d.job == j && Protocol(cfg, k) && !k.phase.Writing?
    requires j in s.recorded && Prunes(s, cfg.hash(j)) == 0 ==> seen == Some(Done(s.recorded[j]))
    ensures Focus(cfg, s, j, Move(cfg, k, c, claimed, seen, r))
  {
    hide Precheck, RecordBytes;
  }

  lemma OwnJobMoves(cfg: Config, s: State, j: JobId, t: nat, c: Choice)
    requires cfg.codec.RoundTrips() && RecInv(cfg, s, j) && t in s.tasks && s.tasks[t].d.job == j
    requires Protocol(cfg, s.tasks[t]) && !s.tasks[t].phase.Writing?
    ensures OwnStep(cfg, s, Act(cfg, s, t, c), j, Act(cfg, s, t, c).tasks[t])
  {
    hide Move, DiskOk, Holds, Lookup, Claims, DoneRecord, RecordBytes, Protocol, Writer, HandleOk;
    var k := s.tasks[t];
    if j in s.recorded && Prunes(s, cfg.hash(j)) == 0 {
      LookupRecorded(cfg, s, j);
    }
    MoveFocus(cfg, s, j, k, c, j in s.claims, Lookup(cfg, s.disk, j), Persist(cfg, s.disk, k, c).1);
  }

  lemma OwnJobActs(cfg: Config, s: State, j: JobId, t: nat, c: Choice)
    requires cfg.codec.RoundTrips() && RecInv(cfg, s, j) && t in s.tasks && s.tasks[t].d.job == j && Inv(cfg, s)
             && Replies(cfg, s)
    ensures RecInv(cfg, Act(cfg, s, t, c), j)
  {
    hide DiskOk, Holds, Writer, Move, WriteStep, Lookup, Claims, RecordBytes, Kept, TaskInv, Counted, Precheck;
    var s', a := Act(cfg, s, t, c), s.tasks[t];
    if a.phase.Writing? {
      OwnJobWrites(cfg, s, j, t, c);
    } else {
      OwnJobMoves(cfg, s, j, t, c);
    }
    ActMoves(cfg, s, t, c);
    assert Protocol(cfg, a) && Focus(cfg, s, j, a);
    forall u | u in s'.tasks
      ensures Focus(cfg, s', j, s'.tasks[u])
    {
      if u != t {
        assert Protocol(cfg, s.tasks[u]) && Focus(cfg, s, j, s.tasks[u]);
      }
    }
  }

  // The other events.

  lemma DeliverRec(cfg: Config, s: State, j: JobId, t: nat, d: Dispatch)
    requires RecInv(cfg, s, j) && (cfg.hash(d.job) == cfg.hash(j) ==> d.job == j)
    ensures RecInv(cfg, Step(cfg, s, Deliver(t, d)), j)
  {
    hide DiskOk, Holds, Writer;
    var s' := Step(cfg, s, Deliver(t, d));
    forall u | u in s'.tasks
      ensures Focus(cfg, s', j, s'.tasks[u])
    {
      if u in s.tasks {
        assert Focus(cfg, s, j, s.tasks[u]);
      }
    }
  }

  lemma StopRec(cfg: Config, s: State, j: JobId, pick: map<Path, nat>, junk: map<Inode, seq<byte>>)
    requires RecInv(cfg, s, j)
    ensures RecInv(cfg, Step(cfg, s, Stop(pick, junk)), j)
  {
    CrashHistory(s.disk, pick, junk, cfg.hash(j));
    hide History, DoneRecord;
  }

  lemma KillRec(cfg: Config, s: State, j: JobId)
    requires RecInv(cfg, s, j)
    ensures RecInv(cfg, Step(cfg, s, Kill), j)
  {
    hide DiskOk, Holds, DoneRecord;
  }

  lemma PruneRec(cfg: Config, s: State, j: JobId, p: Path)
    requires RecInv(cfg, s, j) && Inv(cfg, s)
    ensures RecInv(cfg, Step(cfg, s, Prune(p)), j)
  {
    hide TaskInv, Counted, Precheck, Held, Exclusive, DoneRecord;
    var s', q := Step(cfg, s, Prune(p)), cfg.hash(j);
    assert q != p ==> History(s'.disk, q) == History(s.disk, q);
  }

  /** No other job of the run has a record under the same name. */
  ghost predicate OnlyJob(cfg: Config, events: seq<Event>, j: JobId) {
    forall i | 0 <= i < |events| && events[i].Deliver? && cfg.hash(events[i].d.job) == cfg.hash(j) ::
      events[i].d.job == j
  }

  lemma {:induction false} RecHolds(cfg: Config, disk: Disk, events: seq<Event>, j: JobId)
    requires cfg.codec.RoundTrips() && DiskOk(disk, cfg.hash(j)) && OnlyJob(cfg, events, j)
    ensures RecInv(cfg, Run(cfg, disk, events), j)
  {
    hide DiskOk, Act, Focus, Kept, Inv, Replies;
    if events == [] {
      assert Kept(cfg, Init(disk), j) by { KeptAtFirst(cfg, disk, j); }
    } else {
      var before, e := events[..|events| - 1], events[|events| - 1];
      var s := Run(cfg, disk, before);
      RecHolds(cfg, disk, before, j);
      InvHolds(cfg, disk, before);
      ReplyProtocol(cfg, disk, before);
      match e
      case Deliver(t, d) => DeliverRec(cfg, s, j, t, d);
      case Kill => KillRec(cfg, s, j);
      case Stop(pick, junk) => StopRec(cfg, s, j, pick, junk);
      case Prune(p) => PruneRec(cfg, s, j, p);
      case Advance(t, c) =>
        if t in s.tasks {
          if s.tasks[t].d.job == j {
            OwnJobActs(cfg, s, j, t, c);
          } else {
            OtherJobActs(cfg, s, j, t, c);
          }
        }
    }
  }

  lemma KeptAtFirst(cfg: Config, disk: Disk, j: JobId)
    ensures Kept(cfg, Init(disk), j)
  {
  }

  /**
    Once a job's outcome is on record, and until it is pruned, the store answers every
    lookup with that outcome, whatever crashes; it is the outcome that the delivery which
    ran the job reported; and every later delivery of the job that is over was ignored, or
    failed to read the store and said so, or sent exactly the recorded outcome.
   */
  lemma ReplaysRecordedOutcome(cfg: Config, disk: Disk, events: seq<Event>, j: JobId, t: nat)
    requires cfg.codec.RoundTrips() && DiskOk(disk, cfg.hash(j)) && OnlyJob(cfg, events, j)
    requires Prunes(Run(cfg, disk, events), cfg.hash(j)) == 0 && j in Run(cfg, disk, events).recorded
    ensures var s := Run(cfg, disk, events);
      && Lookup(cfg, s.disk, j) == Some(Done(s.recorded[j]))
      && (t in s.tasks && s.tasks[t].d.job == j ==> Repeats(s.tasks[t], s.recorded[j]))
  {
    hide Run, DiskOk, Lookup, Protocol, Focus, Kept, Repeats;
    RecHolds(cfg, disk, events, j);
    ReplyProtocol(cfg, disk, events);
    var s := Run(cfg, disk, events);
    LookupRecorded(cfg, s, j);
    if t in s.tasks && s.tasks[t].d.job == j {
      RepeatsRecorded(cfg, s, j, s.tasks[t]);
    }
  }

  predicate OneError(sent: seq<Msg>, reason: Reason) {
    |sent| == 1 && sent[0].Final? && Says(sent[0].outcome, reason)
  }

  /** The outcome is the one this delivery reported when it ran the job; or this one came later, and sent exactly it. */
  predicate Repeats(k: Task, o: Outcome) {
    && (k.kept == Some(true) ==> k.exit == Some(o))
    && (k.after.Some? && k.phase == Gone ==>
          && k.after == Some(o)
          && (|| (k.answer == Busy && k.sent == [])
              || (k.answer == Refused && OneError(k.sent, InvalidJobId))
              || (k.answer == Unreadable && OneError(k.sent, StoreUnavailable))
              || k.sent == [Final(o)]))
  }

  lemma RepeatsRecorded(cfg: Config, s: State, j: JobId, k: Task)
    requires Protocol(cfg, k) && Focus(cfg, s, j, k) && k.d.job == j
    requires j in s.recorded && Prunes(s, cfg.hash(j)) == 0
    ensures Repeats(k, s.recorded[j])
  {
    hide Protocol, OneError;
    if k.after.Some? && k.phase == Gone {
      SendsReplay(cfg, k, s.recorded[j]);
    }
  }

  lemma GoneIs(cfg: Config, k: Task)
    requires Protocol(cfg, k) && k.phase == Gone
    ensures if k.answer == Busy then k.sent == [] else Complete(cfg, k)
  {
    hide Complete, Fits, Unstarted, Permitted;
  }

  lemma OneMessage(sent: seq<Msg>)
    requires sent != [] && sent[..|sent| - 1] == []
    ensures sent == [sent[|sent| - 1]]
  {
    assert |sent[..|sent| - 1]| == |sent| - 1;
  }

  /** What a delivery over after the outcome was recorded has sent. */
  lemma SendsReplay(cfg: Config, k: Task, o: Outcome)
    requires Protocol(cfg, k) && k.phase == Gone && Replayed(k.answer, o)
    ensures || (k.answer == Busy && k.sent == [])
            || (k.answer == Refused && OneError(k.sent, InvalidJobId))
            || (k.answer == Unreadable && OneError(k.sent, StoreUnavailable))
            || k.sent == [Final(o)]
  {
    hide Protocol, Permitted, TurnedAway, AllChunks, Says, GoodId;
    GoneIs(cfg, k);
    if k.answer != Busy {
      assert k.sent[..|k.sent| - 1] == [];
      OneMessage(k.sent);
    }
  }
}
