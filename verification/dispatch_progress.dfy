/** The runner does its job: a delivery that nothing disturbs runs the job, records the outcome and reports it. */
module DispatchProgress {
  import opened Wrappers
  import opened Bytes
  import opened JobStore
  import opened JobFiles
  import opened Dispatch

  function RunFrom(cfg: Config, s: State, events: seq<Event>): State
    decreases |events|
  {
    if events == [] then s else RunFrom(cfg, Step(cfg, s, events[0]), events[1..])
  }

  /** `n` actions of a delivery in a row, none of which fails. */
  function Goes(t: nat, n: nat): seq<Event> {
    if n == 0 then [] else [Advance(t, Go)] + Goes(t, n - 1)
  }

  lemma {:induction false} RunJoin(cfg: Config, s: State, a: seq<Event>, b: seq<Event>)
    ensures RunFrom(cfg, s, a + b) == RunFrom(cfg, RunFrom(cfg, s, a), b)
    decreases |a|
  {
    if a == [] {
      assert a + b == b;
    } else {
      assert (a + b)[0] == a[0] && (a + b)[1..] == a[1..] + b;
      RunJoin(cfg, Step(cfg, s, a[0]), a[1..], b);
    }
  }

  /** The delivery is writing, and its file is as it should be. */
  ghost predicate AtWrite(cfg: Config, s: State, t: nat, why: Purpose, stage: Stage) {
    && t in s.tasks && s.tasks[t].phase == Writing(why, stage)
    && var p := cfg.hash(s.tasks[t].d.job);
       DiskOk(s.disk, p) && HandleOk(p, stage) && Writer(s.disk, p, RecordBytes(cfg, why), stage)
  }

  /** Nothing but the delivery's own phase and the disk has changed. */
  ghost predicate OnlyWrote(s: State, s': State, t: nat)
    requires t in s.tasks
  {
    && t in s'.tasks && s'.tasks == s.tasks[t := s'.tasks[t]]
    && s'.tasks[t] == s.tasks[t].(phase := s'.tasks[t].phase, kept := s'.tasks[t].kept)
    && s'.claims == s.claims && s'.log == s.log && s'.prunes == s.prunes
  }

  lemma OneCall(cfg: Config, s: State, t: nat, why: Purpose, stage: Stage) returns (next: Stage)
    requires AtWrite(cfg, s, t, why, stage) && stage != FlushingDir
    ensures var s' := Step(cfg, s, Advance(t, Go));
      AtWrite(cfg, s', t, why, next) && Follows(stage, next) && OnlyWrote(s, s', t) && s'.recorded == s.recorded
  {
    hide WriteStep, DiskOk, Writer, RecordBytes, Lookup, Precheck;
    var p := cfg.hash(s.tasks[t].d.job);
    GoesOn(s.disk, p, RecordBytes(cfg, why), stage);
    OwnPath(s.disk, p, RecordBytes(cfg, why), stage, Go);
    next := WriteStep(s.disk, p, RecordBytes(cfg, why), stage, Go).1.stage;
  }

  lemma LastCall(cfg: Config, s: State, t: nat, why: Purpose)
    requires AtWrite(cfg, s, t, why, FlushingDir)
    ensures var s' := Step(cfg, s, Advance(t, Go));
      && OnlyWrote(s, s', t) && s'.tasks[t].phase == (if why == Start then Ready else Closing(why.outcome))
      && (why.Record? ==> s'.tasks[t].kept == Some(true))
      && s'.recorded == (if why.Record? then s.recorded[s.tasks[t].d.job := why.outcome] else s.recorded)
      && DiskOk(s'.disk, cfg.hash(s.tasks[t].d.job))
      && Holds(s'.disk, cfg.hash(s.tasks[t].d.job), RecordBytes(cfg, why))
  {
    hide WriteStep, DiskOk, Writer, Holds, RecordBytes, Lookup, Precheck;
    var p := cfg.hash(s.tasks[t].d.job);
    GoesOn(s.disk, p, RecordBytes(cfg, why), FlushingDir);
    OwnPath(s.disk, p, RecordBytes(cfg, why), FlushingDir, Go);
  }

  /** Five calls write a record. */
  lemma WholeWrite(cfg: Config, s: State, t: nat, why: Purpose)
    requires AtWrite(cfg, s, t, why, Creating)
    ensures var s' := RunFrom(cfg, s, Goes(t, 5));
      && OnlyWrote(s, s', t) && s'.tasks[t].phase == (if why == Start then Ready else Closing(why.outcome))
      && (why.Record? ==> s'.tasks[t].kept == Some(true))
      && s'.recorded == (if why.Record? then s.recorded[s.tasks[t].d.job := why.outcome] else s.recorded)
      && DiskOk(s'.disk, cfg.hash(s.tasks[t].d.job))
      && Holds(s'.disk, cfg.hash(s.tasks[t].d.job), RecordBytes(cfg, why))
  {
    hide Step, AtWrite, DiskOk, Holds, RecordBytes;
    var e := Advance(t, Go);
    var s1, s2, s3, s4 := Step(cfg, s, e), Step(cfg, Step(cfg, s, e), e), Step(cfg, Step(cfg, Step(cfg, s, e), e), e),
        Step(cfg, Step(cfg, Step(cfg, Step(cfg, s, e), e), e), e);
    FiveGoes(cfg, s, t);
    var a := OneCall(cfg, s, t, why, Creating);
    var b := OneCall(cfg, s1, t, why, a);
    var c := OneCall(cfg, s2, t, why, b);
    var d := OneCall(cfg, s3, t, why, c);
    LastCall(cfg, s4, t, why);
  }

  lemma OneGo(cfg: Config, s: State, t: nat, n: nat)
    requires n > 0
    ensures RunFrom(cfg, s, Goes(t, n)) == RunFrom(cfg, Step(cfg, s, Advance(t, Go)), Goes(t, n - 1))
  {
    assert Goes(t, n)[1..] == Goes(t, n - 1);
  }

  lemma FiveGoes(cfg: Config, s: State, t: nat)
    ensures var e := Advance(t, Go);
      RunFrom(cfg, s, Goes(t, 5)) == Step(cfg, Step(cfg, Step(cfg, Step(cfg, Step(cfg, s, e), e), e), e), e)
  {
    hide Step, RunFrom, Goes;
    var e := Advance(t, Go);
    OneGo(cfg, s, t, 5);
    OneGo(cfg, Step(cfg, s, e), t, 4);
    OneGo(cfg, Step(cfg, Step(cfg, s, e), e), t, 3);
    OneGo(cfg, Step(cfg, Step(cfg, Step(cfg, s, e), e), e), t, 2);
    OneGo(cfg, Step(cfg, Step(cfg, Step(cfg, Step(cfg, s, e), e), e), e), t, 1);
    NoGo(cfg, Step(cfg, Step(cfg, Step(cfg, Step(cfg, Step(cfg, s, e), e), e), e), e), t);
  }

  lemma NoGo(cfg: Config, s: State, t: nat)
    ensures RunFrom(cfg, s, Goes(t, 0)) == s
  {
  }

  /** A job nothing stands against: a fresh id, no record, permitted, and no write of its file under way. */
  ghost predicate Clear(cfg: Config, s: State, t: nat, d: Dispatch) {
    && t !in s.tasks && d.job !in s.claims && 0 < |d.job| <= 256 && Permitted(cfg, d)
    && View(s.disk, cfg.hash(d.job)) == None && DiskOk(s.disk, cfg.hash(d.job))
  }

  /** Delivery, claim, lookup and checks. */
  lemma Entering(cfg: Config, s: State, t: nat, d: Dispatch)
    requires Clear(cfg, s, t, d)
    ensures var s' := RunFrom(cfg, s, [Deliver(t, d)] + Goes(t, 3));
      && AtWrite(cfg, s', t, Start, Creating) && s'.tasks == s.tasks[t := s'.tasks[t]]
      && s'.tasks[t].d == d && s'.tasks[t].sent == [] && s'.tasks[t].answer == Missing
      && s'.claims == s.claims + {d.job} && s'.log == s.log && s'.recorded == s.recorded && s'.disk == s.disk
  {
    hide RunFrom, Goes, DiskOk, Precheck, Permitted, WriteStep, View;
    PrecheckIs(cfg, d);
    var e := Advance(t, Go);
    var s0 := Step(cfg, s, Deliver(t, d));
    var s1 := Step(cfg, s0, e);
    var s2 := Step(cfg, s1, e);
    RunJoin(cfg, s, [Deliver(t, d)], Goes(t, 3));
    RunOne(cfg, s, Deliver(t, d));
    OneGo(cfg, s0, t, 3);
    OneGo(cfg, s1, t, 2);
    OneGo(cfg, s2, t, 1);
    NoGo(cfg, Step(cfg, s2, e), t);
    assert s1.tasks[t].phase == Claimed;
    assert s2.tasks[t].phase == Cleared;
  }

  lemma RunOne(cfg: Config, s: State, e: Event)
    ensures RunFrom(cfg, s, [e]) == Step(cfg, s, e)
  {
    assert [e][1..] == [];
  }

  /** Start, one chunk of output, exit. */
  lemma Executing(cfg: Config, s: State, t: nat, data: seq<byte>, o: Outcome)
    requires t in s.tasks && s.tasks[t].phase == Ready && o.terminal.Some? && DiskOk(s.disk, cfg.hash(s.tasks[t].d.job))
    ensures var s' := RunFrom(cfg, s, [Advance(t, Go), Advance(t, Emit(data)), Advance(t, Exit(o))]);
      && AtWrite(cfg, s', t, Record(o), Creating) && s'.tasks == s.tasks[t := s'.tasks[t]]
      && s'.tasks[t].d == s.tasks[t].d && s'.tasks[t].sent == s.tasks[t].sent + [Chunk(data)]
      && s'.tasks[t].answer == s.tasks[t].answer
      && s'.claims == s.claims && s'.log == s.log + [s.tasks[t].d] && s'.recorded == s.recorded
  {
    hide RunFrom, DiskOk, Precheck, WriteStep, View, Lookup;
    var e1, e2, e3 := Advance(t, Go), Advance(t, Emit(data)), Advance(t, Exit(o));
    assert [e1, e2, e3] == [e1] + ([e2] + [e3]);
    RunJoin(cfg, s, [e1], [e2] + [e3]);
    RunOne(cfg, s, e1);
    var s1 := Step(cfg, s, e1);
    RunJoin(cfg, s1, [e2], [e3]);
    RunOne(cfg, s1, e2);
    RunOne(cfg, Step(cfg, s1, e2), e3);
  }

  lemma Leaving(cfg: Config, s: State, t: nat, o: Outcome)
    requires t in s.tasks && s.tasks[t].phase == Closing(o) && s.tasks[t].answer != Refused
    ensures var s' := RunFrom(cfg, s, Goes(t, 2));
      && s'.tasks == s.tasks[t := s.tasks[t].(phase := Gone, sent := s.tasks[t].sent + [Final(o)])]
      && s'.claims == s.claims - {s.tasks[t].d.job} && s'.log == s.log && s'.recorded == s.recorded && s'.disk == s.disk
  {
    hide RunFrom, Goes, Precheck, WriteStep, View, Lookup;
    OneGo(cfg, s, t, 2);
    OneGo(cfg, Step(cfg, s, Advance(t, Go)), t, 1);
    NoGo(cfg, Step(cfg, Step(cfg, s, Advance(t, Go)), Advance(t, Go)), t);
  }

  /** The events of a delivery that nothing disturbs. */
  function Undisturbed(t: nat, d: Dispatch, data: seq<byte>, o: Outcome): seq<Event> {
    ([Deliver(t, d)] + Goes(t, 3))
    + (Goes(t, 5) + ([Advance(t, Go), Advance(t, Emit(data)), Advance(t, Exit(o))] + (Goes(t, 5) + Goes(t, 2))))
  }

  /**
    A clear job whose calls all succeed is started exactly once, its output and its
    outcome are sent, the outcome is durably on record, and the claim is given back.
   */
  lemma UndisturbedJob(cfg: Config, s: State, t: nat, d: Dispatch, data: seq<byte>, o: Outcome)
    requires Clear(cfg, s, t, d) && o.terminal.Some?
    ensures var s' := RunFrom(cfg, s, Undisturbed(t, d, data, o));
      && t in s'.tasks && s'.tasks[t].phase == Gone && s'.tasks[t].sent == [Chunk(data), Final(o)]
      && s'.log == s.log + [d] && s'.claims == s.claims && s'.recorded == s.recorded[d.job := o]
      && Holds(s'.disk, cfg.hash(d.job), DoneRecord(cfg.codec, o))
  {
    hide RunFrom, Goes, Step, DiskOk, Holds, AtWrite, DoneRecord, Clear;
    var run := [Advance(t, Go), Advance(t, Emit(data)), Advance(t, Exit(o))];
    RunJoin(cfg, s, [Deliver(t, d)] + Goes(t, 3), Goes(t, 5) + (run + (Goes(t, 5) + Goes(t, 2))));
    Entering(cfg, s, t, d);
    var s1 := RunFrom(cfg, s, [Deliver(t, d)] + Goes(t, 3));
    RunJoin(cfg, s1, Goes(t, 5), run + (Goes(t, 5) + Goes(t, 2)));
    WholeWrite(cfg, s1, t, Start);
    var s2 := RunFrom(cfg, s1, Goes(t, 5));
    RunJoin(cfg, s2, run, Goes(t, 5) + Goes(t, 2));
    Executing(cfg, s2, t, data, o);
    var s3 := RunFrom(cfg, s2, run);
    RunJoin(cfg, s3, Goes(t, 5), Goes(t, 2));
    WholeWrite(cfg, s3, t, Record(o));
    var s4 := RunFrom(cfg, s3, Goes(t, 5));
    Leaving(cfg, s4, t, o);
    NotClaimed(cfg, s, t, d);
  }

  lemma NotClaimed(cfg: Config, s: State, t: nat, d: Dispatch)
    requires Clear(cfg, s, t, d)
    ensures s.claims + {d.job} - {d.job} == s.claims
  {
  }
}
