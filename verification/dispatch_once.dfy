/**
  At most once: whatever is redelivered, fails or crashes, a job's process is started
  at most once for as long as its record is not pruned.
 */
module DispatchOnce {
  import opened Wrappers
  import opened Bytes
  import opened JobStore
  import opened Dispatch

  /** The delivery holds the in-flight claim on its job. */
  predicate Holding(k: Task) {
    k.phase != Arrived && k.phase != Gone && k.answer != Refused
  }

  /** A delivery on its way to a start: its job has not been started since the last prune. */
  predicate Bound(k: Task) {
    k.phase == Cleared || k.phase == Ready || (k.phase.Writing? && k.phase.why == Start)
  }

  ghost predicate TaskInv(cfg: Config, s: State, k: Task) {
    var p := cfg.hash(k.d.job);
    && (Holding(k) ==> k.d.job in s.claims)
    && (Bound(k) ==> Holding(k) && Starts(s.log, k.d.job) <= Prunes(s, p))
    && (k.phase == Ready ==> Pinned(s.disk, p) && Permitted(cfg, k.d))
    && (k.phase.Writing? && k.phase.why == Start ==> Permitted(cfg, k.d))
    && (k.phase == Writing(Start, FlushingDir) ==> View(s.disk, p).Some?)
    && (k.phase == Arrived || k.phase == Claimed ==> k.answer == Unasked)
    && (k.answer == Refused ==> k.phase.Closing? || k.phase == Sent || k.phase == Gone)
  }

  ghost predicate Counted(cfg: Config, s: State, j: JobId) {
    var p := cfg.hash(j);
    Starts(s.log, j) <= Prunes(s, p) + 1 && (Starts(s.log, j) == Prunes(s, p) + 1 ==> Pinned(s.disk, p))
  }

  ghost predicate Inv(cfg: Config, s: State) {
    && (forall t | t in s.tasks :: TaskInv(cfg, s, s.tasks[t]))
    && Exclusive(s)
    && (forall j :: Counted(cfg, s, j))
    && (forall j | j in s.claims :: Held(s, j))
    && (forall i | 0 <= i < |s.log| :: Permitted(cfg, s.log[i]))
    && (s.starting ==> s.tasks == map[] && s.claims == {})
  }

  lemma StartsNext(log: seq<Dispatch>, d: Dispatch, j: JobId)
    ensures Starts(log + [d], j) == Starts(log, j) + (if d.job == j then 1 else 0)
  {
    assert (log + [d])[..|log|] == log;
  }

  /** What an action of `k` may do to the state the others rely on. */
  ghost predicate Effect(s: State, s': State, k: Task, q: Path) {
    && s'.prunes == s.prunes
    && (s'.log == s.log || (k.phase == Ready && s'.log == s.log + [k.d]))
    && (forall j | j in s.claims :: j in s'.claims || (k.phase == Sent && k.answer != Refused && j == k.d.job))
    && (Pinned(s.disk, q) ==> Pinned(s'.disk, q))
    && (View(s.disk, q).Some? ==> View(s'.disk, q).Some?)
  }

  lemma ActEffect(cfg: Config, s: State, t: nat, c: Choice, q: Path)
    requires t in s.tasks
    ensures Effect(s, Act(cfg, s, t, c), s.tasks[t], q)
  {
    hide WriteStep, Pinned, View, Move, Lookup;
    var k := s.tasks[t];
    if k.phase.Writing? {
      WriteStepPins(s.disk, cfg.hash(k.d.job), RecordBytes(cfg, k.phase.why), k.phase.stage, c, q);
    }
  }

  /** An action leaves the other deliveries' promises alone. */
  lemma OtherTask(cfg: Config, s: State, s': State, k: Task, u: Task)
    requires TaskInv(cfg, s, u) && TaskInv(cfg, s, k) && Effect(s, s', k, cfg.hash(u.d.job))
    requires Holding(k) && Holding(u) ==> k.d.job != u.d.job
    ensures TaskInv(cfg, s', u)
  {
    hide Pinned, View, Permitted, Starts;
    StartsNext(s.log, k.d, u.d.job);
  }

  lemma CountedStep(cfg: Config, s: State, s': State, k: Task, j: JobId)
    requires TaskInv(cfg, s, k) && Counted(cfg, s, j) && Effect(s, s', k, cfg.hash(j))
    ensures Counted(cfg, s', j)
  {
    hide Pinned, View, Permitted, Starts;
    StartsNext(s.log, k.d, j);
  }

  lemma OwnWrite(cfg: Config, s: State, t: nat, c: Choice)
    requires t in s.tasks && TaskInv(cfg, s, s.tasks[t]) && s.tasks[t].phase.Writing?
    ensures TaskInv(cfg, Act(cfg, s, t, c), Act(cfg, s, t, c).tasks[t])
  {
    hide WriteStep, Pinned, View, Permitted, Lookup, Starts, RecordBytes;
    var k, p := s.tasks[t], cfg.hash(s.tasks[t].d.job);
    WriteStepPins(s.disk, p, RecordBytes(cfg, k.phase.why), k.phase.stage, c, p);
  }

  lemma OwnMove(cfg: Config, s: State, t: nat, c: Choice)
    requires t in s.tasks && TaskInv(cfg, s, s.tasks[t]) && !s.tasks[t].phase.Writing?
    requires s.tasks[t].phase == Claimed && Lookup(cfg, s.disk, s.tasks[t].d.job).None? ==>
               Starts(s.log, s.tasks[t].d.job) <= Prunes(s, cfg.hash(s.tasks[t].d.job))
    ensures TaskInv(cfg, Act(cfg, s, t, c), Act(cfg, s, t, c).tasks[t])
  {
    hide WriteStep, Pinned, View, Precheck, Permitted, Lookup, Starts;
    PrecheckIs(cfg, s.tasks[t].d);
  }

  lemma OwnTask(cfg: Config, s: State, t: nat, c: Choice)
    requires t in s.tasks && TaskInv(cfg, s, s.tasks[t]) && Counted(cfg, s, s.tasks[t].d.job)
    ensures TaskInv(cfg, Act(cfg, s, t, c), Act(cfg, s, t, c).tasks[t])
  {
    hide TaskInv, Act, Pinned, Starts;
    if s.tasks[t].phase.Writing? {
      OwnWrite(cfg, s, t, c);
    } else {
      if Pinned(s.disk, cfg.hash(s.tasks[t].d.job)) {
        PinnedIsSeen(s.disk, cfg.hash(s.tasks[t].d.job));
      }
      OwnMove(cfg, s, t, c);
    }
  }

  /** What an action does to the deliveries themselves and to the log. */
  ghost predicate Moves(s: State, s': State, t: nat, k: Task) {
    && t in s'.tasks && s'.tasks == s.tasks[t := s'.tasks[t]] && s'.tasks[t].d == k.d
    && (s'.log == s.log || (k.phase == Ready && s'.log == s.log + [k.d]))
    && s'.starting == s.starting
    && (if !Holding(k) && Holding(s'.tasks[t]) then k.d.job !in s.claims && s'.claims == s.claims + {k.d.job}
        else if Holding(k) && !Holding(s'.tasks[t]) then s'.claims == s.claims - {k.d.job}
        else s'.claims == s.claims)
  }

  lemma ActMoves(cfg: Config, s: State, t: nat, c: Choice)
    requires t in s.tasks && TaskInv(cfg, s, s.tasks[t])
    ensures Moves(s, Act(cfg, s, t, c), t, s.tasks[t])
  {
    hide Persist, Pinned, View, Permitted, Lookup, Starts;
  }

  ghost predicate Exclusive(s: State) {
    forall t, u | t in s.tasks && u in s.tasks && t != u && Holding(s.tasks[t]) && Holding(s.tasks[u]) ::
      s.tasks[t].d.job != s.tasks[u].d.job
  }

  ghost predicate Held(s: State, j: JobId) {
    exists t :: t in s.tasks && Holding(s.tasks[t]) && s.tasks[t].d.job == j
  }

  lemma MovesKeepClaims(s: State, s': State, t: nat)
    requires t in s.tasks && Moves(s, s', t, s.tasks[t]) && Exclusive(s)
    requires forall u | u in s.tasks && Holding(s.tasks[u]) :: s.tasks[u].d.job in s.claims
    requires forall j | j in s.claims :: Held(s, j)
    ensures Exclusive(s') && forall j | j in s'.claims :: Held(s', j)
  {
    hide Holding;
    forall j | j in s'.claims
      ensures Held(s', j)
    {
      if j in s.claims {
        var u :| u in s.tasks && Holding(s.tasks[u]) && s.tasks[u].d.job == j;
        assert s'.tasks[u].d.job == j;
      } else {
        assert s'.tasks[t].d.job == j;
      }
    }
  }

  lemma ActKeepsInv(cfg: Config, s: State, t: nat, c: Choice)
    requires Inv(cfg, s) && t in s.tasks
    ensures Inv(cfg, Act(cfg, s, t, c))
  {
    hide Act, TaskInv, Counted, Effect, Permitted;
    var s' := Act(cfg, s, t, c);
    OwnTask(cfg, s, t, c);
    ActMoves(cfg, s, t, c);
    forall u | u in s'.tasks
      ensures TaskInv(cfg, s', s'.tasks[u])
    {
      if u != t {
        ActEffect(cfg, s, t, c, cfg.hash(s.tasks[u].d.job));
        OtherTask(cfg, s, s', s.tasks[t], s.tasks[u]);
      }
    }
    forall j
      ensures Counted(cfg, s', j)
    {
      ActEffect(cfg, s, t, c, cfg.hash(j));
      CountedStep(cfg, s, s', s.tasks[t], j);
    }
    HoldersClaim(cfg, s);
    MovesKeepClaims(s, s', t);
    ReadyIsChecked(cfg, s, s.tasks[t]);
  }

  lemma HoldersClaim(cfg: Config, s: State)
    requires forall t | t in s.tasks :: TaskInv(cfg, s, s.tasks[t])
    ensures forall u | u in s.tasks && Holding(s.tasks[u]) :: s.tasks[u].d.job in s.claims
  {
    hide Pinned, View, Permitted, Starts;
  }

  lemma ReadyIsChecked(cfg: Config, s: State, k: Task)
    requires TaskInv(cfg, s, k)
    ensures k.phase == Ready ==> Permitted(cfg, k.d)
  {
  }

  lemma DeliverKeepsInv(cfg: Config, s: State, t: nat, d: Dispatch)
    requires Inv(cfg, s)
    ensures Inv(cfg, Step(cfg, s, Deliver(t, d)))
  {
    hide Pinned, View, Permitted, Starts;
    var s' := Step(cfg, s, Deliver(t, d));
    if t !in s.tasks {
      forall u | u in s'.tasks
        ensures TaskInv(cfg, s', s'.tasks[u])
      {
        if u != t {
          assert TaskInv(cfg, s, s.tasks[u]);
        }
      }
      forall j | j in s'.claims
        ensures Held(s', j)
      {
        assert Held(s, j);
        var u :| u in s.tasks && Holding(s.tasks[u]) && s.tasks[u].d.job == j;
        assert u in s'.tasks && s'.tasks[u] == s.tasks[u];
      }
      forall j
        ensures Counted(cfg, s', j)
      {
        assert Counted(cfg, s, j);
      }
    }
  }

  lemma StopKeepsInv(cfg: Config, s: State, pick: map<Path, nat>, junk: map<Inode, seq<byte>>)
    requires Inv(cfg, s)
    ensures Inv(cfg, Step(cfg, s, Stop(pick, junk)))
  {
    hide Pinned, View, Permitted, Starts, Crash;
    var s' := Step(cfg, s, Stop(pick, junk));
    forall j
      ensures Counted(cfg, s', j)
    {
      assert Counted(cfg, s, j);
      if Pinned(s.disk, cfg.hash(j)) {
        CrashPins(s.disk, pick, junk, cfg.hash(j));
      }
    }
  }

  lemma KillKeepsInv(cfg: Config, s: State)
    requires Inv(cfg, s)
    ensures Inv(cfg, Step(cfg, s, Kill))
  {
    hide Pinned, View, Permitted, Starts;
    forall j
      ensures Counted(cfg, Step(cfg, s, Kill), j)
    {
      assert Counted(cfg, s, j);
    }
  }

  lemma PruneKeepsInv(cfg: Config, s: State, p: Path)
    requires Inv(cfg, s)
    ensures Inv(cfg, Step(cfg, s, Prune(p)))
  {
    hide View, Permitted, Starts;
    var s' := Step(cfg, s, Prune(p));
    forall j
      ensures Counted(cfg, s', j)
    {
      assert Counted(cfg, s, j);
      if cfg.hash(j) != p {
        assert History(s'.disk, cfg.hash(j)) == History(s.disk, cfg.hash(j));
      }
    }
  }

  lemma {:induction false} InvHolds(cfg: Config, disk: Disk, events: seq<Event>)
    ensures Inv(cfg, Run(cfg, disk, events))
  {
    hide Inv, Step, Init;
    if events == [] {
      InitInv(cfg, disk);
    } else {
      var s, e := Run(cfg, disk, events[..|events| - 1]), events[|events| - 1];
      InvHolds(cfg, disk, events[..|events| - 1]);
      StepKeepsInv(cfg, s, e);
    }
  }

  lemma InitInv(cfg: Config, disk: Disk)
    ensures Inv(cfg, Init(disk))
  {
    forall j
      ensures Counted(cfg, Init(disk), j)
    {
    }
  }

  lemma StepKeepsInv(cfg: Config, s: State, e: Event)
    requires Inv(cfg, s)
    ensures Inv(cfg, Step(cfg, s, e))
  {
    hide Inv, Act, Crash, Remove;
    match e
    case Deliver(t, d) => DeliverKeepsInv(cfg, s, t, d);
    case Advance(t, c) => if t in s.tasks { ActKeepsInv(cfg, s, t, c); }
    case Kill => KillKeepsInv(cfg, s);
    case Stop(pick, junk) => StopKeepsInv(cfg, s, pick, junk);
    case Prune(p) => PruneKeepsInv(cfg, s, p);
  }

  /**
    In every run, with any hash and any starting disk: the job has been started at most
    once more often than its record was pruned, and after a start that no prune has
    followed, no crash can make its record disappear.
   */
  lemma AtMostOnce(cfg: Config, disk: Disk, events: seq<Event>, j: JobId)
    ensures var s := Run(cfg, disk, events);
      && Starts(s.log, j) <= Prunes(s, cfg.hash(j)) + 1
      && (Starts(s.log, j) == Prunes(s, cfg.hash(j)) + 1 ==> Pinned(s.disk, cfg.hash(j)))
  {
    hide Run, Pinned, Starts, TaskInv;
    InvHolds(cfg, disk, events);
    assert Counted(cfg, Run(cfg, disk, events), j);
  }

  lemma {:induction false} PrunesAreEvents(cfg: Config, disk: Disk, events: seq<Event>, p: Path)
    requires Prune(p) !in events
    ensures Prunes(Run(cfg, disk, events), p) == 0
  {
    hide Move, Persist, Lookup, Claims, Crash, Remove;
    if events != [] {
      PrunesAreEvents(cfg, disk, events[..|events| - 1], p);
      assert events[|events| - 1] in events;
    }
  }

  lemma {:induction false} TwoStarts(log: seq<Dispatch>, j: JobId, i: nat, k: nat)
    requires i < k < |log| && log[i].job == j && log[k].job == j
    ensures Starts(log, j) >= 2
  {
    var n := |log| - 1;
    if k < n {
      TwoStarts(log[..n], j, i, k);
    } else {
      OneStart(log[..n], j, i);
    }
  }

  lemma {:induction false} OneStart(log: seq<Dispatch>, j: JobId, i: nat)
    requires i < |log| && log[i].job == j
    ensures Starts(log, j) >= 1
  {
    if i < |log| - 1 {
      OneStart(log[..|log| - 1], j, i);
    }
  }

  /** In a run in which the job's record is never pruned, no two starts are of that job. */
  lemma NeverTwice(cfg: Config, disk: Disk, events: seq<Event>, i: nat, k: nat)
    requires i < k < |Run(cfg, disk, events).log|
    requires Prune(cfg.hash(Run(cfg, disk, events).log[i].job)) !in events
    ensures Run(cfg, disk, events).log[i].job != Run(cfg, disk, events).log[k].job
  {
    hide Run, Pinned, Starts;
    var log := Run(cfg, disk, events).log;
    AtMostOnce(cfg, disk, events, log[i].job);
    PrunesAreEvents(cfg, disk, events, cfg.hash(log[i].job));
    if log[i].job == log[k].job {
      TwoStarts(log, log[i].job, i, k);
    }
  }

  /** Every process that was started had passed the host's backstop, as an exec with decodable parameters. */
  lemma StartsArePermitted(cfg: Config, disk: Disk, events: seq<Event>, i: nat)
    requires i < |Run(cfg, disk, events).log|
    ensures var d := Run(cfg, disk, events).log[i];
      cfg.allowlist.Permits(d.kind, d.runAs).Ok? && d.kind == "exec" && cfg.paramsDecode(d.params)
  {
    hide Run, Pinned, Starts, TaskInv, Counted;
    InvHolds(cfg, disk, events);
    assert Permitted(cfg, Run(cfg, disk, events).log[i]);
  }

  /** A start is always preceded by a record no crash can remove; a delivery is ignored only while another one runs. */
  lemma BeforeActing(cfg: Config, disk: Disk, events: seq<Event>, t: nat)
    requires t in Run(cfg, disk, events).tasks
    ensures var s := Run(cfg, disk, events);
      var k := s.tasks[t];
      && (k.phase == Ready ==>
            && Pinned(s.disk, cfg.hash(k.d.job))
            && Starts(s.log, k.d.job) <= Prunes(s, cfg.hash(k.d.job)))
      && (k.phase == Arrived && 0 < |k.d.job| <= MAX_JOB_ID_LEN ==>
            (Act(cfg, s, t, Go).tasks[t].answer == Busy
             <==> exists u :: u in s.tasks && u != t && Holding(s.tasks[u]) && s.tasks[u].d.job == k.d.job))
  {
    hide Run, Pinned, Starts, Counted;
    InvHolds(cfg, disk, events);
    var s := Run(cfg, disk, events);
    assert TaskInv(cfg, s, s.tasks[t]);
    if s.tasks[t].d.job in s.claims {
      assert Held(s, s.tasks[t].d.job);
    }
  }
}
