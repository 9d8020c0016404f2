/**
  What the coordinator's bridge keeps between two events, as one value, and what is
  invariant of it.  Every registration of a job remembers what its operator was sent and
  by which session; the log remembers every session ever stored.
 */
module BridgeWorld {
  import opened Wrappers
  import opened Bytes
  import opened Framing
  import opened Channel
  import opened Sessions
  import opened Admission

  type JobId = string

  /** How publishing a ServerHello ends.  The bridge cannot tell the last two apart: both are an error to it. */
  datatype Publish = Published | Lost | Unconfirmed

  /** One session that was stored, under its position in the log. */
  datatype Stored = Stored(host: Host, epoch: U64Value, sid: Blob, keys: Keys, fate: Publish)

  /** A host's current session; `inst` is its position in the log. */
  datatype Live = Live(inst: nat, end: End)

  datatype Shell = Shell(streamId: string, inst: nat, end: End)

  datatype Body = Output(data: seq<byte>) | Outcome(result: seq<byte>) | Empty

  /**
    What an operator receives: an agent's result, with the session and number it came under, or the
    bridge's own error.
   */
  datatype Item = FromAgent(inst: nat, seqno: U64Value, body: Body) | FromBridge(reason: string)

  predicate Terminal(x: Item) {
    x.FromBridge? || x.body.Outcome?
  }

  /**
    One registered dispatch: the session it was sealed to, what its operator got, whether
    it is still pending, and whether its session was replaced while it was.
   */
  datatype Registration = Registration(host: Host, job: JobId, inst: nat, got: seq<Item>, open: bool, crossed: bool)

  const MAX_PENDING_JOBS := 4096
  const MAX_SESSIONS := 50_000

  /**
    `strayed` are the hosts whose shell belongs to a session that was replaced; `honest`
    says that nothing has opened under a session whose ServerHello was lost.
   */
  datatype World = World(sessions: map<Host, Live>, pending: map<(Host, JobId), nat>, shells: map<Host, Shell>,
                         log: seq<Stored>, strayed: set<Host>, honest: bool, regs: seq<Registration>)

  // --- What one operator gets ---

  /** `x` came before `y`: an earlier session, or an earlier number of the same one. */
  predicate Earlier(x: Item, y: Item) {
    x.FromAgent? && y.FromAgent? ==> x.inst < y.inst || (x.inst == y.inst && x.seqno < y.seqno)
  }

  /** In order, at most one terminal item, and nothing after it. */
  ghost predicate InOrder(got: seq<Item>, open: bool) {
    && (forall i, j | 0 <= i < j < |got| :: Earlier(got[i], got[j]) && !Terminal(got[i]))
    && (open ==> forall i | 0 <= i < |got| :: got[i].FromAgent? && !Terminal(got[i]))
  }

  ghost predicate Orderly(r: Registration) {
    InOrder(r.got, r.open)
  }

  /** Everything came from the session the job was sealed to. */
  ghost predicate OneSession(r: Registration) {
    forall i | 0 <= i < |r.got| && r.got[i].FromAgent? :: r.got[i].inst == r.inst
  }

  /** Everything an open registration got is behind its host's session. */
  ghost predicate BehindSession(r: Registration, s: Live) {
    && r.inst <= s.inst
    && forall i | 0 <= i < |r.got| && r.got[i].FromAgent? ::
         r.got[i].inst < s.inst || (r.got[i].inst == s.inst && !Newer(s.end.recvHigh, r.got[i].seqno))
  }

  /** Of its own session, or of one whose ServerHello took effect although publishing it failed. */
  predicate Heard(x: Item, r: Registration, log: seq<Stored>) {
    x.FromAgent? ==>
      x.inst == r.inst || (x.inst < |log| && log[x.inst].host == r.host && log[x.inst].fate == Unconfirmed)
  }

  ghost predicate AllHeard(r: Registration, log: seq<Stored>) {
    forall i | 0 <= i < |r.got| :: Heard(r.got[i], r, log)
  }

  // --- The invariant ---

  /** While pending: its session is its host's current one exactly if it was not crossed. */
  ghost predicate Current(r: Registration, w: World) {
    && r.host in w.sessions && w.sessions[r.host].inst < |w.log| && BehindSession(r, w.sessions[r.host])
    && (r.crossed <==> r.inst != w.sessions[r.host].inst)
    && (r.crossed ==> w.log[w.sessions[r.host].inst].fate != Published)
  }

  ghost predicate RegistrationOk(w: World, i: nat)
    requires i < |w.regs|
  {
    var r := w.regs[i];
    && Orderly(r)
    && (r.open <==> (r.host, r.job) in w.pending && w.pending[(r.host, r.job)] == i)
    && r.inst < |w.log| && w.log[r.inst].host == r.host
    && (r.open ==> Current(r, w))
    && (!r.crossed ==> OneSession(r))
    && (w.honest ==> AllHeard(r, w.log))
  }

  /** An end with the id and keys of the stored session, or with those of one of its streams. */
  predicate EndOf(e: End, l: Stored, h: Host) {
    l.host == h && e.sid == l.sid && e.keys == l.keys
  }

  ghost predicate ShellOk(w: World, h: Host)
    requires h in w.shells
  {
    var s := w.shells[h];
    && s.inst < |w.log| && EndOf(s.end, w.log[s.inst].(keys := w.log[s.inst].keys.Stream(s.streamId)), h)
    && h in w.sessions && w.sessions[h].inst < |w.log|
    && (h in w.strayed <==> s.inst != w.sessions[h].inst)
    && (h in w.strayed ==> w.log[w.sessions[h].inst].fate != Published)
  }

  ghost predicate SessionsOk(w: World) {
    forall h | h in w.sessions :: w.sessions[h].inst < |w.log| && EndOf(w.sessions[h].end, w.log[w.sessions[h].inst], h)
  }

  ghost predicate PendingOk(w: World) {
    forall k | k in w.pending ::
      w.pending[k] < |w.regs| && w.regs[w.pending[k]].host == k.0 && w.regs[w.pending[k]].job == k.1
  }

  ghost predicate ShellsOk(w: World) {
    w.strayed <= w.shells.Keys && forall h | h in w.shells :: ShellOk(w, h)
  }

  ghost predicate RegistrationsOk(w: World) {
    forall i | 0 <= i < |w.regs| :: RegistrationOk(w, i)
  }

  ghost predicate Consistent(w: World) {
    |w.pending| <= MAX_PENDING_JOBS && SessionsOk(w) && PendingOk(w) && ShellsOk(w) && RegistrationsOk(w)
  }

  /** Stored sessions of one host have strictly increasing epochs, none above the host's mark. */
  ghost predicate Epoched(log: seq<Stored>, rows: map<Host, U64Value>) {
    && (forall i | 0 <= i < |log| :: log[i].host in rows && log[i].epoch <= rows[log[i].host])
    && (forall i, j | 0 <= i < j < |log| && log[i].host == log[j].host :: log[i].epoch < log[j].epoch)
  }

  /** The mark may move for a hello of which nothing comes, here or at another replica. */
  lemma MarkMoves(log: seq<Stored>, rows: map<Host, U64Value>, host: Host, epoch: U64Value)
    requires Epoched(log, rows) && Exceeds(rows, host, epoch)
    ensures Epoched(log, rows[host := epoch])
  {
  }

  lemma MarkStores(log: seq<Stored>, rows: map<Host, U64Value>, l: Stored)
    requires Epoched(log, rows) && Exceeds(rows, l.host, l.epoch)
    ensures Epoched(log + [l], rows[l.host := l.epoch])
  {
  }

  lemma ShellsStay(w: World, w': World)
    requires ShellsOk(w) && w'.shells == w.shells && w'.strayed == w.strayed && w'.log == w.log
    requires forall h | h in w.sessions :: h in w'.sessions && w'.sessions[h].inst == w.sessions[h].inst
    ensures ShellsOk(w')
  {
    forall h | h in w'.shells
      ensures ShellOk(w', h)
    {
      assert ShellOk(w, h);
    }
  }

  // --- A session seals or opens ---

  /** The same end, some frames later. */
  predicate Later(e: End, e': End) {
    e'.sid == e.sid && e'.keys == e.keys
    && (e.recvHigh.Some? ==> e'.recvHigh.Some? && e.recvHigh.value <= e'.recvHigh.value)
  }

  function WithEnd(w: World, h: Host, e: End, honest: bool): World
    requires h in w.sessions
  {
    w.(sessions := w.sessions[h := w.sessions[h].(end := e)], honest := honest)
  }

  lemma EndOk(w: World, h: Host, e: End, honest: bool)
    requires Consistent(w) && h in w.sessions && Later(w.sessions[h].end, e) && (honest ==> w.honest)
    ensures Consistent(WithEnd(w, h, e, honest))
  {
    hide Orderly, OneSession, AllHeard, ShellsOk;
    var w' := WithEnd(w, h, e, honest);
    forall i | 0 <= i < |w'.regs|
      ensures RegistrationOk(w', i)
    {
      assert RegistrationOk(w, i);
    }
    ShellsStay(w, w');
  }

  // --- Pending jobs ---

  /** A pending job is handed an item, and forgotten if told so. */
  function Hand(r: Registration, x: Option<Item>, keep: bool): Registration {
    r.(got := if x.Some? then r.got + [x.value] else r.got, open := keep)
  }

  /** An item of the host's current session, numbered at the guard, that the registration has not seen. */
  ghost predicate Fits(r: Registration, w: World, x: Item)
    requires x.FromAgent?
  {
    && r.open && r.host in w.sessions && x.inst == w.sessions[r.host].inst && x.inst < |w.log|
    && w.sessions[r.host].end.recvHigh == Some(x.seqno)
    && w.log[x.inst].host == r.host && (w.honest ==> w.log[x.inst].fate != Lost)
    && forall i | 0 <= i < |r.got| && r.got[i].FromAgent? :: Earlier(r.got[i], x)
  }

  /** What a hand-over keeps of the registration itself. */
  lemma HandOk(r: Registration, w: World, x: Option<Item>, keep: bool)
    requires Orderly(r) && r.open && Current(r, w) && (!r.crossed ==> OneSession(r))
             && (w.honest ==> AllHeard(r, w.log))
    requires x.Some? && x.value.FromAgent? ==> Fits(r, w, x.value)
    requires keep ==> x.Some? && x.value.FromAgent? && !Terminal(x.value)
    ensures var r' := Hand(r, x, keep);
      && Orderly(r') && (keep ==> Current(r', w)) && (!r'.crossed ==> OneSession(r'))
      && (w.honest ==> AllHeard(r', w.log))
  {
    var r' := Hand(r, x, keep);
    assert forall i | 0 <= i < |r.got| :: r'.got[i] == r.got[i];
    assert keep ==> BehindSession(r', w.sessions[r.host]);
  }

  function Given(w: World, k: (Host, JobId), x: Option<Item>, keep: bool): World
    requires k in w.pending && w.pending[k] < |w.regs|
  {
    w.(pending := if keep then w.pending else w.pending - {k},
       regs := w.regs[w.pending[k] := Hand(w.regs[w.pending[k]], x, keep)])
  }

  /** What handing one job an item keeps of every registration. */
  lemma GivenReg(w: World, k: (Host, JobId), x: Option<Item>, keep: bool, i: nat)
    requires PendingOk(w) && RegistrationsOk(w) && k in w.pending && i < |w.regs|
    requires x.Some? && x.value.FromAgent? ==> Fits(w.regs[w.pending[k]], w, x.value)
    requires keep ==> x.Some? && x.value.FromAgent? && !Terminal(x.value)
    ensures RegistrationOk(Given(w, k, x, keep), i)
  {
    hide Orderly, OneSession, AllHeard, Current, Fits;
    assert RegistrationOk(w, i);
    if i == w.pending[k] {
      HandOk(w.regs[i], w, x, keep);
    }
    SameCurrent(Given(w, k, x, keep).regs[i], w, Given(w, k, x, keep));
  }

  /** A pending job is handed an item, or forgotten with at most one last item. */
  lemma GivenOk(w: World, k: (Host, JobId), x: Option<Item>, keep: bool)
    requires Consistent(w) && k in w.pending
    requires x.Some? && x.value.FromAgent? ==> Fits(w.regs[w.pending[k]], w, x.value)
    requires keep ==> x.Some? && x.value.FromAgent? && !Terminal(x.value)
    ensures Consistent(Given(w, k, x, keep))
  {
    hide RegistrationOk, ShellsOk, Fits;
    var w' := Given(w, k, x, keep);
    Fewer(w.pending, k);
    forall i | 0 <= i < |w'.regs|
      ensures RegistrationOk(w', i)
    {
      GivenReg(w, k, x, keep, i);
    }
    ShellsStay(w, w');
  }

  lemma SameCurrent(r: Registration, w: World, w': World)
    requires w'.sessions == w.sessions && w'.log == w.log
    ensures Current(r, w') == Current(r, w)
  {
  }

  lemma Fewer(pending: map<(Host, JobId), nat>, k: (Host, JobId))
    requires k in pending
    ensures |pending - {k}| == |pending| - 1
  {
    assert pending.Keys == (pending - {k}).Keys + {k};
    assert |pending.Keys| == |pending| && |(pending - {k}).Keys| == |pending - {k}|;
  }

  function Registered(w: World, h: Host, job: JobId): World
    requires h in w.sessions
  {
    w.(pending := w.pending[(h, job) := |w.regs|],
       regs := w.regs + [Registration(h, job, w.sessions[h].inst, [], true, false)])
  }

  lemma RegisteredReg(w: World, h: Host, job: JobId, i: nat)
    requires SessionsOk(w) && RegistrationsOk(w) && h in w.sessions && (h, job) !in w.pending && i <= |w.regs|
    ensures RegistrationOk(Registered(w, h, job), i)
  {
    var w' := Registered(w, h, job);
    if i < |w.regs| {
      hide Orderly, OneSession, AllHeard, Current;
      assert RegistrationOk(w, i);
      SameCurrent(w.regs[i], w, w');
    }
  }

  lemma RegisteredPending(w: World, h: Host, job: JobId)
    requires PendingOk(w) && h in w.sessions
    ensures PendingOk(Registered(w, h, job))
  {
  }

  lemma OneMore(pending: map<(Host, JobId), nat>, k: (Host, JobId), n: nat)
    requires k !in pending
    ensures |pending[k := n]| == |pending| + 1
  {
    assert pending[k := n].Keys == pending.Keys + {k};
    assert |pending.Keys| == |pending| && |pending[k := n].Keys| == |pending[k := n]|;
  }

  lemma RegisteredOk(w: World, h: Host, job: JobId)
    requires Consistent(w) && h in w.sessions && (h, job) !in w.pending && |w.pending| < MAX_PENDING_JOBS
    ensures Consistent(Registered(w, h, job))
  {
    hide RegistrationOk, ShellsOk, PendingOk;
    var w' := Registered(w, h, job);
    OneMore(w.pending, (h, job), |w.regs|);
    RegisteredPending(w, h, job);
    forall i | 0 <= i < |w'.regs|
      ensures RegistrationOk(w', i)
    {
      RegisteredReg(w, h, job, i);
    }
    ShellsStay(w, w');
  }

  // --- A session is replaced ---

  /** Exactly the open registrations of the host are marked. */
  ghost function Cross(regs: seq<Registration>, h: Host): (r: seq<Registration>)
    ensures |r| == |regs|
    ensures forall i | 0 <= i < |regs| ::
              r[i] == if regs[i].open && regs[i].host == h then regs[i].(crossed := true) else regs[i]
  {
    seq(|regs|, i requires 0 <= i < |regs| =>
      if regs[i].open && regs[i].host == h then regs[i].(crossed := true) else regs[i])
  }

  /** No job and no shell of the host is left. */
  ghost predicate Rid(w: World, h: Host) {
    h !in w.shells && forall k | k in w.pending :: k.0 != h
  }

  ghost function Replaced(w: World, l: Stored): World {
    w.(sessions := w.sessions[l.host := Live(|w.log|, NewEnd(l.sid, l.keys))], log := w.log + [l],
       strayed := w.strayed + ({l.host} * w.shells.Keys), regs := Cross(w.regs, l.host))
  }

  /** A longer log says the same about the sessions it had. */
  lemma HeardStays(r: Registration, r': Registration, log: seq<Stored>, l: Stored)
    requires AllHeard(r, log) && r'.got == r.got && r'.inst == r.inst && r'.host == r.host
    ensures AllHeard(r', log + [l])
  {
    forall i | 0 <= i < |r'.got|
      ensures Heard(r'.got[i], r', log + [l])
    {
      assert Heard(r.got[i], r, log);
    }
  }

  /** An open registration stays with its session, or is crossed because that was replaced. */
  lemma CrossCurrent(w: World, l: Stored, i: nat)
    requires Consistent(w) && i < |w.regs| && w.regs[i].open && (l.fate == Published ==> Rid(w, l.host))
    ensures Current(Replaced(w, l).regs[i], Replaced(w, l))
  {
    hide Orderly, OneSession, AllHeard, PendingOk, ShellsOk, SessionsOk;
    var w', r := Replaced(w, l), w.regs[i];
    assert RegistrationOk(w, i);
    if r.host == l.host {
      assert (r.host, r.job) in w.pending;
    } else {
      assert w'.log[w.sessions[r.host].inst] == w.log[w.sessions[r.host].inst];
    }
  }

  /** What a new log entry keeps of one registration, crossed or not. */
  lemma CrossOk(w: World, l: Stored, i: nat)
    requires Consistent(w) && i < |w.regs| && (l.fate == Published ==> Rid(w, l.host))
    ensures RegistrationOk(Replaced(w, l), i)
  {
    hide InOrder, AllHeard, Current, PendingOk, ShellsOk, SessionsOk, Rid;
    var w', r := Replaced(w, l), w.regs[i];
    assert RegistrationOk(w, i);
    assert w'.log[r.inst] == w.log[r.inst];
    if r.open {
      CrossCurrent(w, l, i);
    }
    if w.honest {
      HeardStays(r, w'.regs[i], w.log, l);
    }
  }

  lemma ReplacedShells(w: World, l: Stored)
    requires ShellsOk(w) && (l.fate == Published ==> l.host !in w.shells)
    ensures ShellsOk(Replaced(w, l))
  {
    var w' := Replaced(w, l);
    forall h | h in w'.shells
      ensures ShellOk(w', h)
    {
      assert ShellOk(w, h);
    }
  }

  /** A host's session is replaced: unpublished, or while nothing of the old one is left. */
  lemma ReplacedOk(w: World, l: Stored)
    requires Consistent(w) && (l.fate == Published ==> Rid(w, l.host))
    ensures Consistent(Replaced(w, l))
  {
    hide RegistrationOk, ShellsOk;
    var w' := Replaced(w, l);
    forall i | 0 <= i < |w'.regs|
      ensures RegistrationOk(w', i)
    {
      CrossOk(w, l, i);
    }
    ReplacedShells(w, l);
  }

  /** With nothing of the old session left there is nothing to mark. */
  lemma CrossNothing(w: World, h: Host)
    requires Consistent(w) && Rid(w, h)
    ensures Cross(w.regs, h) == w.regs && {h} * w.shells.Keys == {}
  {
    hide Orderly, OneSession, AllHeard, Current;
    forall i | 0 <= i < |w.regs|
      ensures Cross(w.regs, h)[i] == w.regs[i]
    {
      assert RegistrationOk(w, i);
    }
  }

  // --- Shells ---

  function WithShell(w: World, h: Host, s: Shell, honest: bool): World
    requires h in w.sessions
  {
    w.(shells := w.shells[h := s], honest := honest,
       strayed := if s.inst == w.sessions[h].inst then w.strayed - {h} else w.strayed + {h})
  }

  lemma ShellChanged(w: World, w': World)
    requires Consistent(w) && w' == w.(shells := w'.shells, strayed := w'.strayed, honest := w'.honest)
    requires ShellsOk(w') && (w'.honest ==> w.honest)
    ensures Consistent(w')
  {
    hide Orderly, OneSession, AllHeard, Current, ShellsOk;
    forall i | 0 <= i < |w'.regs|
      ensures RegistrationOk(w', i)
    {
      assert RegistrationOk(w, i);
      SameCurrent(w.regs[i], w, w');
    }
  }

  /** A host's shell is put in place, and the others stay. */
  lemma WithShellOk(w: World, h: Host, s: Shell, honest: bool)
    requires Consistent(w) && h in w.sessions && s.inst < |w.log| && (honest ==> w.honest)
    requires EndOf(s.end, w.log[s.inst].(keys := w.log[s.inst].keys.Stream(s.streamId)), h)
    requires s.inst != w.sessions[h].inst ==> w.log[w.sessions[h].inst].fate != Published
    ensures Consistent(WithShell(w, h, s, honest))
  {
    hide RegistrationsOk, PendingOk;
    var w' := WithShell(w, h, s, honest);
    forall g | g in w'.shells
      ensures ShellOk(w', g)
    {
      assert g != h ==> ShellOk(w, g);
    }
    ShellChanged(w, w');
  }

  /** A shell of the host's current session is opened, in place of any other. */
  lemma OpenedOk(w: World, h: Host, id: string)
    requires Consistent(w) && h in w.sessions
    ensures var l := w.sessions[h];
      Consistent(WithShell(w, h, Shell(id, l.inst, NewEnd(l.end.sid, l.end.keys.Stream(id))), w.honest))
  {
    hide RegistrationsOk, PendingOk, ShellsOk;
    var l := w.sessions[h];
    assert EndOf(l.end, w.log[l.inst], h);
    WithShellOk(w, h, Shell(id, l.inst, NewEnd(l.end.sid, l.end.keys.Stream(id))), w.honest);
  }

  /** A shell seals or opens a frame. */
  lemma UsedOk(w: World, h: Host, e: End, honest: bool)
    requires Consistent(w) && h in w.shells && Later(w.shells[h].end, e) && (honest ==> w.honest)
    ensures h in w.sessions && Consistent(WithShell(w, h, w.shells[h].(end := e), honest))
    ensures WithShell(w, h, w.shells[h].(end := e), honest).strayed == w.strayed
  {
    hide RegistrationsOk, PendingOk, SessionsOk;
    assert ShellOk(w, h);
    WithShellOk(w, h, w.shells[h].(end := e), honest);
  }

  function WithoutShell(w: World, h: Host): World {
    w.(shells := w.shells - {h}, strayed := w.strayed - {h})
  }

  lemma ClosedShells(w: World, h: Host)
    requires ShellsOk(w)
    ensures ShellsOk(WithoutShell(w, h))
  {
    forall g | g in w.shells - {h}
      ensures ShellOk(WithoutShell(w, h), g)
    {
      assert ShellOk(w, g);
    }
  }

  lemma ClosedOk(w: World, h: Host)
    requires Consistent(w)
    ensures Consistent(WithoutShell(w, h))
  {
    hide RegistrationsOk, PendingOk, SessionsOk, ShellsOk;
    ClosedShells(w, h);
    ShellChanged(w, WithoutShell(w, h));
  }

  // --- History ---

  /** A registration only ever gets more, and a closed one gets nothing. */
  ghost predicate Grows(r: Registration, r': Registration) {
    && r'.host == r.host && r'.job == r.job && r'.inst == r.inst && r.got <= r'.got && (r.crossed ==> r'.crossed)
    && (!r.open ==> r' == r)
  }

  ghost predicate History(regs: seq<Registration>, regs': seq<Registration>) {
    |regs| <= |regs'| && forall i | 0 <= i < |regs| :: Grows(regs[i], regs'[i])
  }

  lemma HistoryNext(regs0: seq<Registration>, regs: seq<Registration>, n: nat, r': Registration)
    requires History(regs0, regs) && n < |regs| && regs[n].open && Grows(regs[n], r')
    ensures History(regs0, regs[n := r'])
  {
  }

  lemma CrossHistory(regs: seq<Registration>, h: Host)
    ensures History(regs, Cross(regs, h)) && History(regs, regs)
  {
  }

  /** A pending job's registration is open and of that key, and may be handed anything. */
  lemma Pending(w: World, k: (Host, JobId), x: Option<Item>, keep: bool)
    requires Consistent(w) && k in w.pending
    ensures var n := w.pending[k];
      && n < |w.regs| && w.regs[n].host == k.0 && w.regs[n].job == k.1 && w.regs[n].open
      && Grows(w.regs[n], Hand(w.regs[n], x, keep))
  {
    hide Orderly, OneSession, AllHeard, Current;
    assert RegistrationOk(w, w.pending[k]);
  }

  /** At most one registration of a key is open, the pending one. */
  lemma OnlyOne(w: World, k: (Host, JobId))
    requires Consistent(w) && k in w.pending
    ensures forall i | 0 <= i < |w.regs| && w.regs[i].open && (w.regs[i].host, w.regs[i].job) == k :: i == w.pending[k]
  {
    hide Orderly, OneSession, AllHeard, Current;
    forall i | 0 <= i < |w.regs| && w.regs[i].open && (w.regs[i].host, w.regs[i].job) == k
      ensures i == w.pending[k]
    {
      assert RegistrationOk(w, i);
    }
  }

  // --- Failing jobs ---

  ghost function Notice(k: (Host, JobId), reason: string, room: set<(Host, JobId)>): Option<Item> {
    if k in room then Some(FromBridge(reason)) else None
  }

  /** Exactly the open registrations under `keys` are closed, each with the error where its stream has room. */
  ghost predicate FailedAll(regs: seq<Registration>, regs': seq<Registration>, keys: set<(Host, JobId)>, reason: string,
                            room: set<(Host, JobId)>) {
    && |regs'| == |regs|
    && forall i | 0 <= i < |regs| ::
         var r, k := regs[i], (regs[i].host, regs[i].job);
         regs'[i] == if !r.open || k !in keys then r
                     else if k in room then r.(got := r.got + [FromBridge(reason)], open := false)
                     else r.(open := false)
  }

  lemma FailedNone(regs: seq<Registration>, keys: set<(Host, JobId)>, reason: string, room: set<(Host, JobId)>)
    requires keys == {}
    ensures FailedAll(regs, regs, keys, reason, room) && History(regs, regs)
  {
  }

  lemma FailedNext(regs0: seq<Registration>, regs: seq<Registration>, keys: set<(Host, JobId)>, reason: string,
                   room: set<(Host, JobId)>, k: (Host, JobId), n: nat)
    requires FailedAll(regs0, regs, keys, reason, room) && k !in keys && n < |regs|
    requires regs[n].open && (regs[n].host, regs[n].job) == k
    requires forall i | 0 <= i < |regs| && regs[i].open && (regs[i].host, regs[i].job) == k :: i == n
    ensures FailedAll(regs0, regs[n := Hand(regs[n], Notice(k, reason, room), false)], keys + {k}, reason, room)
  {
    var regs' := regs[n := Hand(regs[n], Notice(k, reason, room), false)];
    assert regs0[n].open && regs[n] == regs0[n];
    forall i | 0 <= i < |regs0|
      ensures var r, q := regs0[i], (regs0[i].host, regs0[i].job);
        regs'[i] == if !r.open || q !in keys + {k} then r
                    else if q in room then r.(got := r.got + [FromBridge(reason)], open := false)
                    else r.(open := false)
    {
    }
  }

  /** Failing one more pending job. */
  lemma FailOne(w: World, regs0: seq<Registration>, keys: set<(Host, JobId)>, reason: string, room: set<(Host, JobId)>,
                k: (Host, JobId))
    requires Consistent(w) && k in w.pending && k !in keys
    requires FailedAll(regs0, w.regs, keys, reason, room) && History(regs0, w.regs)
    ensures w.pending[k] < |w.regs|
    ensures var w' := Given(w, k, Notice(k, reason, room), false);
      Consistent(w') && FailedAll(regs0, w'.regs, keys + {k}, reason, room) && History(regs0, w'.regs)
  {
    hide Consistent, FailedAll, History, Hand, Grows;
    var x := Notice(k, reason, room);
    Pending(w, k, x, false);
    GivenOk(w, k, x, false);
    OnlyOne(w, k);
    FailedNext(regs0, w.regs, keys, reason, room, k, w.pending[k]);
    HistoryNext(regs0, w.regs, w.pending[k], Hand(w.regs[w.pending[k]], x, false));
  }
}
