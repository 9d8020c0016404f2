/**
  The coordinator's bridge: sessions, pending jobs and shells, changed by one event loop,
  and what that means for each operator over any run of it.
 */
module Bridge {
  import opened Wrappers
  import opened Bytes
  import opened Collections
  import opened Framing
  import opened Channel
  import opened Sessions
  import opened ShellStreams
  import opened Admission
  import opened BridgeWorld

  datatype Job = Job(id: JobId, kind: string, runAs: string, params: seq<byte>)

  datatype JobResult = JobResult(job: JobId, body: Body)

  datatype Hello = Hello(eph: seq<byte>, sid: Blob, epoch: U64Value)

  /** The texts and codings the bridge sends and reads, taken as given. */
  datatype Wire = Wire(text: Host -> Blob, job: Job -> seq<byte>, size: (nat, nat) -> seq<byte>, stream: Coding,
                       result: seq<byte> -> Option<JobResult>)

  const SESSION_READY: seq<byte> := Ascii("osa/v1 session-ready")
  const SESSION_ACK: seq<byte> := Ascii("osa/v1 session-ack")

  /** The two control texts, character for character. */
  lemma ControlTexts(i: nat)
    ensures i < |"osa/v1 session-ready"|
            ==> |SESSION_READY| == 20 && SESSION_READY[i] == "osa/v1 session-ready"[i] as int
    ensures i < |"osa/v1 session-ack"| ==> |SESSION_ACK| == 18 && SESSION_ACK[i] == "osa/v1 session-ack"[i] as int
  {
  }

  /** A host's tenant: its id without hyphens. */
  function Tenant(host: string): string {
    if host == "" then "" else (if host[0] == '-' then "" else [host[0]]) + Tenant(host[1..])
  }

  /** Hyphens are dropped and everything else is kept, in order. */
  lemma {:induction false} TenantStrips(a: string, c: char, b: string)
    ensures Tenant(a + [c] + b) == Tenant(a) + (if c == '-' then "" else [c]) + Tenant(b)
    ensures Tenant("") == ""
  {
    if a == "" {
      assert (a + [c] + b)[1..] == b;
    } else {
      assert (a + [c] + b)[1..] == a[1..] + [c] + b;
      TenantStrips(a[1..], c, b);
    }
  }

  /**
    What is checked before the epoch store is asked: the hello decodes, its key and session
    id have acceptable lengths, its certificate verified and is the topic's tenant's, the
    session id is not the live one, the host is known not to be revoked, and the handshake
    succeeded.
   */
  predicate Passes(hello: Option<Hello>, tenant: string, identity: Option<Host>, sessions: map<Host, Live>,
                   revoked: Option<bool>, keys: Option<Keys>) {
    && hello.Some? && |hello.value.eph| == 32 && 0 < |hello.value.sid| <= 128
    && identity.Some? && Tenant(identity.value) == tenant
    && (identity.value in sessions ==> sessions[identity.value].end.sid != hello.value.sid)
    && revoked == Some(false) && keys.Some?
  }

  predicate Room(sessions: map<Host, Live>, host: Host) {
    host in sessions || |sessions| < MAX_SESSIONS
  }

  /** How a bounded channel takes an item. */
  datatype Sent = Delivered | Full | Closed

  datatype Refusal = DuplicateJob | AtCapacity | NotConnected | NotReached

  /** What the operator of a refused dispatch is told. */
  function Reason(r: Refusal): string {
    match r
    case DuplicateJob => "duplicate job_id"
    case AtCapacity => "coordinator at job capacity"
    case NotConnected => "host is not connected"
    case NotReached => "failed to reach the host"
  }

  datatype Answer = Taken | Refused(why: Refusal)

  const RECONNECTED := "host reconnected; job interrupted"
  const TIMED_OUT := "no result from host (timed out)"

  class Bridge {
    const wire: Wire
    const epochs: PgEpochs
    var sessions: map<Host, Live>
    var pending: map<(Host, JobId), nat>
    var shells: map<Host, Shell>
    /**
      Sessions stored and jobs registered so far: they tell one session object, and one operator's
      channel, from another.
     */
    var stored: nat
    var registered: nat
    ghost var log: seq<Stored>
    ghost var strayed: set<Host>
    ghost var honest: bool
    ghost var regs: seq<Registration>

    ghost function W(): World
      reads this
    {
      World(sessions, pending, shells, log, strayed, honest, regs)
    }

    ghost predicate Valid()
      reads this, epochs
    {
      Consistent(W()) && stored == |log| && registered == |regs| && Epoched(log, epochs.rows)
    }

    constructor (wire: Wire, epochs: PgEpochs)
      ensures Valid() && this.wire == wire && this.epochs == epochs
      ensures W() == World(map[], map[], map[], [], {}, true, []) && stored == 0
    {
      this.wire, this.epochs := wire, epochs;
      sessions, pending, shells := map[], map[], map[];
      stored, registered, log, strayed, honest, regs := 0, 0, [], {}, true, [];
    }

    // --- Failing jobs ---

    /** Fail and forget some pending jobs of the world `w`; `room` are those whose streams take an item. */
    method FailJobs(keys: set<(Host, JobId)>, reason: string, room: set<(Host, JobId)>, ghost w: World)
      requires Consistent(w) && w.pending == pending && w.regs == regs && keys <= pending.Keys
      modifies this`pending, this`regs
      ensures Consistent(w.(pending := pending, regs := regs)) && History(old(regs), regs)
      ensures FailedAll(old(regs), regs, keys, reason, room) && |regs| == |old(regs)|
      ensures pending == old(pending) - keys
    {
      hide Consistent, FailedAll, History, Hand;
      var left := keys;
      FailedNone(regs, keys - left, reason, room);
      assert w == w.(pending := pending, regs := regs);
      while left != {}
        invariant Consistent(w.(pending := pending, regs := regs)) && History(old(regs), regs)
        invariant FailedAll(old(regs), regs, keys - left, reason, room) && |regs| == |old(regs)|
        invariant left <= keys && pending == old(pending) - (keys - left)
        decreases left
      {
        Inhabited(left);
        var k :| k in left;
        assert keys - (left - {k}) == (keys - left) + {k} && k in pending;
        FailOne(w.(pending := pending, regs := regs), old(regs), keys - left, reason, room, k);
        regs := regs[pending[k] := Hand(regs[pending[k]], Notice(k, reason, room), false)];
        pending := pending - {k};
        left := left - {k};
        assert pending == old(pending) - (keys - left);
      }
      assert keys - left == keys;
    }

    /** Fail every job of a host and forget its shell. */
    method PurgeHost(host: Host, room: set<(Host, JobId)>, ghost w: World)
      requires Consistent(w) && w.pending == pending && w.regs == regs && w.shells == shells && w.strayed == strayed
      modifies this`pending, this`shells, this`strayed, this`regs
      ensures var w' := w.(pending := pending, shells := shells, strayed := strayed, regs := regs);
        Consistent(w') && Rid(w', host) && History(old(regs), regs)
      ensures var keys := set k | k in old(pending) && k.0 == host;
        pending == old(pending) - keys && |regs| == |old(regs)| && FailedAll(old(regs), regs, keys, RECONNECTED, room)
      ensures shells == old(shells) - {host} && strayed == old(strayed) - {host}
    {
      hide Consistent, FailedAll, History;
      FailJobs((set k | k in pending && k.0 == host), RECONNECTED, room, w);
      ClosedOk(w.(pending := pending, regs := regs), host);
      shells := shells - {host};
      strayed := strayed - {host};
    }

    /** Fail every job past its deadline. */
    method ReapStaleJobs(expired: set<(Host, JobId)>, room: set<(Host, JobId)>)
      requires Valid()
      modifies this`pending, this`regs
      ensures Valid() && History(old(regs), regs)
      ensures pending == old(pending) - expired
      ensures FailedAll(old(regs), regs, (set k | k in old(pending) && k in expired), TIMED_OUT, room)
    {
      hide Consistent, FailedAll, History, Epoched;
      FailJobs((set k | k in pending && k in expired), TIMED_OUT, room, W());
    }

    // --- Hellos ---

    /**
      Store a session and publish its ServerHello.  Only a published one is answered with
      the beacon; if publishing fails, the host's open jobs and its shell are left with a
      session that is no longer current.
     */
    method StoreSession(host: Host, hello: Hello, keys: Keys, fate: Publish)
      returns (r: Option<Host>, beacon: Option<Envelope>)
      requires Consistent(W()) && stored == |log| && Room(sessions, host)
      modifies this`sessions, this`stored, this`log, this`strayed, this`regs
      ensures stored == old(stored) + 1 && log == old(log) + [Stored(host, hello.epoch, hello.sid, keys, fate)]
      ensures |regs| == |old(regs)|
      ensures var end := NewEnd(hello.sid, keys);
        if fate == Published then
          && r == Some(host) && beacon == Some(end.Seal(wire.text(host), KIND_CONTROL, SESSION_READY))
          && sessions == old(sessions)[host := Live(old(stored), end.Sent())]
          && strayed == old(strayed) && regs == old(regs)
        else
          && r == None && beacon == None && sessions == old(sessions)[host := Live(old(stored), end)]
          && strayed == old(strayed) + ({host} * shells.Keys) && regs == Cross(old(regs), host) && Consistent(W())
    {
      hide Consistent, SealEnvelope;
      r, beacon := None, None;
      ghost var l := Stored(host, hello.epoch, hello.sid, keys, fate);
      if fate != Published {
        ReplacedOk(W(), l);
      }
      sessions := sessions[host := Live(stored, NewEnd(hello.sid, keys))];
      stored := stored + 1;
      log := log + [l];
      if fate != Published {
        strayed := strayed + ({host} * shells.Keys);
        regs := Cross(regs, host);
        return;
      }
      beacon := Some(sessions[host].end.Seal(wire.text(host), KIND_CONTROL, SESSION_READY));
      sessions := sessions[host := sessions[host].(end := sessions[host].end.Sent())];
      r := Some(host);
    }

    /**
      A hello that passes every check, whose epoch the store admits and for which there is
      room, is stored, whatever becomes of its ServerHello; any other changes no session.
     */
    method HandleClientHello(hello: Option<Hello>, tenant: string, identity: Option<Host>, revoked: Option<bool>,
                             keys: Option<Keys>, fault: Fault, fate: Publish)
      returns (r: Option<Host>, admitted: Option<Result<bool, StoreError>>, beacon: Option<Envelope>)
      requires Valid()
      modifies this`sessions, this`stored, this`log, this`strayed, this`regs, epochs
      ensures if && hello.Some? && |hello.value.eph| == 32 && 0 < |hello.value.sid| <= 128
                 && identity.Some? && Tenant(identity.value) == tenant
                 && !(identity.value in old(sessions) && old(sessions)[identity.value].end.sid == hello.value.sid)
                 && revoked == Some(false) && keys.Some?
              then
                var h, e := identity.value, hello.value.epoch;
                && admitted == Some(Verdict(old(epochs.rows), h, e, fault))
                && epochs.rows == Marked(old(epochs.rows), h, e, fault)
              else admitted.None? && epochs.rows == old(epochs.rows)
      ensures stored != old(stored) <==>
                admitted == Some(Ok(true)) && (identity.value in old(sessions) || |old(sessions)| < 50_000)
      ensures stored == old(stored) ==> r.None? && beacon.None? && W() == old(W())
      ensures stored != old(stored) ==>
                var h, s, k := identity.value, hello.value, keys.value;
                var end := NewEnd(s.sid, k);
                && stored == old(stored) + 1 && log == old(log) + [Stored(h, s.epoch, s.sid, k, fate)]
                && if fate == Published then
                     && r == Some(h) && beacon == Some(end.Seal(wire.text(h), KIND_CONTROL, SESSION_READY))
                     && sessions == old(sessions)[h := Live(old(stored), end.Sent())]
                     && strayed == old(strayed) && regs == old(regs)
                   else
                     && r == None && beacon == None && sessions == old(sessions)[h := Live(old(stored), end)]
                     && strayed == old(strayed) + ({h} * shells.Keys) && regs == Cross(old(regs), h)
      ensures stored == |log| && registered == |regs| && Epoched(log, epochs.rows)
      ensures r.None? ==> Valid()
    {
      hide Consistent, Epoched, SealEnvelope, Tenant, Cross;
      r, admitted, beacon := None, None, None;
      if hello.None? || |hello.value.eph| != 32 {
        return;
      }
      var sid := hello.value.sid;
      if |sid| == 0 || |sid| > 128 {
        return;
      }
      if identity.None? || Tenant(identity.value) != tenant {
        return;
      }
      var host := identity.value;
      if host in sessions && sessions[host].end.sid == sid {
        return;
      }
      if revoked != Some(false) {
        return;
      }
      if keys.None? {
        return;
      }
      ghost var rows := epochs.rows;
      var verdict := epochs.Admit(host, hello.value.epoch, fault);
      admitted := Some(verdict);
      if Exceeds(rows, host, hello.value.epoch) {
        MarkMoves(log, rows, host, hello.value.epoch);
        MarkStores(log, rows, Stored(host, hello.value.epoch, sid, keys.value, fate));
      }
      if verdict != Ok(true) {
        return;
      }
      if host !in sessions && |sessions| >= MAX_SESSIONS {
        return;
      }
      r, beacon := StoreSession(host, hello.value, keys.value, fate);
    }

    /**
      One hello, as the event loop handles it.  If it returns a host, that host has a fresh
      session and no job or shell of an earlier one is left; each of its operators was told,
      if there was room.  If publishing the ServerHello fails the session is replaced all
      the same and nothing is purged: exactly the host's open jobs are crossed.
     */
    method ClientHello(hello: Option<Hello>, tenant: string, identity: Option<Host>, revoked: Option<bool>,
                       keys: Option<Keys>, fault: Fault, fate: Publish, room: set<(Host, JobId)>)
      returns (r: Option<Host>, admitted: Option<Result<bool, StoreError>>)
      requires Valid()
      modifies this`sessions, this`pending, this`shells, this`stored, this`log, this`strayed, this`regs, epochs
      ensures Valid() && History(old(regs), regs) && honest == old(honest)
      ensures if Passes(hello, tenant, identity, old(sessions), revoked, keys) then
                var h, e := identity.value, hello.value.epoch;
                && admitted == Some(Verdict(old(epochs.rows), h, e, fault))
                && epochs.rows == Marked(old(epochs.rows), h, e, fault)
              else admitted.None? && epochs.rows == old(epochs.rows)
      ensures stored != old(stored) <==> admitted == Some(Ok(true)) && Room(old(sessions), identity.value)
      ensures r == if stored != old(stored) && fate == Published then identity else None
      ensures stored == old(stored) ==> W() == old(W())
      ensures stored != old(stored) ==>
                var h, s, k := identity.value, hello.value, keys.value;
                var end := NewEnd(s.sid, k);
                && stored == old(stored) + 1 && log == old(log) + [Stored(h, s.epoch, s.sid, k, fate)]
                && sessions == old(sessions)[h := Live(old(stored), if fate == Published then end.Sent() else end)]
      ensures stored != old(stored) ==>
                var h, keys := identity.value, set k | k in old(pending) && k.0 == identity.value;
                if fate == Published then
                  && Rid(W(), h) && pending == old(pending) - keys && shells == old(shells) - {h}
                  && FailedAll(old(regs), regs, keys, RECONNECTED, room)
                else pending == old(pending) && shells == old(shells) && regs == Cross(old(regs), h)
    {
      hide Consistent, FailedAll, History, Epoched, Verdict, Marked, Cross, Rid, SealEnvelope, Tenant;
      ghost var w := W();
      var beacon;
      r, admitted, beacon := HandleClientHello(hello, tenant, identity, revoked, keys, fault, fate);
      CrossHistory(old(regs), if stored == old(stored) then "" else identity.value);
      if r.Some? {
        Reconnected(r.value, room, w, log[|log| - 1]);
      }
    }

    /** A published hello is followed by the purge of what the host's old session left. */
    method Reconnected(host: Host, room: set<(Host, JobId)>, ghost w: World, ghost l: Stored)
      requires Consistent(w) && l.host == host
      requires W() == w.(sessions := w.sessions[host := Live(|w.log|, NewEnd(l.sid, l.keys).Sent())],
                         log := w.log + [l])
      modifies this`pending, this`shells, this`strayed, this`regs
      ensures Consistent(W()) && Rid(W(), host) && History(old(regs), regs) && |regs| == |old(regs)|
      ensures var keys := set k | k in old(pending) && k.0 == host;
        pending == old(pending) - keys && FailedAll(old(regs), regs, keys, RECONNECTED, room)
      ensures shells == old(shells) - {host}
    {
      hide Consistent, FailedAll, History;
      PurgeHost(host, room, w);
      ghost var w' := w.(pending := pending, shells := shells, strayed := strayed, regs := regs);
      ReplacedOk(w', l);
      CrossNothing(w', host);
      EndOk(Replaced(w', l), host, NewEnd(l.sid, l.keys).Sent(), honest);
      assert W() == WithEnd(Replaced(w', l), host, NewEnd(l.sid, l.keys).Sent(), honest);
    }

    // --- Sealed uplinks ---

    /** Open an uplink envelope with the host's session; results, acks and inventories all come through here. */
    method OpenUplink(host: Host, env: Envelope) returns (plaintext: Option<seq<byte>>)
      requires Valid()
      modifies this`sessions, this`honest
      ensures Valid()
      ensures plaintext == if host in old(sessions) then old(sessions)[host].end.Plaintext(env) else None
      ensures sessions == if host in old(sessions)
                          then old(sessions)[host := old(sessions)[host].(end := old(sessions)[host].end.Received(env))]
                          else old(sessions)
      ensures plaintext.Some? ==> host in sessions && sessions[host].inst < |log|
      ensures honest == (old(honest) && !(plaintext.Some? && log[sessions[host].inst].fate == Lost))
    {
      hide Consistent, OpenEnvelope, Epoched;
      if host !in sessions {
        return None;
      }
      InLog(W(), host);
      plaintext := OpenEnvelope(sessions[host].end.keys.open, env);
      if plaintext.None? {
        return;
      }
      if sessions[host].end.recvHigh.Some? && env.seqno <= sessions[host].end.recvHigh.value {
        return None;
      }
      var end := sessions[host].end.(recvHigh := Some(env.seqno));
      EndOk(W(), host, end, honest && log[sessions[host].inst].fate != Lost);
      honest := honest && log[sessions[host].inst].fate != Lost;
      sessions := sessions[host := sessions[host].(end := end)];
    }

    /** A control acknowledgement confirms the session it names, if it opens under it. */
    method HandleCtrlAck(host: Host, env: Envelope) returns (confirmed: bool)
      requires Valid()
      modifies this`sessions, this`honest
      ensures Valid()
      ensures var named := host in old(sessions) && old(sessions)[host].end.sid == env.sid;
        && confirmed == (named && old(sessions)[host].end.Plaintext(env) == Some(SESSION_ACK))
        && sessions == if !named then old(sessions)
                       else old(sessions)[host := old(sessions)[host].(end := old(sessions)[host].end.Received(env))]
    {
      hide Consistent, OpenEnvelope, Epoched;
      if host !in sessions || sessions[host].end.sid != env.sid {
        return false;
      }
      var plaintext := OpenUplink(host, env);
      confirmed := plaintext == Some(SESSION_ACK);
    }

    /**
      A sealed result: only an envelope that opens under the host's current session, with
      a new number, reaches the operator of that host's job; a terminal outcome, a closed
      or a full stream forgets the job.
     */
    method HandleResult(host: Host, env: Envelope, sent: Sent)
      requires Valid()
      modifies this`sessions, this`pending, this`honest, this`regs
      ensures Valid() && History(old(regs), regs)
      ensures sessions == if host in old(sessions)
                          then old(sessions)[host := old(sessions)[host].(end := old(sessions)[host].end.Received(env))]
                          else old(sessions)
      ensures host in sessions ==> sessions[host].inst < |log|
      ensures honest == (old(honest) && !(host in old(sessions) && old(sessions)[host].end.Takes(env)
                                          && log[sessions[host].inst].fate == Lost))
      ensures if && host in old(sessions) && env.ct.Sealed?
                 && env == SealEnvelope(old(sessions)[host].end.keys.open, env.host, env.sid, env.seqno, env.kind,
                                        env.ct.plaintext)
                 && (old(sessions)[host].end.recvHigh == None || env.seqno > old(sessions)[host].end.recvHigh.value)
                 && wire.result(env.ct.plaintext).Some?
                 && (host, wire.result(env.ct.plaintext).value.job) in old(pending)
              then
                var JobResult(job, body) := wire.result(env.ct.plaintext).value;
                var n, more := old(pending)[(host, job)], [FromAgent(old(sessions)[host].inst, env.seqno, body)];
                && n < |old(regs)|
                && var r := old(regs)[n];
                && (sent == Delivered && !body.Outcome? ==>
                      regs == old(regs)[n := r.(got := r.got + more)] && pending == old(pending))
                && (sent == Delivered && body.Outcome? ==>
                      && regs == old(regs)[n := r.(got := r.got + more, open := false)]
                      && pending == old(pending) - {(host, job)})
                && (sent != Delivered ==>
                      regs == old(regs)[n := r.(open := false)] && pending == old(pending) - {(host, job)})
              else regs == old(regs) && pending == old(pending)
    {
      hide Consistent, SealEnvelope, OpenEnvelope, History, Epoched, Fits, Grows;
      CrossHistory(regs, host);
      ghost var before := W();
      if host in sessions {
        InLog(before, host);
        EndTakesIff(sessions[host].end, env);
      }
      var plaintext := OpenUplink(host, env);
      if plaintext.None? {
        return;
      }
      var result := wire.result(plaintext.value);
      if result.None? {
        return;
      }
      var k := (host, result.value.job);
      if k !in pending {
        return;
      }
      ghost var x := FromAgent(sessions[host].inst, env.seqno, result.value.body);
      ResultFits(before, W(), k, env.seqno, result.value.body);
      var keep := sent == Delivered && !result.value.body.Outcome?;
      ghost var y := if sent == Delivered then Some(x) else None;
      GivenOk(W(), k, y, keep);
      Pending(W(), k, y, keep);
      assert regs[pending[k]].open;
      HistoryNext(regs, regs, pending[k], Hand(regs[pending[k]], y, keep));
      regs := regs[pending[k] := Hand(regs[pending[k]], y, keep)];
      match sent
      case Delivered =>
        if result.value.body.Outcome? {
          pending := pending - {k};
        }
      case Closed => pending := pending - {k};
      case Full => pending := pending - {k};
    }

    // --- Commands ---

    /**
      A dispatch is registered only under a free key, below the cap, to a host with a session, once it
      was published.
     */
    method Dispatch(host: Host, job: Job, published: bool) returns (a: Answer, out: Option<Envelope>)
      requires Valid()
      modifies this`sessions, this`pending, this`regs, this`registered
      ensures Valid() && History(old(regs), regs)
      ensures var k, full := (host, job.id), |old(pending)| >= 4096;
        && (a == Refused(DuplicateJob) <==> k in old(pending))
        && (a == Refused(AtCapacity) <==> k !in old(pending) && full)
        && (a == Refused(NotConnected) <==> k !in old(pending) && !full && host !in sessions)
        && (a == Refused(NotReached) <==> k !in old(pending) && !full && host in sessions && !published)
        && (a.Taken? <==> k !in old(pending) && !full && host in sessions && published)
        && (out.Some? <==> k !in old(pending) && !full && host in sessions)
      ensures out.Some? ==>
                && host in old(sessions)
                && var e := old(sessions)[host].end;
                && out.value == e.Seal(wire.text(host), KIND_CONTROL, wire.job(job))
                && sessions == old(sessions)[host := old(sessions)[host].(end := e.Sent())]
      ensures out.None? ==> sessions == old(sessions)
      ensures a.Taken? ==> regs == old(regs) + [Registration(host, job.id, sessions[host].inst, [], true, false)]
      ensures a.Taken? ==> pending == old(pending)[(host, job.id) := |old(regs)|]
      ensures a.Refused? ==> regs == old(regs) && pending == old(pending)
    {
      hide Consistent, SealEnvelope, Epoched;
      out := None;
      if (host, job.id) in pending {
        return Refused(DuplicateJob), None;
      }
      if |pending| >= MAX_PENDING_JOBS {
        return Refused(AtCapacity), None;
      }
      if host !in sessions {
        return Refused(NotConnected), None;
      }
      out := SealControl(host, wire.job(job));
      if !published {
        a := Refused(NotReached);
        return;
      }
      RegisteredOk(W(), host, job.id);
      pending := pending[(host, job.id) := registered];
      registered := registered + 1;
      regs := regs + [Registration(host, job.id, sessions[host].inst, [], true, false)];
      a := Taken;
    }

    /** Seal the next control frame of a host's session: its number is spent whether or not it is then published. */
    method SealControl(host: Host, payload: seq<byte>) returns (out: Option<Envelope>)
      requires Valid() && host in sessions
      modifies this`sessions
      ensures Valid() && out == Some(old(sessions)[host].end.Seal(wire.text(host), KIND_CONTROL, payload))
      ensures sessions == old(sessions)[host := old(sessions)[host].(end := old(sessions)[host].end.Sent())]
    {
      hide Consistent, SealEnvelope, Epoched;
      out := Some(sessions[host].end.Seal(wire.text(host), KIND_CONTROL, payload));
      EndOk(W(), host, sessions[host].end.Sent(), honest);
      sessions := sessions[host := sessions[host].(end := sessions[host].end.Sent())];
    }

    /**
      A published open binds the host's one shell to its current session, with keys of its
      own and numbers from 0; otherwise the operator is handed the closing frame.
     */
    method OpenShell(host: Host, streamId: string, runAs: string, rows: nat, cols: nat, published: bool)
      returns (out: Option<Envelope>, told: Option<StreamFrame>)
      requires Valid()
      modifies this`sessions, this`shells, this`strayed
      ensures Valid()
      ensures out.Some? <==> host in old(sessions)
      ensures out.Some? ==>
                var e, params := old(sessions)[host].end, wire.size(rows, cols);
                && out.value == e.Seal(wire.text(host), KIND_CONTROL, wire.job(Job(streamId, "shell", runAs, params)))
                && sessions == old(sessions)[host := old(sessions)[host].(end := e.Sent())]
      ensures told == if host in old(sessions) && published then None else Some(CLOSING)
      ensures out.None? ==> sessions == old(sessions)
      ensures told.Some? ==> shells == old(shells) && strayed == old(strayed)
      ensures told.None? ==>
                var s := old(sessions)[host];
                var end := NewEnd(s.end.sid, s.end.keys.Stream(streamId));
                shells == old(shells)[host := Shell(streamId, s.inst, end)] && strayed == old(strayed) - {host}
    {
      hide Consistent, SealEnvelope, Epoched;
      if host !in sessions {
        return None, Some(CLOSING);
      }
      var end := NewEnd(sessions[host].end.sid, sessions[host].end.keys.Stream(streamId));
      out := SealControl(host, wire.job(Job(streamId, "shell", runAs, wire.size(rows, cols))));
      if !published {
        told := Some(CLOSING);
        return;
      }
      OpenedOk(W(), host, streamId);
      shells := shells[host := Shell(streamId, sessions[host].inst, end)];
      strayed := strayed - {host};
      told := None;
    }

    /** The next sealed frame of a host's shell. */
    method SealStream(host: Host, frame: StreamFrame) returns (out: Option<Envelope>)
      requires Valid() && host in shells
      modifies this`shells
      ensures Valid()
      ensures out == Some(old(shells)[host].end.Seal(wire.text(host), KIND_STREAM, wire.stream.encode(frame)))
      ensures shells == old(shells)[host := old(shells)[host].(end := old(shells)[host].end.Sent())]
    {
      hide Consistent, SealEnvelope, Epoched;
      out := Some(shells[host].end.Seal(wire.text(host), KIND_STREAM, wire.stream.encode(frame)));
      UsedOk(W(), host, shells[host].end.Sent(), honest);
      shells := shells[host := shells[host].(end := shells[host].end.Sent())];
    }

    method ForgetShell(host: Host)
      requires Valid()
      modifies this`shells, this`strayed
      ensures Valid() && shells == old(shells) - {host} && strayed == old(strayed) - {host}
    {
      hide Consistent, Epoched;
      ClosedOk(W(), host);
      shells := shells - {host};
      strayed := strayed - {host};
    }

    /** Keystrokes are sealed for the shell they name and for no other; if they cannot be published, it is forgotten. */
    method ShellInput(host: Host, streamId: string, data: seq<byte>, published: bool) returns (out: Option<Envelope>)
      requires Valid()
      modifies this`shells, this`strayed
      ensures Valid()
      ensures var named := host in old(shells) && old(shells)[host].streamId == streamId;
        && (out.Some? <==> named)
        && (named ==>
              out.value == old(shells)[host].end.Seal(wire.text(host), KIND_STREAM,
                                                      wire.stream.encode(StreamFrame(data, false))))
        && shells == if !named then old(shells) else if !published then old(shells) - {host}
                     else old(shells)[host := old(shells)[host].(end := old(shells)[host].end.Sent())]
    {
      hide Consistent, SealEnvelope, Epoched;
      if host !in shells || shells[host].streamId != streamId {
        return None;
      }
      out := SealStream(host, StreamFrame(data, false));
      if !published {
        ForgetShell(host);
        assert shells == old(shells) - {host};
      }
    }

    /** A close seals the closing frame for the shell it names, and forgets it. */
    method ShellClose(host: Host, streamId: string) returns (out: Option<Envelope>)
      requires Valid()
      modifies this`shells, this`strayed
      ensures Valid()
      ensures var named := host in old(shells) && old(shells)[host].streamId == streamId;
        && (out.Some? <==> named)
        && (named ==> out.value == old(shells)[host].end.Seal(wire.text(host), KIND_STREAM,
                                                              wire.stream.encode(CLOSING)))
        && shells == if named then old(shells) - {host} else old(shells)
    {
      hide Consistent, SealEnvelope, Epoched;
      if host !in shells || shells[host].streamId != streamId {
        return None;
      }
      out := SealStream(host, CLOSING);
      ForgetShell(host);
      assert shells == old(shells) - {host};
    }

    /** Open a stream frame with the shell's own keys and guard. */
    method OpenStream(host: Host, env: Envelope) returns (frame: Option<StreamFrame>)
      requires Valid() && host in shells
      modifies this`shells, this`honest
      ensures Valid()
      ensures frame == match old(shells)[host].end.Plaintext(env)
                       case None => None
                       case Some(p) => wire.stream.decode(p)
      ensures shells == old(shells)[host := old(shells)[host].(end := old(shells)[host].end.Received(env))]
    {
      hide Consistent, OpenEnvelope, Epoched;
      ShellInLog(W(), host);
      var plaintext := OpenEnvelope(shells[host].end.keys.open, env);
      if plaintext.None? {
        return None;
      }
      if shells[host].end.recvHigh.Some? && env.seqno <= shells[host].end.recvHigh.value {
        return None;
      }
      var end := shells[host].end.(recvHigh := Some(env.seqno));
      UsedOk(W(), host, end, honest && log[shells[host].inst].fate != Lost);
      honest := honest && log[shells[host].inst].fate != Lost;
      shells := shells[host := shells[host].(end := end)];
      frame := wire.stream.decode(plaintext.value);
    }

    /**
      A stream frame that opens under the host's shell and decodes is handed to its operator.
      The closing frame, or an operator who is gone, ends the shell, with a closing frame
      back to the agent; a full stream loses this frame and nothing else.
     */
    method StreamUp(host: Host, env: Envelope, sent: Sent) returns (frame: Option<StreamFrame>, out: Option<Envelope>)
      requires Valid()
      modifies this`shells, this`strayed, this`honest
      ensures Valid()
      ensures host !in old(shells) ==> frame.None? && out.None? && shells == old(shells)
      ensures host in old(shells) ==>
                var e := old(shells)[host].end;
                var ends := frame.Some? && (sent == Closed || (sent == Delivered && frame.value.eof));
                && frame == (match e.Plaintext(env) case None => None case Some(p) => wire.stream.decode(p))
                && shells == (if ends then old(shells) - {host}
                              else old(shells)[host := old(shells)[host].(end := e.Received(env))])
                && (out.Some? <==> ends)
                && (ends ==> out.value == e.Received(env).Seal(wire.text(host), KIND_STREAM,
                                                               wire.stream.encode(CLOSING)))
    {
      hide Consistent, SealEnvelope, OpenEnvelope, Epoched;
      frame, out := None, None;
      if host !in shells {
        return;
      }
      frame := OpenStream(host, env);
      if frame.None? {
        return;
      }
      match sent
      case Delivered =>
        if frame.value.eof {
          out := SealStream(host, CLOSING);
          ForgetShell(host);
          assert shells == old(shells) - {host};
        }
      case Full =>
      case Closed =>
        out := SealStream(host, CLOSING);
        ForgetShell(host);
        assert shells == old(shells) - {host};
    }
  }

  lemma InLog(w: World, h: Host)
    requires Consistent(w) && h in w.sessions
    ensures w.sessions[h].inst < |w.log|
  {
  }

  lemma ShellInLog(w: World, h: Host)
    requires Consistent(w) && h in w.shells
    ensures w.shells[h].inst < |w.log| && h in w.sessions
  {
    assert ShellOk(w, h);
  }

  lemma ResultFits(before: World, w: World, k: (Host, JobId), seqno: U64Value, body: Body)
    requires Consistent(before) && k in before.pending && k.0 in before.sessions
    requires Newer(before.sessions[k.0].end.recvHigh, seqno) && before.sessions[k.0].inst < |before.log|
    requires w == WithEnd(before, k.0, before.sessions[k.0].end.(recvHigh := Some(seqno)),
                          before.honest && before.log[before.sessions[k.0].inst].fate != Lost)
    ensures w.pending[k] < |w.regs|
    ensures Fits(w.regs[w.pending[k]], w, FromAgent(w.sessions[k.0].inst, seqno, body))
  {
    hide Orderly, OneSession, AllHeard;
    assert RegistrationOk(before, before.pending[k]);
  }
}
