/** What the bridge's invariant means for operators, and where it stops. */
module BridgeTheorems {
  import opened Wrappers
  import opened Bytes
  import opened Framing
  import opened Channel
  import opened Sessions
  import opened Admission
  import opened BridgeWorld
  import opened Bridge

  /** The numbers of what the agent sent rise. */
  ghost predicate Rising(r: Registration) {
    forall m, n | 0 <= m < n < |r.got| && r.got[m].FromAgent? && r.got[n].FromAgent? :: r.got[m].seqno < r.got[n].seqno
  }

  /**
    After any run, each registration got its items in order, at most one of them terminal
    and that one last.  Unless it was crossed, all came from the one session it was sealed
    to, numbers rising; and while it is pending it was crossed exactly if its host's session
    is no longer that one.
   */
  lemma EachOperator(b: Bridge, i: nat)
    requires b.Valid() && i < |b.regs|
    ensures var r := b.regs[i];
      && Orderly(r) && |b.pending| <= MAX_PENDING_JOBS
      && (!r.crossed ==> OneSession(r) && Rising(r))
      && (r.open ==> r.host in b.sessions && (r.crossed <==> r.inst != b.sessions[r.host].inst))
  {
    assert RegistrationOk(b.W(), i);
    var r := b.regs[i];
    if OneSession(r) {
      forall m, n | 0 <= m < n < |r.got| && r.got[m].FromAgent? && r.got[n].FromAgent?
        ensures r.got[m].seqno < r.got[n].seqno
      {
        assert Earlier(r.got[m], r.got[n]);
      }
    }
  }

  /**
    As long as nothing opens under a session whose ServerHello was lost, which the agent
    has no keys of, an operator gets items of another session only where a ServerHello to
    the job's host took effect although publishing it failed; without such a one, all come
    from the session the job was sealed to.
   */
  lemma OnlyUnconfirmed(b: Bridge, i: nat)
    requires b.Valid() && i < |b.regs| && b.honest
    ensures AllHeard(b.regs[i], b.log)
    ensures (forall l | l in b.log && l.host == b.regs[i].host :: l.fate != Unconfirmed) ==> OneSession(b.regs[i])
  {
    assert RegistrationOk(b.W(), i);
    var r := b.regs[i];
    if forall l | l in b.log && l.host == r.host :: l.fate != Unconfirmed {
      forall k | 0 <= k < |r.got| && r.got[k].FromAgent?
        ensures r.got[k].inst == r.inst
      {
        assert Heard(r.got[k], r, b.log);
      }
    }
  }

  /**
    A host's shell has keys of the session it was opened under, which is the current one exactly if
    it did not stray.
   */
  lemma EachShell(b: Bridge, h: Host)
    requires b.Valid() && h in b.shells
    ensures var s := b.shells[h];
      && h in b.sessions && s.inst < |b.log| && b.log[s.inst].host == h
      && s.end.keys == b.log[s.inst].keys.Stream(s.streamId)
      && (h in b.strayed <==> s.inst != b.sessions[h].inst)
      && (h in b.strayed ==> b.sessions[h].inst < |b.log| && b.log[b.sessions[h].inst].fate != Published)
  {
    assert ShellOk(b.W(), h);
  }

  /** No epoch is stored twice for a host: a later session of it has a larger one. */
  lemma NoSessionAgain(b: Bridge, i: nat, j: nat)
    requires b.Valid() && i < j < |b.log| && b.log[i].host == b.log[j].host
    ensures b.log[i].epoch < b.log[j].epoch <= b.epochs.rows[b.log[j].host]
  {
  }

  /** A crossed job is cut off from its agent: what its own session's key sealed reaches no job of its host any more. */
  lemma CutOff(b: Bridge, i: nat, env: Envelope)
    requires b.Valid() && i < |b.regs| && b.regs[i].open && b.regs[i].crossed && env.ct.Sealed?
    ensures var r := b.regs[i];
      && r.inst < |b.log| && r.host in b.sessions && b.sessions[r.host].inst < |b.log|
      && var mine, now := b.log[r.inst].keys.open, b.log[b.sessions[r.host].inst].keys.open;
      mine != now && env.ct.key == mine ==> !b.sessions[r.host].end.Takes(env)
  {
    assert RegistrationOk(b.W(), i);
  }

  // --- A job whose session is replaced by an unpublished hello ---

  /** A wire on which `pt` is a chunk of the job. */
  predicate Chunk(wire: Wire, pt: seq<byte>, job: JobId, data: seq<byte>) {
    wire.result(pt) == Some(JobResult(job, Output(data)))
  }

  predicate Usable(h: Hello) {
    |h.eph| == 32 && 0 < |h.sid| <= 128 && h.epoch <= I64_MAX
  }

  /** A first session, and one job sealed to it. */
  method Connect(wire: Wire, host: Host, job: Job, hello: Hello, keys: Keys) returns (b: Bridge)
    requires Usable(hello)
    ensures fresh(b) && fresh(b.epochs) && b.Valid() && b.wire == wire && b.honest && b.stored == 1
    ensures b.epochs.rows == map[host := hello.epoch]
    ensures b.sessions.Keys == {host} && b.sessions[host].inst == 0
    ensures b.sessions[host].end.sid == hello.sid && b.sessions[host].end.recvHigh == None
    ensures b.log == [Stored(host, hello.epoch, hello.sid, keys, Published)]
    ensures b.pending == map[(host, job.id) := 0] && b.regs == [Registration(host, job.id, 0, [], true, false)]
  {
    hide Consistent, FailedAll, History, Epoched, Tenant, SealEnvelope, Rid;
    var epochs := new PgEpochs();
    b := new Bridge(wire, epochs);
    var r, admitted := b.ClientHello(Some(hello), Tenant(host), Some(host), Some(false), Some(keys), NoFault,
                                     Published, {});
    FailedNothing(b.regs);
    var a, out := b.Dispatch(host, job, true);
  }

  method FirstSession(wire: Wire, host: Host, job: Job, pt: seq<byte>, data: seq<byte>, hello: Hello, keys: Keys)
    returns (b: Bridge)
    requires Chunk(wire, pt, job.id, data) && Usable(hello)
    ensures fresh(b) && fresh(b.epochs) && b.Valid() && b.wire == wire && b.honest && b.stored == 1
    ensures b.epochs.rows == map[host := hello.epoch]
    ensures b.sessions.Keys == {host} && b.sessions[host].end.sid == hello.sid
    ensures b.log == [Stored(host, hello.epoch, hello.sid, keys, Published)]
    ensures b.pending == map[(host, job.id) := 0]
    ensures b.regs == [Registration(host, job.id, 0, [FromAgent(0, 5, Output(data))], true, false)]
  {
    hide Consistent, FailedAll, History, Epoched;
    b := Connect(wire, host, job, hello, keys);
    GetsChunk(b, host, job.id, pt, data, 5, hello.sid);
    assert b.regs[0].got == [FromAgent(0, 5, Output(data))];
  }

  lemma FailedNothing(regs: seq<Registration>)
    ensures forall keys, reason, room | FailedAll([], regs, keys, reason, room) :: regs == []
  {
  }

  /** The only job of the only host is handed one chunk. */
  method GetsChunk(b: Bridge, host: Host, job: JobId, pt: seq<byte>, data: seq<byte>, seqno: U64Value, sid: Blob)
    requires b.Valid() && Chunk(b.wire, pt, job, data) && |b.regs| == 1 && b.pending == map[(host, job) := 0]
    requires b.sessions.Keys == {host} && b.sessions[host].end.recvHigh == None && b.sessions[host].inst < |b.log|
    modifies b`sessions, b`pending, b`honest, b`regs
    ensures b.Valid() && b.pending == old(b.pending) && b.sessions.Keys == {host}
    ensures b.sessions[host].inst == old(b.sessions)[host].inst
            && b.sessions[host].end.sid == old(b.sessions)[host].end.sid
    ensures b.honest == (old(b.honest) && b.log[b.sessions[host].inst].fate != Lost)
    ensures b.regs == [Hand(old(b.regs)[0], Some(FromAgent(old(b.sessions)[host].inst, seqno, Output(data))), true)]
  {
    hide Consistent, History, Aad, Nonce, Epoched;
    Pending(b.W(), (host, job), None, false);
    b.HandleResult(host, SealEnvelope(b.sessions[host].end.keys.open, [], sid, seqno, 1, pt), Delivered);
    assert b.sessions.Keys == {host};
  }

  /**
    A ServerHello that took effect although publishing it failed: the job sealed to the old
    session gets number 5 of that one and then number 0 of the new one.
   */
  method CrossSession(wire: Wire, host: Host, job: Job, pt: seq<byte>, data: seq<byte>, hello1: Hello, keys1: Keys,
                      hello2: Hello, keys2: Keys)
    returns (b: Bridge)
    requires Chunk(wire, pt, job.id, data) && Usable(hello1) && Usable(hello2)
    requires hello1.sid != hello2.sid && hello1.epoch < hello2.epoch
    ensures b.Valid() && b.honest && |b.regs| == 1 && b.regs[0].crossed
    ensures b.regs[0].got == [FromAgent(0, 5, Output(data)), FromAgent(1, 0, Output(data))]
  {
    hide Consistent, FailedAll, History, Epoched, Tenant, SealEnvelope;
    b := FirstSession(wire, host, job, pt, data, hello1, keys1);
    var r, admitted := b.ClientHello(Some(hello2), Tenant(host), Some(host), Some(false), Some(keys2), NoFault,
                                     Unconfirmed, {});
    assert b.sessions.Keys == {host};
    GetsChunk(b, host, job.id, pt, data, 0, hello2.sid);
  }

  /**
    A ServerHello that was lost: the agent goes on in its old session, and what it sends
    there, number 6 of it, no longer reaches the job, which stays pending.
   */
  method LostResults(wire: Wire, host: Host, job: Job, pt: seq<byte>, data: seq<byte>, hello1: Hello, keys1: Keys,
                     hello2: Hello, keys2: Keys)
    returns (b: Bridge)
    requires Chunk(wire, pt, job.id, data) && Usable(hello1) && Usable(hello2)
    requires hello1.sid != hello2.sid && hello1.epoch < hello2.epoch && keys1.open != keys2.open
    ensures b.Valid() && b.honest && |b.regs| == 1 && b.regs[0].crossed && b.regs[0].open
    ensures b.regs[0].got == [FromAgent(0, 5, Output(data))]
  {
    hide Consistent, FailedAll, History, Epoched, Tenant, Aad, Nonce;
    b := FirstSession(wire, host, job, pt, data, hello1, keys1);
    var r, admitted := b.ClientHello(Some(hello2), Tenant(host), Some(host), Some(false), Some(keys2), NoFault,
                                     Lost, {});
    b.HandleResult(host, SealEnvelope(keys1.open, [], hello1.sid, 6, 1, pt), Delivered);
  }
}
