/**
  The ends of the sealed channel: the agent's and the coordinator's session.  Each
  remembers, as history, every envelope that reached it and every frame it sealed, and is
  proved against `High`, `Accepted` and the frame numbering.
 */
module Sessions {
  import opened Wrappers
  import opened Bytes
  import opened Framing
  import opened Channel

  const KIND_CONTROL: I32 := 1
  const KIND_STREAM: I32 := 2

  /** The next number of a 64-bit allocator, which wraps. */
  function Next(n: U64Value): U64Value {
    (n + 1) % TWO_64
  }

  /** The keys of an end: what it seals under and what it opens under. */
  datatype Keys = Keys(seal: Key, open: Key) {
    /** The independent keys of a shell stream. */
    function Stream(id: string): Keys {
      Keys(Sub(seal, id), Sub(open, id))
    }
  }

  /** Streams have keys of their own: equal only for one session and one id, and never a session's. */
  lemma StreamKeysDiffer(a: Keys, b: Keys, x: string, y: string)
    ensures a.Stream(x).seal == b.Stream(y).seal <==> a.seal == b.seal && x == y
    ensures a.Stream(x).open == b.Stream(y).open <==> a.open == b.open && x == y
    ensures b.seal.Root? ==> a.Stream(x).seal != b.seal
    ensures b.open.Root? ==> a.Stream(x).open != b.open
  {
  }

  /** One end of a channel: session id, keys, the next number to seal under and the replay guard. */
  datatype End = End(sid: Blob, keys: Keys, sendSeq: U64Value, recvHigh: Option<U64Value>) {
    function Seal(host: Blob, kind: I32, payload: seq<byte>): Envelope {
      SealEnvelope(keys.seal, host, sid, sendSeq, kind, payload)
    }

    function Sent(): End {
      this.(sendSeq := Next(sendSeq))
    }

    predicate Takes(env: Envelope) {
      Accepts(keys.open, recvHigh, env)
    }

    function Plaintext(env: Envelope): Option<seq<byte>> {
      if Takes(env) then OpenEnvelope(keys.open, env) else None
    }

    function Received(env: Envelope): End {
      this.(recvHigh := Raise(keys.open, recvHigh, env))
    }
  }

  /**
    An end takes exactly what was sealed under its open key, unchanged in header and
    ciphertext, with a number above the last it took; it reads what was sealed, and moves
    its guard to that number.
   */
  lemma EndTakesIff(e: End, env: Envelope)
    ensures e.Takes(env)
            <==> && env.ct.Sealed? && (e.recvHigh == None || env.seqno > e.recvHigh.value)
                 && env == SealEnvelope(e.keys.open, env.host, env.sid, env.seqno, env.kind, env.ct.plaintext)
    ensures e.Plaintext(env) == if e.Takes(env) then Some(env.ct.plaintext) else None
    ensures e.Received(env) == if e.Takes(env) then End(e.sid, e.keys, e.sendSeq, Some(env.seqno)) else e
  {
    hide Aad, Nonce;
  }

  function NewEnd(sid: Blob, keys: Keys): End {
    End(sid, keys, 0, None)
  }

  /** The allocator stands at the number of frames sealed so far. */
  ghost predicate Numbered(next: U64Value, sealed: seq<Frame>) {
    next == |sealed| % TWO_64
  }

  /** An end whose counters are what its history makes them. */
  ghost predicate Tracks(end: End, inputs: seq<Envelope>, sealed: seq<Frame>) {
    end.recvHigh == High(end.keys.open, inputs) && Numbered(end.sendSeq, sealed)
  }

  /** `Established`: the agent's end of a session. */
  class Established {
    var end: End
    ghost var inputs: seq<Envelope>
    ghost var sealed: seq<Frame>

    ghost predicate Valid()
      reads this
    {
      Tracks(end, inputs, sealed)
    }

    constructor (sid: Blob, keys: Keys)
      ensures Valid() && end == NewEnd(sid, keys) && inputs == [] && sealed == []
    {
      end, inputs, sealed := NewEnd(sid, keys), [], [];
    }

    method AcceptRecv(seqno: U64Value) returns (ok: bool)
      modifies this`end
      ensures ok <==> Newer(old(end).recvHigh, seqno)
      ensures end == if ok then old(end).(recvHigh := Some(seqno)) else old(end)
    {
      if end.recvHigh.Some? && seqno <= end.recvHigh.value {
        return false;
      }
      end := end.(recvHigh := Some(seqno));
      ok := true;
    }

    /** Authenticate first, then advance the guard: a forgery never moves it. */
    method OpenDownlink(env: Envelope) returns (r: Option<seq<byte>>)
      requires Valid()
      modifies this`end, this`inputs
      ensures Valid() && inputs == old(inputs) + [env] && end == old(end).Received(env)
      ensures Accepted(end.keys.open, inputs) == old(Accepted(end.keys.open, inputs))
                + (if r.Some? then [(env.seqno, r.value)] else [])
    {
      hide High, Accepted, OpenEnvelope;
      Arrives(end.keys.open, inputs, env);
      inputs := inputs + [env];
      var plaintext := OpenEnvelope(end.keys.open, env);
      if plaintext.None? {
        return None;
      }
      var newer := AcceptRecv(env.seqno);
      r := if newer then plaintext else None;
    }

    /** Frame number n is sealed under sequence number n modulo 2^64. */
    method SealUplink(host: Blob, payload: seq<byte>) returns (env: Envelope)
      requires Valid()
      modifies this`end, this`sealed
      ensures Valid() && sealed == old(sealed) + [Frame(host, end.sid, KIND_CONTROL, payload)] && end == old(end).Sent()
      ensures env == SealEnvelope(end.keys.seal, host, end.sid, |old(sealed)| % TWO_64, KIND_CONTROL, payload)
    {
      hide Aad, Nonce, High;
      var seqno := end.sendSeq;
      end := end.(sendSeq := Next(end.sendSeq));
      sealed := sealed + [Frame(host, end.sid, KIND_CONTROL, payload)];
      env := SealEnvelope(end.keys.seal, host, end.sid, seqno, KIND_CONTROL, payload);
    }
  }

  /** `Session`: the coordinator's end of a session. */
  class Session {
    var end: End
    ghost var inputs: seq<Envelope>
    ghost var sealed: seq<Frame>

    ghost predicate Valid()
      reads this
    {
      Tracks(end, inputs, sealed)
    }

    constructor (sid: Blob, keys: Keys)
      ensures Valid() && end == NewEnd(sid, keys) && inputs == [] && sealed == []
    {
      end, inputs, sealed := NewEnd(sid, keys), [], [];
    }

    /** The envelope and the new state are the specification's, and frame n is sealed under n modulo 2^64. */
    method SealDownlink(host: Blob, payload: seq<byte>) returns (env: Envelope)
      requires Valid()
      modifies this`end, this`sealed
      ensures Valid() && sealed == old(sealed) + [Frame(host, end.sid, KIND_CONTROL, payload)]
      ensures env == old(end).Seal(host, KIND_CONTROL, payload) && end == old(end).Sent()
      ensures env == SealEnvelope(end.keys.seal, host, end.sid, |old(sealed)| % TWO_64, 1, payload)
    {
      hide Aad, Nonce, High;
      var seqno := end.sendSeq;
      end := end.(sendSeq := Next(end.sendSeq));
      sealed := sealed + [Frame(host, end.sid, KIND_CONTROL, payload)];
      env := SealEnvelope(end.keys.seal, host, end.sid, seqno, KIND_CONTROL, payload);
    }

    method OpenUplink(env: Envelope) returns (r: Option<seq<byte>>)
      requires Valid()
      modifies this`end, this`inputs
      ensures Valid() && inputs == old(inputs) + [env]
      ensures r == old(end).Plaintext(env) && end == old(end).Received(env)
      ensures Accepted(end.keys.open, inputs) == old(Accepted(end.keys.open, inputs))
                + (if r.Some? then [(env.seqno, r.value)] else [])
    {
      hide High, Accepted, OpenEnvelope;
      Arrives(end.keys.open, inputs, env);
      inputs := inputs + [env];
      var plaintext := OpenEnvelope(end.keys.open, env);
      if plaintext.None? {
        return None;
      }
      if end.recvHigh.Some? && env.seqno <= end.recvHigh.value {
        return None;
      }
      end := end.(recvHigh := Some(env.seqno));
      r := plaintext;
    }
  }

  /** What was accepted: numbers and plaintexts of sealed frames, at strictly increasing positions. */
  ghost predicate Subsequence(a: seq<(U64Value, seq<byte>)>, sealed: seq<Frame>) {
    && (forall i | 0 <= i < |a| :: a[i].0 < |sealed| && a[i].1 == sealed[a[i].0].plaintext)
    && (forall i, j | 0 <= i < j < |a| :: a[i].0 < a[j].0)
  }

  lemma AcceptedFollows(key: Key, log: Log, inputs: seq<Envelope>)
    requires AllUnforged(key, log, inputs)
    ensures Subsequence(Accepted(key, inputs), log)
  {
    hide Accepted, AllUnforged;
    AcceptedIsSubsequence(key, log, inputs);
  }

  /**
    Uplink end to end: what the coordinator's session accepts is a strictly increasing
    subsequence of what the agent's session sealed, whatever reached it.
   */
  lemma UplinkEndToEnd(agent: Established, coordinator: Session)
    requires coordinator.end.keys.open == agent.end.keys.seal && |agent.sealed| <= TWO_64
    requires AllUnforged(agent.end.keys.seal, agent.sealed, coordinator.inputs)
    ensures Subsequence(Accepted(coordinator.end.keys.open, coordinator.inputs), agent.sealed)
  {
    hide Accepted, AllUnforged, Subsequence;
    AcceptedFollows(agent.end.keys.seal, agent.sealed, coordinator.inputs);
  }

  /** The same for the downlink. */
  lemma DownlinkEndToEnd(coordinator: Session, agent: Established)
    requires coordinator.end.keys.seal == agent.end.keys.open && |coordinator.sealed| <= TWO_64
    requires AllUnforged(agent.end.keys.open, coordinator.sealed, agent.inputs)
    ensures Subsequence(Accepted(agent.end.keys.open, agent.inputs), coordinator.sealed)
  {
    hide Accepted, AllUnforged, Subsequence;
    AcceptedFollows(agent.end.keys.open, coordinator.sealed, agent.inputs);
  }

  /** Every sealed frame that arrived was handed on as its plaintext, exactly once. */
  ghost predicate AllDelivered(key: Key, sealed: Log, inputs: seq<Envelope>, a: seq<(U64Value, seq<byte>)>) {
    forall n | 0 <= n < |sealed| && SealFrame(key, sealed, n) in inputs :: HandedOnce(a, n, sealed[n].plaintext)
  }

  /**
    The coordinator's session hands on every frame of the agent's that arrives, exactly
    once, if and only if they first arrive in the order in which they were sealed.
   */
  lemma UplinkDelivers(agent: Established, coordinator: Session)
    requires coordinator.end.keys.open == agent.end.keys.seal && |agent.sealed| <= TWO_64
    requires AllUnforged(agent.end.keys.seal, agent.sealed, coordinator.inputs)
    ensures AllDelivered(agent.end.keys.seal, agent.sealed, coordinator.inputs,
                         Accepted(coordinator.end.keys.open, coordinator.inputs))
            <==> ArriveInOrder(agent.end.keys.seal, agent.sealed, coordinator.inputs)
  {
    hide Accepted, AllUnforged, HandedOnce, ArriveInOrder;
    DeliversIff(agent.end.keys.seal, agent.sealed, coordinator.inputs);
  }

  /** The same for the agent's session. */
  lemma DownlinkDelivers(coordinator: Session, agent: Established)
    requires coordinator.end.keys.seal == agent.end.keys.open && |coordinator.sealed| <= TWO_64
    requires AllUnforged(agent.end.keys.open, coordinator.sealed, agent.inputs)
    ensures AllDelivered(agent.end.keys.open, coordinator.sealed, agent.inputs,
                         Accepted(agent.end.keys.open, agent.inputs))
            <==> ArriveInOrder(agent.end.keys.open, coordinator.sealed, agent.inputs)
  {
    hide Accepted, AllUnforged, HandedOnce, ArriveInOrder;
    DeliversIff(agent.end.keys.open, coordinator.sealed, agent.inputs);
  }
}
