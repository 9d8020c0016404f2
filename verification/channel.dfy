/**
  The sealed channel, symbolically: a ciphertext is the term of its key, nonce, header
  and plaintext, and opens only under exactly those.  The network may drop, duplicate,
  reorder, re-route and forge, but cannot seal under a session's key.
 */
module Channel {
  import opened Wrappers
  import opened Bytes
  import opened Framing

  datatype Direction = CoordToAgent | AgentToCoord

  /** Keys as terms: a session's key in one direction, or a stream's subkey of it. */
  datatype Key =
    | Root(client: nat, server: nat, dir: Direction)
    | Sub(parent: Key, id: string)

  datatype Ciphertext =
    | Sealed(key: Key, nonce: seq<byte>, aad: seq<byte>, plaintext: seq<byte>)
    | Junk(bytes: seq<byte>)

  datatype Envelope = Envelope(host: Blob, sid: Blob, seqno: U64Value, kind: I32, ct: Ciphertext)

  function SealEnvelope(key: Key, host: Blob, sid: Blob, seqno: U64Value, kind: I32, plaintext: seq<byte>): Envelope {
    Envelope(host, sid, seqno, kind, Sealed(key, Nonce(seqno), Aad(host, sid, seqno, kind), plaintext))
  }

  function OpenEnvelope(key: Key, env: Envelope): Option<seq<byte>> {
    match env.ct
    case Sealed(k, nonce, aad, plaintext) =>
      if k == key && nonce == Nonce(env.seqno) && aad == Aad(env.host, env.sid, env.seqno, env.kind)
      then Some(plaintext)
      else None
    case Junk(_) => None
  }

  // --- What the peer sealed ---

  datatype Frame = Frame(host: Blob, sid: Blob, kind: I32, plaintext: seq<byte>)

  /** The frames sealed under one key: frame n took sequence number n. */
  type Log = s: seq<Frame> | |s| <= TWO_64

  function SealFrame(key: Key, log: Log, n: nat): Envelope
    requires n < |log|
  {
    SealEnvelope(key, log[n].host, log[n].sid, n, log[n].kind, log[n].plaintext)
  }

  /** The network's power: a ciphertext under the key is one the peer produced, under whatever header. */
  ghost predicate Unforged(key: Key, log: Log, env: Envelope) {
    env.ct.Sealed? && env.ct.key == key ==> exists n | 0 <= n < |log| :: env.ct == SealFrame(key, log, n).ct
  }

  ghost predicate AllUnforged(key: Key, log: Log, inputs: seq<Envelope>) {
    forall i | 0 <= i < |inputs| :: Unforged(key, log, inputs[i])
  }

  predicate Opens(key: Key, env: Envelope) {
    OpenEnvelope(key, env).Some?
  }

  /** What opens is, header and all, what the peer sealed under that number. */
  lemma OpensOnlySealed(key: Key, log: Log, env: Envelope)
    requires Unforged(key, log, env) && Opens(key, env)
    ensures env.seqno < |log| && env == SealFrame(key, log, env.seqno)
    ensures OpenEnvelope(key, env) == Some(log[env.seqno].plaintext)
  {
    hide Aad, Nonce;
    var n :| 0 <= n < |log| && env.ct == SealFrame(key, log, n).ct;
    AadInjective(env.host, env.sid, env.seqno, env.kind, log[n].host, log[n].sid, n, log[n].kind);
  }

  // --- The replay guard ---

  predicate Newer(high: Option<U64Value>, seqno: U64Value) {
    high.None? || seqno > high.value
  }

  predicate Accepts(key: Key, high: Option<U64Value>, env: Envelope) {
    Opens(key, env) && Newer(high, env.seqno)
  }

  function Raise(key: Key, high: Option<U64Value>, env: Envelope): Option<U64Value> {
    if Accepts(key, high, env) then Some(env.seqno) else high
  }

  /** The high-water mark after a sequence of arrivals. */
  function High(key: Key, inputs: seq<Envelope>): Option<U64Value> {
    if inputs == [] then None
    else Raise(key, High(key, inputs[..|inputs| - 1]), inputs[|inputs| - 1])
  }

  /** What was handed on: sequence numbers and plaintexts, in order. */
  function Accepted(key: Key, inputs: seq<Envelope>): seq<(U64Value, seq<byte>)> {
    if inputs == [] then []
    else
      var before, env := inputs[..|inputs| - 1], inputs[|inputs| - 1];
      Accepted(key, before)
      + (if Accepts(key, High(key, before), env) then [(env.seqno, OpenEnvelope(key, env).value)] else [])
  }

  /** The mark is the largest number that ever arrived genuine. */
  lemma {:induction false} HighIsMax(key: Key, inputs: seq<Envelope>)
    ensures forall i | 0 <= i < |inputs| && Opens(key, inputs[i]) ::
              High(key, inputs).Some? && inputs[i].seqno <= High(key, inputs).value
    ensures High(key, inputs).Some? ==>
              exists i | 0 <= i < |inputs| && Opens(key, inputs[i]) :: inputs[i].seqno == High(key, inputs).value
  {
    hide Opens;
    if inputs != [] {
      var n := |inputs| - 1;
      var before := inputs[..n];
      HighIsMax(key, before);
      assert forall i | 0 <= i < n :: before[i] == inputs[i];
      if Accepts(key, High(key, before), inputs[n]) {
        assert inputs[n].seqno == High(key, inputs).value;
      } else if High(key, before).Some? {
        var i :| 0 <= i < n && Opens(key, before[i]) && before[i].seqno == High(key, before).value;
        assert inputs[i].seqno == High(key, inputs).value;
      }
    }
  }

  /**
    An arrival is accepted exactly when it is genuine and newer than every genuine
    arrival before it: forgeries and replays have no influence on any other frame.
   */
  lemma AcceptedIff(key: Key, inputs: seq<Envelope>, i: nat)
    requires i < |inputs|
    ensures Accepts(key, High(key, inputs[..i]), inputs[i])
            <==> Opens(key, inputs[i])
                 && forall j | 0 <= j < i && Opens(key, inputs[j]) :: inputs[j].seqno < inputs[i].seqno
  {
    hide Opens, High;
    HighIsMax(key, inputs[..i]);
    assert forall j | 0 <= j < i :: inputs[..i][j] == inputs[j];
    var h := High(key, inputs[..i]);
    if h.Some? {
      var j :| 0 <= j < i && Opens(key, inputs[..i][j]) && inputs[..i][j].seqno == h.value;
      assert Opens(key, inputs[j]);
    }
  }

  /** Removing everything that does not open changes nothing. */
  function Genuine(key: Key, inputs: seq<Envelope>): seq<Envelope> {
    if inputs == [] then []
    else
      var env := inputs[|inputs| - 1];
      Genuine(key, inputs[..|inputs| - 1]) + (if Opens(key, env) then [env] else [])
  }

  lemma Arrives(key: Key, inputs: seq<Envelope>, env: Envelope)
    ensures High(key, inputs + [env]) == Raise(key, High(key, inputs), env)
    ensures Accepted(key, inputs + [env]) == Accepted(key, inputs)
              + (if Accepts(key, High(key, inputs), env) then [(env.seqno, OpenEnvelope(key, env).value)] else [])
  {
    assert (inputs + [env])[..|inputs|] == inputs;
  }

  lemma GenuineNext(key: Key, inputs: seq<Envelope>, env: Envelope)
    ensures Genuine(key, inputs + [env])
            == if Opens(key, env) then Genuine(key, inputs) + [env] else Genuine(key, inputs)
  {
    hide Opens;
    assert (inputs + [env])[..|inputs|] == inputs;
  }

  /** One more arrival, after arrivals for which it holds. */
  lemma ForgeryNext(key: Key, inputs: seq<Envelope>, env: Envelope)
    requires High(key, inputs) == High(key, Genuine(key, inputs))
    requires Accepted(key, inputs) == Accepted(key, Genuine(key, inputs))
    ensures High(key, inputs + [env]) == High(key, Genuine(key, inputs + [env]))
    ensures Accepted(key, inputs + [env]) == Accepted(key, Genuine(key, inputs + [env]))
  {
    hide OpenEnvelope, High, Accepted, Genuine;
    Arrives(key, inputs, env);
    GenuineNext(key, inputs, env);
    if Opens(key, env) {
      Arrives(key, Genuine(key, inputs), env);
    }
  }

  lemma {:induction false} ForgeriesDoNotMatter(key: Key, inputs: seq<Envelope>)
    ensures High(key, inputs) == High(key, Genuine(key, inputs))
    ensures Accepted(key, inputs) == Accepted(key, Genuine(key, inputs))
  {
    if inputs == [] {
      assert Genuine(key, inputs) == [];
    } else {
      hide High, Accepted, Genuine;
      var before, env := inputs[..|inputs| - 1], inputs[|inputs| - 1];
      ForgeriesDoNotMatter(key, before);
      ForgeryNext(key, before, env);
      assert inputs == before + [env];
    }
  }

  lemma {:induction false} AcceptedIncreases(key: Key, inputs: seq<Envelope>)
    ensures var a := Accepted(key, inputs);
      && (forall i, j | 0 <= i < j < |a| :: a[i].0 < a[j].0)
      && (if a == [] then High(key, inputs).None? else High(key, inputs) == Some(a[|a| - 1].0))
  {
    hide OpenEnvelope;
    if inputs != [] {
      AcceptedIncreases(key, inputs[..|inputs| - 1]);
    }
  }

  lemma {:induction false} AcceptedWasSealed(key: Key, log: Log, inputs: seq<Envelope>)
    requires AllUnforged(key, log, inputs)
    ensures forall i | 0 <= i < |Accepted(key, inputs)| ::
              Accepted(key, inputs)[i].0 < |log|
              && Accepted(key, inputs)[i].1 == log[Accepted(key, inputs)[i].0].plaintext
  {
    hide Unforged, OpenEnvelope, High;
    if inputs != [] {
      var before, env := inputs[..|inputs| - 1], inputs[|inputs| - 1];
      AcceptedWasSealed(key, log, before);
      if Accepts(key, High(key, before), env) {
        OpensOnlySealed(key, log, env);
      }
    }
  }

  /** What was accepted is a strictly increasing subsequence of what the peer sealed. */
  lemma AcceptedIsSubsequence(key: Key, log: Log, inputs: seq<Envelope>)
    requires AllUnforged(key, log, inputs)
    ensures var a := Accepted(key, inputs);
      && (forall i | 0 <= i < |a| :: a[i].0 < |log| && a[i].1 == log[a[i].0].plaintext)
      && (forall i, j | 0 <= i < j < |a| :: a[i].0 < a[j].0)
  {
    hide Accepted, AllUnforged;
    AcceptedIncreases(key, inputs);
    AcceptedWasSealed(key, log, inputs);
  }

  /** A frame is first seen before any with a larger number; later copies may come at any time. */
  ghost predicate FirstArrivalsInOrder(key: Key, inputs: seq<Envelope>) {
    forall i, j | 0 <= i < j < |inputs| && Opens(key, inputs[i]) && Opens(key, inputs[j])
                  && inputs[j].seqno < inputs[i].seqno ::
      Seen(key, inputs[..i], inputs[j].seqno)
  }

  ghost predicate Seen(key: Key, inputs: seq<Envelope>, seqno: U64Value) {
    exists k | 0 <= k < |inputs| && Opens(key, inputs[k]) :: inputs[k].seqno == seqno
  }

  ghost predicate HandedOn(key: Key, inputs: seq<Envelope>, seqno: U64Value) {
    exists k | 0 <= k < |Accepted(key, inputs)| :: Accepted(key, inputs)[k].0 == seqno
  }

  lemma {:induction false} HandedOnIff(key: Key, inputs: seq<Envelope>, seqno: U64Value)
    ensures HandedOn(key, inputs, seqno)
            <==> exists i | 0 <= i < |inputs| && Accepts(key, High(key, inputs[..i]), inputs[i]) ::
                   inputs[i].seqno == seqno
  {
    hide Opens, High;
    if inputs != [] {
      var n := |inputs| - 1;
      var before, a := inputs[..n], Accepted(key, inputs);
      HandedOnIff(key, before, seqno);
      var b := Accepted(key, before);
      assert forall i | 0 <= i < n :: before[i] == inputs[i] && before[..i] == inputs[..i];
      if HandedOn(key, inputs, seqno) {
        var k :| 0 <= k < |a| && a[k].0 == seqno;
        if k < |b| {
          assert b[k].0 == seqno;
          var i :| 0 <= i < n && Accepts(key, High(key, before[..i]), before[i]) && before[i].seqno == seqno;
          assert Accepts(key, High(key, inputs[..i]), inputs[i]);
        } else {
          assert Accepts(key, High(key, inputs[..n]), inputs[n]);
        }
      }
      if i :| 0 <= i < |inputs| && Accepts(key, High(key, inputs[..i]), inputs[i]) && inputs[i].seqno == seqno {
        if i < n {
          assert Accepts(key, High(key, before[..i]), before[i]);
          var k :| 0 <= k < |b| && b[k].0 == seqno;
          assert a[k].0 == seqno;
        } else {
          assert a[|a| - 1].0 == seqno;
        }
      }
    }
  }

  /**
    Every genuine frame that arrives is handed on (and then exactly once, since what is
    handed on strictly increases) if and only if first arrivals come in sequence order.
   */
  lemma AllAcceptedIff(key: Key, inputs: seq<Envelope>)
    ensures (forall i | 0 <= i < |inputs| && Opens(key, inputs[i]) :: HandedOn(key, inputs, inputs[i].seqno))
            <==> FirstArrivalsInOrder(key, inputs)
  {
    hide Opens, High, HandedOn, Seen;
    if FirstArrivalsInOrder(key, inputs) {
      forall i | 0 <= i < |inputs| && Opens(key, inputs[i])
        ensures HandedOn(key, inputs, inputs[i].seqno)
      {
        FirstIsHandedOn(key, inputs, i);
      }
    } else {
      var i, j :| 0 <= i < j < |inputs| && Opens(key, inputs[i]) && Opens(key, inputs[j])
                  && inputs[j].seqno < inputs[i].seqno && !Seen(key, inputs[..i], inputs[j].seqno);
      LateIsLost(key, inputs, i, j);
    }
  }

  lemma {:induction false} FirstIsHandedOn(key: Key, inputs: seq<Envelope>, i: nat)
    requires i < |inputs| && Opens(key, inputs[i]) && FirstArrivalsInOrder(key, inputs)
    ensures HandedOn(key, inputs, inputs[i].seqno)
    decreases i
  {
    hide Opens, High, HandedOn;
    if k :| 0 <= k < i && Opens(key, inputs[k]) && inputs[k].seqno == inputs[i].seqno {
      FirstIsHandedOn(key, inputs, k);
    } else {
      forall j | 0 <= j < i && Opens(key, inputs[j])
        ensures inputs[j].seqno < inputs[i].seqno
      {
      }
      AcceptedIff(key, inputs, i);
      HandedOnIff(key, inputs, inputs[i].seqno);
    }
  }

  lemma LateIsLost(key: Key, inputs: seq<Envelope>, i: nat, j: nat)
    requires i < j < |inputs| && Opens(key, inputs[i]) && Opens(key, inputs[j]) && inputs[j].seqno < inputs[i].seqno
    requires !Seen(key, inputs[..i], inputs[j].seqno)
    ensures !HandedOn(key, inputs, inputs[j].seqno)
  {
    hide Opens, High, HandedOn;
    HandedOnIff(key, inputs, inputs[j].seqno);
    if HandedOn(key, inputs, inputs[j].seqno) {
      var k :| 0 <= k < |inputs| && Accepts(key, High(key, inputs[..k]), inputs[k])
               && inputs[k].seqno == inputs[j].seqno;
      AcceptedIff(key, inputs, k);
    }
  }

  // --- Over the peer's log ---

  /**
    What is sealed under a key opens under it, whatever its header and kind, as what was sealed; and
    under no other.
   */
  lemma SealOpens(key: Key, other: Key, host: Blob, sid: Blob, seqno: U64Value, kind: I32, plaintext: seq<byte>)
    ensures OpenEnvelope(other, SealEnvelope(key, host, sid, seqno, kind, plaintext))
            == if other == key then Some(plaintext) else None
    ensures var env := SealEnvelope(key, host, sid, seqno, kind, plaintext);
      env.host == host && env.sid == sid && env.seqno == seqno && env.kind == kind && env.ct.Sealed?
      && env.ct.nonce == Nonce(seqno) && env.ct.aad == Aad(host, sid, seqno, kind)
  {
    hide Nonce, Aad;
  }

  /** An arrival opens exactly if it is one of the peer's frames as it was sealed. */
  lemma OpensIff(key: Key, log: Log, env: Envelope)
    requires Unforged(key, log, env)
    ensures Opens(key, env) <==> env.seqno < |log| && env == SealFrame(key, log, env.seqno)
    ensures forall n | 0 <= n < |log| && env == SealFrame(key, log, n) :: n == env.seqno
  {
    hide Aad, Nonce;
    if Opens(key, env) {
      OpensOnlySealed(key, log, env);
    }
  }

  /** Frames of the log come for the first time in the order of their numbers; anything else may come in between. */
  ghost predicate ArriveInOrder(key: Key, log: Log, inputs: seq<Envelope>) {
    forall j, m, n | 0 <= j < |inputs| && 0 <= n < m < |log| && inputs[j] == SealFrame(key, log, m)
                     && SealFrame(key, log, n) in inputs ::
      SealFrame(key, log, n) in inputs[..j]
  }

  /** Handed on under its number, as its plaintext, exactly once. */
  ghost predicate HandedOnce(a: seq<(U64Value, seq<byte>)>, n: nat, plaintext: seq<byte>) {
    exists k | 0 <= k < |a| :: a[k].0 == n && a[k].1 == plaintext && forall i | 0 <= i < |a| && a[i].0 == n :: i == k
  }

  lemma SeenIff(key: Key, log: Log, inputs: seq<Envelope>, n: U64Value)
    requires AllUnforged(key, log, inputs)
    ensures Seen(key, inputs, n) <==> n < |log| && SealFrame(key, log, n) in inputs
  {
    hide Unforged, Opens, SealFrame;
    if Seen(key, inputs, n) {
      var k :| 0 <= k < |inputs| && Opens(key, inputs[k]) && inputs[k].seqno == n;
      OpensIff(key, log, inputs[k]);
    }
    if n < |log| && SealFrame(key, log, n) in inputs {
      var k :| 0 <= k < |inputs| && inputs[k] == SealFrame(key, log, n);
      SealedIs(key, log, n);
      OpensIff(key, log, inputs[k]);
    }
  }

  lemma SealedIs(key: Key, log: Log, n: nat)
    requires n < |log|
    ensures SealFrame(key, log, n).seqno == n && Opens(key, SealFrame(key, log, n))
  {
  }

  lemma OrdersAgree(key: Key, log: Log, inputs: seq<Envelope>)
    requires AllUnforged(key, log, inputs)
    ensures FirstArrivalsInOrder(key, inputs) <==> ArriveInOrder(key, log, inputs)
  {
    hide Opens, SealFrame, Unforged, Seen;
    if FirstArrivalsInOrder(key, inputs) {
      forall j, m, n | 0 <= j < |inputs| && 0 <= n < m < |log| && inputs[j] == SealFrame(key, log, m)
                       && SealFrame(key, log, n) in inputs
        ensures SealFrame(key, log, n) in inputs[..j]
      {
        LaterSeen(key, log, inputs, j, m, n);
      }
    }
    if ArriveInOrder(key, log, inputs) {
      forall i, j | 0 <= i < j < |inputs| && Opens(key, inputs[i]) && Opens(key, inputs[j])
                    && inputs[j].seqno < inputs[i].seqno
        ensures Seen(key, inputs[..i], inputs[j].seqno)
      {
        OpensIff(key, log, inputs[i]);
        OpensIff(key, log, inputs[j]);
        assert SealFrame(key, log, inputs[j].seqno) in inputs[..i];
        SeenIff(key, log, inputs[..i], inputs[j].seqno);
      }
    }
  }

  lemma LaterSeen(key: Key, log: Log, inputs: seq<Envelope>, j: nat, m: nat, n: nat)
    requires AllUnforged(key, log, inputs) && FirstArrivalsInOrder(key, inputs)
    requires j < |inputs| && n < m < |log| && inputs[j] == SealFrame(key, log, m) && SealFrame(key, log, n) in inputs
    ensures SealFrame(key, log, n) in inputs[..j]
  {
    hide Opens, SealFrame, Unforged, Seen;
    SealedIs(key, log, m);
    SealedIs(key, log, n);
    var i :| 0 <= i < |inputs| && inputs[i] == SealFrame(key, log, n);
    if i < j {
      assert inputs[..j][i] == inputs[i];
    } else if i > j {
      assert Seen(key, inputs[..j], n);
      SeenIff(key, log, inputs[..j], n);
    }
  }

  /** Handed on at all, by number, is handed on exactly once with the plaintext of the log. */
  lemma HandedOnIsOnce(key: Key, log: Log, inputs: seq<Envelope>, n: U64Value)
    requires AllUnforged(key, log, inputs) && n < |log|
    ensures HandedOn(key, inputs, n) <==> HandedOnce(Accepted(key, inputs), n, log[n].plaintext)
  {
    hide Unforged, Accepted;
    AcceptedIncreases(key, inputs);
    AcceptedWasSealed(key, log, inputs);
    var a := Accepted(key, inputs);
    if HandedOn(key, inputs, n) {
      var k :| 0 <= k < |a| && a[k].0 == n;
      assert forall i | 0 <= i < |a| && a[i].0 == n :: i == k;
      assert a[k].1 == log[n].plaintext;
    }
  }

  /**
    Whatever else the network adds: every frame of the log that arrives is handed on as
    its plaintext, exactly once, if and only if frames first arrive in the order of their
    numbers.
   */
  lemma DeliversIff(key: Key, log: Log, inputs: seq<Envelope>)
    requires AllUnforged(key, log, inputs)
    ensures (forall n | 0 <= n < |log| && SealFrame(key, log, n) in inputs ::
               HandedOnce(Accepted(key, inputs), n, log[n].plaintext))
            <==> ArriveInOrder(key, log, inputs)
  {
    hide Opens, High, HandedOn, Seen, SealFrame, Unforged, Accepted, HandedOnce;
    AllAcceptedIff(key, inputs);
    OrdersAgree(key, log, inputs);
    if ArriveInOrder(key, log, inputs) {
      forall n | 0 <= n < |log| && SealFrame(key, log, n) in inputs
        ensures HandedOnce(Accepted(key, inputs), n, log[n].plaintext)
      {
        SealedIs(key, log, n);
        var i :| 0 <= i < |inputs| && inputs[i] == SealFrame(key, log, n);
        HandedOnIsOnce(key, log, inputs, n);
      }
    }
    if forall n | 0 <= n < |log| && SealFrame(key, log, n) in inputs ::
         HandedOnce(Accepted(key, inputs), n, log[n].plaintext) {
      forall i | 0 <= i < |inputs| && Opens(key, inputs[i])
        ensures HandedOn(key, inputs, inputs[i].seqno)
      {
        OpensIff(key, log, inputs[i]);
        assert inputs[i] in inputs;
        HandedOnIsOnce(key, log, inputs, inputs[i].seqno);
      }
    }
  }
}
