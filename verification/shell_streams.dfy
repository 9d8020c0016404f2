/**
  The two ends of an interactive shell, each with its own keys and numbers: the agent's
  stream and uplink pump, and the coordinator's route.
 */
module ShellStreams {
  import opened Wrappers
  import opened Bytes
  import opened Framing
  import opened Channel
  import opened Sessions

  datatype StreamFrame = StreamFrame(data: seq<byte>, eof: bool)

  const CLOSING: StreamFrame := StreamFrame([], true)

  /** The protobuf coding of a stream frame, taken as given. */
  datatype Coding = Coding(encode: StreamFrame -> seq<byte>, decode: seq<byte> -> Option<StreamFrame>) {
    ghost predicate RoundTrips() {
      forall f :: decode(encode(f)) == Some(f)
    }
  }

  /** The frames among what was accepted, with their numbers. */
  function Decoded(code: Coding, a: seq<(U64Value, seq<byte>)>): seq<(U64Value, StreamFrame)> {
    if a == [] then []
    else
      Decoded(code, a[..|a| - 1]) + (match code.decode(a[|a| - 1].1)
                                     case None => []
                                     case Some(f) => [(a[|a| - 1].0, f)])
  }

  lemma DecodedNext(code: Coding, a: seq<(U64Value, seq<byte>)>, x: (U64Value, seq<byte>))
    ensures Decoded(code, a + [x])
            == Decoded(code, a) + (match code.decode(x.1) case None => [] case Some(f) => [(x.0, f)])
  {
    assert (a + [x])[..|a|] == a;
  }

  /** Frame n carries the n-th of `frames`. */
  ghost predicate Carry(code: Coding, sealed: seq<Frame>, frames: seq<StreamFrame>) {
    |sealed| == |frames| && forall i | 0 <= i < |frames| :: sealed[i].plaintext == code.encode(frames[i])
  }

  /** Frames of a stream with their numbers, which strictly increase. */
  ghost predicate Kept(d: seq<(U64Value, StreamFrame)>, frames: seq<StreamFrame>) {
    && (forall i | 0 <= i < |d| :: d[i].0 < |frames| && d[i].1 == frames[d[i].0])
    && (forall i, j | 0 <= i < j < |d| :: d[i].0 < d[j].0)
  }

  /** What was accepted decodes to the frames sealed under those numbers. */
  lemma {:induction false} DecodedFrames(code: Coding, a: seq<(U64Value, seq<byte>)>, sealed: seq<Frame>,
                                         frames: seq<StreamFrame>)
    requires code.RoundTrips() && Subsequence(a, sealed) && Carry(code, sealed, frames)
    ensures var d := Decoded(code, a);
      |d| == |a| && Kept(d, frames) && forall i | 0 <= i < |a| :: d[i].0 == a[i].0
  {
    if a != [] {
      DecodedFrames(code, a[..|a| - 1], sealed, frames);
    }
  }

  // --- The coordinator's route ---

  class ShellRoute {
    const code: Coding
    var end: End
    ghost var inputs: seq<Envelope>
    ghost var sealed: seq<Frame>
    ghost var frames: seq<StreamFrame>
    ghost var got: seq<(U64Value, StreamFrame)>

    ghost predicate Valid()
      reads this
    {
      && Tracks(end, inputs, sealed) && Carry(code, sealed, frames)
      && got == Decoded(code, Accepted(end.keys.open, inputs))
    }

    constructor (code: Coding, sid: Blob, keys: Keys)
      ensures Valid() && this.code == code && end == NewEnd(sid, keys)
      ensures inputs == [] && sealed == [] && frames == [] && got == []
    {
      this.code, end := code, NewEnd(sid, keys);
      inputs, sealed, frames, got := [], [], [], [];
    }

    method SealDownlink(host: Blob, frame: StreamFrame) returns (env: Envelope)
      requires Valid()
      modifies this`end, this`sealed, this`frames
      ensures Valid() && frames == old(frames) + [frame]
      ensures sealed == old(sealed) + [Frame(host, end.sid, KIND_STREAM, code.encode(frame))]
      ensures env == old(end).Seal(host, KIND_STREAM, code.encode(frame)) && end == old(end).Sent()
      ensures env == SealEnvelope(end.keys.seal, host, end.sid, |old(sealed)| % TWO_64, 2, code.encode(frame))
    {
      hide Aad, Nonce, High, Decoded, Accepted;
      var seqno := end.sendSeq;
      end := end.(sendSeq := Next(end.sendSeq));
      sealed := sealed + [Frame(host, end.sid, KIND_STREAM, code.encode(frame))];
      frames := frames + [frame];
      env := SealEnvelope(end.keys.seal, host, end.sid, seqno, KIND_STREAM, code.encode(frame));
    }

    /** The guard advances on every accepted frame, decodable or not. */
    method OpenUplink(env: Envelope) returns (r: Option<StreamFrame>)
      requires Valid()
      modifies this`end, this`inputs, this`got
      ensures Valid() && inputs == old(inputs) + [env] && end == old(end).Received(env)
      ensures r == (match old(end).Plaintext(env) case None => None case Some(p) => code.decode(p))
      ensures got == old(got) + (if r.Some? then [(env.seqno, r.value)] else [])
    {
      hide High, Accepted, OpenEnvelope, Decoded, Carry;
      Arrives(end.keys.open, inputs, env);
      ghost var before := Accepted(end.keys.open, inputs);
      inputs := inputs + [env];
      var plaintext := OpenEnvelope(end.keys.open, env);
      if plaintext.None? {
        assert Accepted(end.keys.open, inputs) == before;
        return None;
      }
      if end.recvHigh.Some? && env.seqno <= end.recvHigh.value {
        assert Accepted(end.keys.open, inputs) == before;
        return None;
      }
      end := end.(recvHigh := Some(env.seqno));
      r := code.decode(plaintext.value);
      DecodedNext(code, before, (env.seqno, plaintext.value));
      got := got + (if r.Some? then [(env.seqno, r.value)] else []);
    }
  }

  // --- The agent's stream ---

  /** Keystrokes handed to the terminal, with their frames' numbers: in order, each from a frame that was accepted. */
  ghost predicate Typed(typed: seq<(U64Value, seq<byte>)>, d: seq<(U64Value, StreamFrame)>, high: Option<U64Value>) {
    && (forall i | 0 <= i < |typed| :: (typed[i].0, StreamFrame(typed[i].1, false)) in d)
    && (forall i, j | 0 <= i < j < |typed| :: typed[i].0 < typed[j].0)
    && (forall i | 0 <= i < |typed| :: high.Some? && typed[i].0 <= high.value)
  }

  /** The keystrokes among the frames. */
  function Keystrokes(d: seq<(U64Value, StreamFrame)>): seq<(U64Value, seq<byte>)> {
    if d == [] then []
    else
      var (n, f) := d[|d| - 1];
      Keystrokes(d[..|d| - 1]) + (if f.eof then [] else [(n, f.data)])
  }

  lemma KeystrokesNext(d: seq<(U64Value, StreamFrame)>, n: U64Value, f: StreamFrame)
    ensures Keystrokes(d + [(n, f)]) == Keystrokes(d) + (if f.eof then [] else [(n, f.data)])
  {
    assert (d + [(n, f)])[..|d|] == d;
  }

  lemma {:induction false} KeystrokeKept(d: seq<(U64Value, StreamFrame)>, i: nat)
    requires i < |d| && !d[i].1.eof
    ensures (d[i].0, d[i].1.data) in Keystrokes(d)
  {
    if i < |d| - 1 {
      KeystrokeKept(d[..|d| - 1], i);
    }
  }

  /** `roomy`: so far the terminal's queue had room for every keystroke. */
  class ShellStream {
    const code: Coding
    const keys: Keys
    var recvHigh: Option<U64Value>
    ghost var inputs: seq<Envelope>
    ghost var typed: seq<(U64Value, seq<byte>)>
    ghost var roomy: bool

    ghost predicate Valid()
      reads this
    {
      recvHigh == High(keys.open, inputs) && Typed(typed, Decoded(code, Accepted(keys.open, inputs)), recvHigh)
    }

    /** With room throughout, all keystrokes that were accepted reached the terminal. */
    ghost predicate Whole()
      reads this
    {
      roomy ==> typed == Keystrokes(Decoded(code, Accepted(keys.open, inputs)))
    }

    constructor (code: Coding, keys: Keys)
      ensures Valid() && Whole() && this.code == code && this.keys == keys && inputs == [] && typed == [] && roomy
    {
      this.code, this.keys := code, keys;
      recvHigh, inputs, typed, roomy := None, [], [], true;
    }

    method OpenDownlink(env: Envelope) returns (r: Option<seq<byte>>)
      requires Valid()
      modifies this`recvHigh, this`inputs
      ensures Valid() && inputs == old(inputs) + [env]
      ensures Accepted(keys.open, inputs) == old(Accepted(keys.open, inputs))
                + (if r.Some? then [(env.seqno, r.value)] else [])
      ensures r.Some? ==> recvHigh == Some(env.seqno) && Newer(old(recvHigh), env.seqno)
    {
      hide High, Accepted, OpenEnvelope, Decoded;
      Arrives(keys.open, inputs, env);
      ghost var before := Accepted(keys.open, inputs);
      inputs := inputs + [env];
      var plaintext := OpenEnvelope(keys.open, env);
      if plaintext.None? {
        assert Accepted(keys.open, inputs) == before;
        return None;
      }
      if recvHigh.Some? && env.seqno <= recvHigh.value {
        assert Accepted(keys.open, inputs) == before;
        return None;
      }
      recvHigh := Some(env.seqno);
      DecodedNext(code, before, (env.seqno, plaintext.value));
      r := plaintext;
    }

    /**
      The stream is torn down exactly by an accepted closing frame; other data reaches the terminal if
      its queue has room.
     */
    method RouteDownlink(env: Envelope, room: bool) returns (keep: bool)
      requires Valid() && Whole()
      modifies this`recvHigh, this`inputs, this`typed, this`roomy
      ensures Valid() && Whole() && inputs == old(inputs) + [env] && roomy == (old(roomy) && room)
      ensures var a, a' := old(Accepted(keys.open, inputs)), Accepted(keys.open, inputs);
        var f := if a' == a then None else code.decode(a'[|a'| - 1].1);
        && a <= a' && |a'| <= |a| + 1 && keep == !(f.Some? && f.value.eof)
        && typed == old(typed) + (if f.Some? && !f.value.eof && room then [(env.seqno, f.value.data)] else [])
    {
      hide High, Accepted, Decoded, Keystrokes;
      ghost var before := Accepted(keys.open, inputs);
      roomy := roomy && room;
      var plaintext := OpenDownlink(env);
      if plaintext.None? {
        assert Accepted(keys.open, inputs) == before;
        return true;
      }
      DecodedNext(code, before, (env.seqno, plaintext.value));
      var frame := code.decode(plaintext.value);
      if frame.None? {
        assert Decoded(code, Accepted(keys.open, inputs)) == Decoded(code, before);
        return true;
      }
      KeystrokesNext(Decoded(code, before), env.seqno, frame.value);
      if frame.value.eof {
        return false;
      }
      if room {
        typed := typed + [(env.seqno, frame.value.data)];
      }
      keep := true;
    }
  }

  // --- The agent's uplink pump ---

  /**
    What a terminal's output becomes: a frame per read, until the first that is empty or fails, then
    the closing one.
   */
  function Frames(chunks: seq<Option<seq<byte>>>): (f: seq<StreamFrame>)
    ensures f != [] && |f| <= |chunks| + 1
  {
    if chunks == [] || chunks[0].None? || chunks[0].value == [] then [CLOSING]
    else [StreamFrame(chunks[0].value, false)] + Frames(chunks[1..])
  }

  ghost predicate ClosesLast(f: seq<StreamFrame>) {
    forall i | 0 <= i < |f| :: f[i].eof <==> i == |f| - 1
  }

  /** Exactly the last frame closes. */
  lemma {:induction false} ClosingIsLast(chunks: seq<Option<seq<byte>>>)
    ensures ClosesLast(Frames(chunks))
  {
    if !(chunks == [] || chunks[0].None? || chunks[0].value == []) {
      ClosingIsLast(chunks[1..]);
    }
  }

  lemma {:induction false} FramesPrefix(chunks: seq<Option<seq<byte>>>, n: nat)
    requires n < |chunks| && forall i | 0 <= i < n :: chunks[i].Some? && chunks[i].value != []
    ensures |Frames(chunks)| > n
    ensures if chunks[n].None? || chunks[n].value == [] then |Frames(chunks)| == n + 1 && Frames(chunks)[n] == CLOSING
            else |Frames(chunks)| > n + 1 && Frames(chunks)[n] == StreamFrame(chunks[n].value, false)
  {
    if n > 0 {
      FramesPrefix(chunks[1..], n - 1);
    }
  }

  lemma {:induction false} FramesWhole(chunks: seq<Option<seq<byte>>>)
    requires forall i | 0 <= i < |chunks| :: chunks[i].Some? && chunks[i].value != []
    ensures |Frames(chunks)| == |chunks| + 1 && Frames(chunks)[|chunks|] == CLOSING
  {
    if chunks != [] {
      FramesWhole(chunks[1..]);
    }
  }

  /** The envelopes of the first frames, numbered from 0 by an allocator that wraps. */
  ghost predicate Pumped(out: seq<Envelope>, code: Coding, keys: Keys, host: Blob, sid: Blob,
                         frames: seq<StreamFrame>) {
    |out| <= |frames|
    && forall i | 0 <= i < |out| ::
         out[i] == SealEnvelope(keys.seal, host, sid, i % TWO_64, KIND_STREAM, code.encode(frames[i]))
  }

  /**
    Frame n of what the terminal printed is sealed under number n, until the publisher is
    gone, which send number `gone` finds out.
   */
  method UplinkPump(code: Coding, keys: Keys, host: Blob, sid: Blob, chunks: seq<Option<seq<byte>>>, gone: Option<nat>)
    returns (out: seq<Envelope>)
    ensures Pumped(out, code, keys, host, sid, Frames(chunks))
    ensures |out| == if gone.Some? && gone.value < |Frames(chunks)| then gone.value else |Frames(chunks)|
  {
    hide SealEnvelope;
    out := [];
    var seqno, i := 0, 0;
    while i < |chunks|
      invariant |out| == i <= |chunks| && seqno == i % TWO_64 && i < |Frames(chunks)|
      invariant forall k | 0 <= k < i :: chunks[k].Some? && chunks[k].value != []
      invariant Pumped(out, code, keys, host, sid, Frames(chunks))
      invariant gone.Some? ==> i <= gone.value
    {
      FramesPrefix(chunks, i);
      if chunks[i].None? || chunks[i].value == [] {
        break;
      }
      var bytes := SealEnvelope(keys.seal, host, sid, seqno, KIND_STREAM,
                                code.encode(StreamFrame(chunks[i].value, false)));
      seqno := Next(seqno);
      if gone == Some(i) {
        return;
      }
      out := out + [bytes];
      i := i + 1;
      if i == |chunks| {
        FramesWhole(chunks);
      }
    }
    if i == |chunks| {
      FramesWhole(chunks);
    }
    if gone != Some(i) {
      out := out + [SealEnvelope(keys.seal, host, sid, seqno, KIND_STREAM, code.encode(CLOSING))];
    }
  }

  /** The pump's frames, as the log the channel's theorems are about. */
  function StreamLog(code: Coding, host: Blob, sid: Blob, frames: seq<StreamFrame>): (log: seq<Frame>)
    ensures Carry(code, log, frames)
  {
    seq(|frames|, i requires 0 <= i < |frames| => Frame(host, sid, KIND_STREAM, code.encode(frames[i])))
  }

  // --- End to end ---

  /**
    What the operator's route got is a strictly increasing subsequence of what the terminal
    printed, frame for frame, and nothing follows the closing frame.
   */
  lemma TerminalToOperator(route: ShellRoute, host: Blob, sid: Blob, chunks: seq<Option<seq<byte>>>)
    requires route.Valid() && route.code.RoundTrips() && |Frames(chunks)| <= TWO_64
    requires AllUnforged(route.end.keys.open, StreamLog(route.code, host, sid, Frames(chunks)), route.inputs)
    ensures Kept(route.got, Frames(chunks))
    ensures forall i | 0 <= i < |route.got| && route.got[i].1.eof :: i == |route.got| - 1
  {
    hide Accepted, AllUnforged, Subsequence, Decoded, Frames;
    var log := StreamLog(route.code, host, sid, Frames(chunks));
    AcceptedFollows(route.end.keys.open, log, route.inputs);
    DecodedFrames(route.code, Accepted(route.end.keys.open, route.inputs), log, Frames(chunks));
    ClosingIsLast(chunks);
    var f := Frames(chunks);
    assert Kept(route.got, f) && ClosesLast(f);
    forall i | 0 <= i < |route.got| && route.got[i].1.eof
      ensures i == |route.got| - 1
    {
      assert route.got[|route.got| - 1].0 < |f|;
    }
  }

  /** What reached the terminal is a strictly increasing subsequence of the keystrokes the operator's route sealed. */
  lemma OperatorToTerminal(route: ShellRoute, stream: ShellStream)
    requires route.Valid() && stream.Valid() && stream.code == route.code && route.code.RoundTrips()
    requires stream.keys.open == route.end.keys.seal && |route.sealed| <= TWO_64
    requires AllUnforged(stream.keys.open, route.sealed, stream.inputs)
    ensures var typed, f := stream.typed, route.frames;
      && (forall i | 0 <= i < |typed| :: typed[i].0 < |f| && f[typed[i].0] == StreamFrame(typed[i].1, false))
      && (forall i, j | 0 <= i < j < |typed| :: typed[i].0 < typed[j].0)
  {
    hide Accepted, AllUnforged, Subsequence, Decoded;
    AcceptedFollows(stream.keys.open, route.sealed, stream.inputs);
    DecodedFrames(route.code, Accepted(stream.keys.open, stream.inputs), route.sealed, route.frames);
  }

  /** A frame was handed on under its number, exactly once. */
  ghost predicate GotOnce(got: seq<(U64Value, StreamFrame)>, n: nat, f: StreamFrame) {
    exists k | 0 <= k < |got| :: got[k].0 == n && got[k].1 == f && forall i | 0 <= i < |got| && got[i].0 == n :: i == k
  }

  /** What was handed on once decodes to one frame. */
  lemma OnceDecodes(code: Coding, a: seq<(U64Value, seq<byte>)>, sealed: seq<Frame>, frames: seq<StreamFrame>, n: nat)
    requires code.RoundTrips() && Subsequence(a, sealed) && Carry(code, sealed, frames) && n < |frames|
    ensures HandedOnce(a, n, sealed[n].plaintext) <==> GotOnce(Decoded(code, a), n, frames[n])
  {
    hide Decoded;
    DecodedFrames(code, a, sealed, frames);
    var d := Decoded(code, a);
    if HandedOnce(a, n, sealed[n].plaintext) {
      var k :| 0 <= k < |a| && a[k].0 == n && a[k].1 == sealed[n].plaintext
               && forall i | 0 <= i < |a| && a[i].0 == n :: i == k;
      assert d[k].0 == n && d[k].1 == frames[n];
    }
    if GotOnce(d, n, frames[n]) {
      var k :| 0 <= k < |d| && d[k].0 == n && d[k].1 == frames[n]
               && forall i | 0 <= i < |d| && d[i].0 == n :: i == k;
      assert a[k].0 == n && a[k].1 == sealed[n].plaintext;
    }
  }

  /** Every frame of the log that arrived was handed on, exactly once. */
  ghost predicate AllGot(key: Key, sealed: Log, inputs: seq<Envelope>, got: seq<(U64Value, StreamFrame)>,
                         frames: seq<StreamFrame>) {
    forall n | 0 <= n < |sealed| && n < |frames| && SealFrame(key, sealed, n) in inputs :: GotOnce(got, n, frames[n])
  }

  lemma GotIff(code: Coding, key: Key, sealed: Log, inputs: seq<Envelope>, frames: seq<StreamFrame>)
    requires code.RoundTrips() && AllUnforged(key, sealed, inputs) && Carry(code, sealed, frames)
    ensures AllGot(key, sealed, inputs, Decoded(code, Accepted(key, inputs)), frames)
            <==> ArriveInOrder(key, sealed, inputs)
  {
    hide Accepted, AllUnforged, Subsequence, Decoded, HandedOnce, GotOnce, ArriveInOrder, SealFrame;
    AcceptedFollows(key, sealed, inputs);
    DeliversIff(key, sealed, inputs);
    forall n | 0 <= n < |sealed|
      ensures HandedOnce(Accepted(key, inputs), n, sealed[n].plaintext)
              <==> GotOnce(Decoded(code, Accepted(key, inputs)), n, frames[n])
    {
      OnceDecodes(code, Accepted(key, inputs), sealed, frames, n);
    }
  }

  /**
    The operator's route gets every frame of the terminal's output that arrives, the
    closing one included, exactly once, if and only if they first arrive in order.
   */
  lemma OutputDelivers(route: ShellRoute, host: Blob, sid: Blob, chunks: seq<Option<seq<byte>>>)
    requires route.Valid() && route.code.RoundTrips() && |Frames(chunks)| <= TWO_64
    requires AllUnforged(route.end.keys.open, StreamLog(route.code, host, sid, Frames(chunks)), route.inputs)
    ensures var log := StreamLog(route.code, host, sid, Frames(chunks));
      AllGot(route.end.keys.open, log, route.inputs, route.got, Frames(chunks))
      <==> ArriveInOrder(route.end.keys.open, log, route.inputs)
  {
    hide Accepted, AllUnforged, Decoded, Frames, AllGot, ArriveInOrder, Carry;
    GotIff(route.code, route.end.keys.open, StreamLog(route.code, host, sid, Frames(chunks)), route.inputs,
           Frames(chunks));
  }

  /** A keystroke reached the terminal under its frame's number, exactly once. */
  ghost predicate TypedOnce(typed: seq<(U64Value, seq<byte>)>, n: nat, data: seq<byte>) {
    exists k | 0 <= k < |typed| ::
      typed[k].0 == n && typed[k].1 == data && forall i | 0 <= i < |typed| && typed[i].0 == n :: i == k
  }

  /**
    With room in its queue the terminal gets every keystroke of the operator's that
    arrives, exactly once, if frames first arrive in the order in which they were sealed.
   */
  lemma KeystrokesDeliver(route: ShellRoute, stream: ShellStream, n: nat)
    requires route.Valid() && stream.Valid() && stream.Whole() && stream.code == route.code && route.code.RoundTrips()
    requires stream.keys.open == route.end.keys.seal && |route.sealed| <= TWO_64 && stream.roomy
    requires AllUnforged(stream.keys.open, route.sealed, stream.inputs)
    requires ArriveInOrder(stream.keys.open, route.sealed, stream.inputs)
    requires n < |route.frames| && !route.frames[n].eof
    requires SealFrame(stream.keys.open, route.sealed, n) in stream.inputs
    ensures TypedOnce(stream.typed, n, route.frames[n].data)
  {
    hide Accepted, AllUnforged, Decoded, Keystrokes, ArriveInOrder, SealFrame, High;
    GotIff(route.code, stream.keys.open, route.sealed, stream.inputs, route.frames);
    var d := Decoded(route.code, Accepted(stream.keys.open, stream.inputs));
    assert GotOnce(d, n, route.frames[n]);
    var i :| 0 <= i < |d| && d[i].0 == n && d[i].1 == route.frames[n];
    KeystrokeKept(d, i);
    var k :| 0 <= k < |stream.typed| && stream.typed[k] == (n, route.frames[n].data);
  }
}
