/** The output pump of a running job: two pipes, one sink, a byte cap. */
module Exec {
  import opened Wrappers
  import opened Bytes

  const READ_CHUNK := 16384

  datatype Chunk = Stdout(data: seq<byte>) | Stderr(data: seq<byte>)

  datatype PumpEnd = Eof | Truncated | SinkClosed | TimedOut

  /** What the sink received of each stream. */
  function OutOf(sent: seq<Chunk>): seq<byte> {
    if sent == [] then []
    else
      var c := sent[|sent| - 1];
      OutOf(sent[..|sent| - 1]) + (if c.Stdout? then c.data else [])
  }

  function ErrOf(sent: seq<Chunk>): seq<byte> {
    if sent == [] then []
    else
      var c := sent[|sent| - 1];
      ErrOf(sent[..|sent| - 1]) + (if c.Stderr? then c.data else [])
  }

  lemma Append(sent: seq<Chunk>, c: Chunk)
    ensures OutOf(sent + [c]) == OutOf(sent) + (if c.Stdout? then c.data else [])
    ensures ErrOf(sent + [c]) == ErrOf(sent) + (if c.Stderr? then c.data else [])
  {
    assert (sent + [c])[..|sent|] == sent;
  }

  lemma NothingSent()
    ensures OutOf([]) == [] && ErrOf([]) == []
  {
  }

  /** A read of a pipe: some of what is left, at most one buffer; empty at its end or on an error. */
  method Read(pipe: seq<byte>) returns (n: nat)
    ensures n <= |pipe| && n <= READ_CHUNK
  {
    n := *;
    if n > |pipe| || n > READ_CHUNK {
      n := 0;
    }
  }

  /**
    `out` and `err` are what the child writes.  Whatever order the pipes become ready in,
    the sink gets a prefix of each stream in order; the total is at most the cap plus one
    buffer; the cap is exceeded exactly when the pump reports truncation; and at the end
    of both pipes everything was sent, unless a read failed, which counts as the end.
    `gone` is the number of the send that finds the sink closed, if one does; `limited`
    says that there is a timeout, which may expire at any time.
   */
  method Pump(out: seq<byte>, err: seq<byte>, cap: nat, gone: Option<nat>, limited: bool)
    returns (end: PumpEnd, sent: seq<Chunk>, ghost lost: bool)
    ensures OutOf(sent) <= out && ErrOf(sent) <= err
    ensures |OutOf(sent)| + |ErrOf(sent)| <= cap + 16384
    ensures end == Truncated <==> |OutOf(sent)| + |ErrOf(sent)| > cap
    ensures forall i | 0 <= i < |sent| :: 0 < |sent[i].data| <= READ_CHUNK
    ensures end == Eof && !lost ==> OutOf(sent) == out && ErrOf(sent) == err
    ensures end == SinkClosed ==> gone == Some(|sent|)
    ensures gone.Some? ==> |sent| <= gone.value
    ensures end == TimedOut ==> limited
  {
    hide OutOf, ErrOf;
    sent, lost := [], false;
    NothingSent();
    var outDone, errDone, total, o, e := false, false, 0, 0, 0;
    while !(outDone && errDone)
      invariant 0 <= o <= |out| && 0 <= e <= |err| && OutOf(sent) == out[..o] && ErrOf(sent) == err[..e]
      invariant total == o + e <= cap && (gone.Some? ==> |sent| <= gone.value)
      invariant forall i | 0 <= i < |sent| :: 0 < |sent[i].data| <= READ_CHUNK
      invariant !lost ==> (outDone ==> o == |out|) && (errDone ==> e == |err|)
      decreases |out| - o + |err| - e, !outDone, !errDone
    {
      var expired := *;
      if limited && expired {
        return TimedOut, sent, lost;
      }
      var pickOut := *;
      if !outDone && (pickOut || errDone) {
        var n := Read(out[o..]);
        if n == 0 {
          outDone, lost := true, lost || o < |out|;
        } else {
          if gone == Some(|sent|) {
            return SinkClosed, sent, lost;
          }
          Append(sent, Stdout(out[o..o + n]));
          sent := sent + [Stdout(out[o..o + n])];
          assert out[..o] + out[o..o + n] == out[..o + n];
          o := o + n;
          total := total + n;
          if total > cap {
            return Truncated, sent, lost;
          }
        }
      } else {
        var n := Read(err[e..]);
        if n == 0 {
          errDone, lost := true, lost || e < |err|;
        } else {
          if gone == Some(|sent|) {
            return SinkClosed, sent, lost;
          }
          Append(sent, Stderr(err[e..e + n]));
          sent := sent + [Stderr(err[e..e + n])];
          assert err[..e] + err[e..e + n] == err[..e + n];
          e := e + n;
          total := total + n;
          if total > cap {
            return Truncated, sent, lost;
          }
        }
      }
    }
    end := Eof;
  }

  /** How the pump ended decides the flags of the outcome, and whether the child is killed. */
  datatype StreamOutcome = StreamOutcome(truncated: bool, timedOut: bool, killed: bool)

  /**
    The child is killed exactly if the pump stopped before the end of both pipes: at the cap, by the
    clock or for the sink.
   */
  method Stream(out: seq<byte>, err: seq<byte>, cap: nat, gone: Option<nat>, limited: bool)
    returns (r: StreamOutcome, sent: seq<Chunk>, end: PumpEnd, ghost lost: bool)
    ensures OutOf(sent) <= out && ErrOf(sent) <= err && |OutOf(sent)| + |ErrOf(sent)| <= cap + READ_CHUNK
    ensures r.truncated <==> |OutOf(sent)| + |ErrOf(sent)| > cap
    ensures r == StreamOutcome(end == Truncated, end == TimedOut, end != Eof)
    ensures !r.killed && !lost ==> OutOf(sent) == out && ErrOf(sent) == err
    ensures end == SinkClosed ==> r.killed && gone == Some(|sent|)
    ensures end == TimedOut ==> limited
  {
    end, sent, lost := Pump(out, err, cap, gone, limited);
    var truncated, timedOut, sinkClosed := false, false, false;
    match end {
      case Truncated => truncated := true;
      case SinkClosed => sinkClosed := true;
      case Eof =>
      case TimedOut => timedOut := true;
    }
    r := StreamOutcome(truncated, timedOut, truncated || timedOut || sinkClosed);
  }
}
