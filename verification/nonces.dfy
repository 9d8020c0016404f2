/**
  Nonce uniqueness, as sections 8 and 8.2.1 of NIST SP 800-38D require it: over every run
  of an agent and a coordinator, no key is used twice with one sequence number.  Keys
  are terms; each allocator counts from zero modulo 2^64 under the key it was created for.
 */
module Nonces {
  import opened Wrappers
  import opened Bytes
  import opened Collections
  import opened Channel

  datatype Alloc = Alloc(key: Key, next: nat)

  type Log = seq<(Key, nat)>

  function Count(log: Log, k: Key): nat {
    if log == [] then 0 else Count(log[..|log| - 1], k) + (if log[|log| - 1].0 == k then 1 else 0)
  }

  ghost predicate Unique(log: Log) {
    forall i, j | 0 <= i < j < |log| :: log[i] != log[j]
  }

  /** Under every key the numbers run 0, 1, 2, ... modulo 2^64. */
  ghost predicate Sequential(log: Log) {
    forall i | 0 <= i < |log| :: log[i].1 == Count(log[..i], log[i].0) % TWO_64
  }

  lemma {:induction false} CountPrefix(log: Log, i: nat, k: Key)
    requires i <= |log|
    ensures Count(log[..i], k) <= Count(log, k)
    ensures i < |log| && log[i].0 == k ==> Count(log[..i], k) < Count(log, k)
    decreases |log|
  {
    if i == |log| {
      assert log[..i] == log;
    } else {
      var before := log[..|log| - 1];
      assert before[..i] == log[..i];
      CountPrefix(before, i, k);
    }
  }

  /** Every count below the total is reached at some use of the key. */
  lemma {:induction false} CountReached(log: Log, k: Key, c: nat) returns (i: nat)
    requires c < Count(log, k)
    ensures i < |log| && log[i].0 == k && Count(log[..i], k) == c
    decreases |log|
  {
    var n := |log| - 1;
    if c < Count(log[..n], k) {
      i := CountReached(log[..n], k, c);
      assert log[..n][..i] == log[..i];
    } else {
      i := n;
    }
  }

  /** No key is used more often than there are sequence numbers. */
  ghost predicate Bounded(log: Log) {
    forall k :: Count(log, k) <= TWO_64
  }

  /** No pair repeats exactly when no key is used more than 2^64 times. */
  lemma UniqueIff(log: Log)
    requires Sequential(log)
    ensures Unique(log) <==> Bounded(log)
  {
    if Bounded(log) {
      forall i, j | 0 <= i < j < |log|
        ensures log[i] != log[j]
      {
        if log[i].0 == log[j].0 {
          UsesDiffer(log, i, j);
        }
      }
    }
    if k :| Count(log, k) > TWO_64 {
      OveruseRepeats(log, k);
    }
  }

  lemma OveruseRepeats(log: Log, k: Key)
    requires Sequential(log) && Count(log, k) > TWO_64
    ensures !Unique(log)
  {
    var i := CountReached(log, k, 0);
    var j := CountReached(log, k, TWO_64);
    assert log[i] == log[j] && i != j;
  }

  lemma UsesDiffer(log: Log, i: nat, j: nat)
    requires Sequential(log) && i < j < |log| && log[i].0 == log[j].0 && Count(log, log[j].0) <= TWO_64
    ensures log[i].1 != log[j].1
  {
    hide Count;
    var k := log[j].0;
    assert log[..j][..i] == log[..i] && log[..j][i] == log[i];
    CountPrefix(log[..j], i, k);
    CountPrefix(log, j, k);
    SmallRemainder(Count(log[..i], k));
    SmallRemainder(Count(log[..j], k));
  }

  lemma SmallRemainder(n: nat)
    requires n < TWO_64
    ensures n % TWO_64 == n
  {
  }

  // --- Allocators ---

  /** Allocators have different keys, and each stands at the number of uses of its key. */
  ghost predicate Sound(allocs: seq<Alloc>, log: Log) {
    && (forall i, j | 0 <= i < j < |allocs| :: allocs[i].key != allocs[j].key)
    && (forall i | 0 <= i < |allocs| :: allocs[i].next == Count(log, allocs[i].key) % TWO_64)
    && (forall k | Count(log, k) > 0 :: Allocated(allocs, k))
    && Sequential(log)
  }

  ghost predicate Allocated(allocs: seq<Alloc>, k: Key) {
    exists i | 0 <= i < |allocs| :: allocs[i].key == k
  }

  function SealNext(allocs: seq<Alloc>, i: nat): seq<Alloc>
    requires i < |allocs|
  {
    allocs[i := allocs[i].(next := (allocs[i].next + 1) % TWO_64)]
  }

  lemma CountNext(log: Log, p: (Key, nat), k: Key)
    ensures Count(log + [p], k) == Count(log, k) + (if p.0 == k then 1 else 0)
  {
    assert (log + [p])[..|log|] == log;
  }

  lemma SealSound(allocs: seq<Alloc>, log: Log, i: nat)
    requires Sound(allocs, log) && i < |allocs|
    ensures Sound(SealNext(allocs, i), log + [(allocs[i].key, allocs[i].next)])
  {
    hide Count;
    var p := (allocs[i].key, allocs[i].next);
    var log', allocs' := log + [p], SealNext(allocs, i);
    forall k
      ensures Count(log', k) == Count(log, k) + (if p.0 == k then 1 else 0)
    {
      CountNext(log, p, k);
    }
    forall k | Count(log', k) > 0
      ensures Allocated(allocs', k)
    {
      if p.0 == k {
        assert allocs'[i].key == k;
      } else {
        var j :| 0 <= j < |allocs| && allocs[j].key == k;
        assert allocs'[j].key == k;
      }
    }
    forall j | 0 <= j < |log'|
      ensures log'[j].1 == Count(log'[..j], log'[j].0) % TWO_64
    {
      assert log'[..j] == log[..j];
      assert j == |log| ==> log[..j] == log;
    }
  }

  lemma AllocSound(allocs: seq<Alloc>, log: Log, k: Key)
    requires Sound(allocs, log) && !Allocated(allocs, k)
    ensures Sound(allocs + [Alloc(k, 0)], log)
  {
    hide Count;
    var allocs' := allocs + [Alloc(k, 0)];
    forall q | Count(log, q) > 0
      ensures Allocated(allocs', q)
    {
      var j :| 0 <= j < |allocs| && allocs[j].key == q;
      assert allocs'[j].key == q;
    }
    assert Count(log, k) == 0;
  }

  /** The session key a key descends from. */
  function RootOf(k: Key): (r: Key)
    ensures r.Root?
  {
    if k.Root? then k else RootOf(k.parent)
  }

  lemma RootOfStream(k: Key)
    requires k.Sub? ==> k.parent.Root?
    ensures RootOf(k) == if k.Root? then k else k.parent
  {
  }

  // --- The agent ---

  const MAX_STREAM_ID_LEN := 256
  const MAX_SHELLS_PER_SESSION := 4096

  /** `drawn` counts the ephemerals drawn so far; `session` and `used` belong to the current connection. */
  datatype Agent = Agent(
    drawn: nat,
    handshaking: Option<nat>,
    session: Option<nat>,
    used: set<string>,
    allocs: seq<Alloc>,
    log: Log)

  /** Any allocator may seal at any time: job tasks outlive their connection, and so may a shell's pump for a while. */
  datatype AgentEvent =
    | Connect
    | Begin
    | ServerHello(server: nat, verified: bool)
    | ShellOpen(id: string, spawned: bool)
    | Seal(i: nat)

  function AgentStep(a: Agent, e: AgentEvent): Agent {
    match e
    case Connect => a.(handshaking := None, session := None, used := {})
    case Begin => a.(handshaking := Some(a.drawn), drawn := a.drawn + 1)
    case ServerHello(server, verified) =>
      if a.handshaking.None? then a
      else if !verified then a.(handshaking := None)
      else a.(handshaking := None, session := Some(|a.allocs|),
              allocs := a.allocs + [Alloc(Root(a.handshaking.value, server, AgentToCoord), 0)])
    case ShellOpen(id, spawned) =>
      if a.session.None? || a.session.value >= |a.allocs| then a
      else if |id| == 0 || |id| > MAX_STREAM_ID_LEN || id in a.used || |a.used| >= MAX_SHELLS_PER_SESSION
              || !spawned then a
      else a.(used := a.used + {id}, allocs := a.allocs + [Alloc(Sub(a.allocs[a.session.value].key, id), 0)])
    case Seal(i) =>
      if i >= |a.allocs| then a
      else a.(allocs := SealNext(a.allocs, i), log := a.log + [(a.allocs[i].key, a.allocs[i].next)])
  }

  function AgentRun(events: seq<AgentEvent>): Agent {
    if events == [] then Agent(0, None, None, {}, [], [])
    else AgentStep(AgentRun(events[..|events| - 1]), events[|events| - 1])
  }

  /** A key of the agent: uplink, and of an ephemeral that no open handshake holds. */
  ghost predicate AgentKey(a: Agent, k: Key) {
    var r := RootOf(k);
    && r.dir == AgentToCoord && r.client < a.drawn && a.handshaking != Some(r.client)
    && (k.Sub? ==> k.parent.Root?)
  }

  ghost predicate AgentInv(a: Agent) {
    && Sound(a.allocs, a.log)
    && (a.handshaking.Some? ==> a.handshaking.value < a.drawn)
    && (forall i | 0 <= i < |a.allocs| :: AgentKey(a, a.allocs[i].key))
    && (a.session.Some? ==>
          && a.session.value < |a.allocs| && a.allocs[a.session.value].key.Root?
          && forall i | 0 <= i < |a.allocs| && a.allocs[i].key.Sub?
                         && a.allocs[i].key.parent == a.allocs[a.session.value].key ::
               a.allocs[i].key.id in a.used)
  }

  lemma AgentStepInv(a: Agent, e: AgentEvent)
    requires AgentInv(a)
    ensures AgentInv(AgentStep(a, e))
  {
    hide Count, Sound;
    match e
    case Seal(i) =>
      if i < |a.allocs| {
        SealSound(a.allocs, a.log, i);
      }
    case ServerHello(server, verified) =>
      if a.handshaking.Some? && verified {
        forall i | 0 <= i < |a.allocs|
          ensures RootOf(a.allocs[i].key) == if a.allocs[i].key.Root? then a.allocs[i].key else a.allocs[i].key.parent
        {
          RootOfStream(a.allocs[i].key);
        }
        AllocSound(a.allocs, a.log, Root(a.handshaking.value, server, AgentToCoord));
      }
    case ShellOpen(id, spawned) =>
      if AgentStep(a, e) != a {
        AllocSound(a.allocs, a.log, Sub(a.allocs[a.session.value].key, id));
      }
    case Connect =>
    case Begin =>
  }

  lemma {:induction false} AgentHolds(events: seq<AgentEvent>)
    ensures AgentInv(AgentRun(events))
  {
    if events != [] {
      AgentHolds(events[..|events| - 1]);
      AgentStepInv(AgentRun(events[..|events| - 1]), events[|events| - 1]);
    }
  }

  /**
    The agent never repeats a (key, number) pair unless it seals more than 2^64 times
    under one key, whatever stream ids the coordinator chooses.
   */
  lemma AgentNoncesUnique(events: seq<AgentEvent>)
    ensures Unique(AgentRun(events).log) <==> Bounded(AgentRun(events).log)
  {
    AgentHolds(events);
    UniqueIff(AgentRun(events).log);
  }

  /** Every seal of every run takes the next number of its key, counted from 0 modulo 2^64. */
  lemma AgentSeals(events: seq<AgentEvent>, i: nat)
    requires i < |AgentRun(events).allocs|
    ensures var a := AgentRun(events);
      AgentStep(a, Seal(i)).log == a.log + [(a.allocs[i].key, Count(a.log, a.allocs[i].key) % TWO_64)]
  {
    hide Count;
    AgentHolds(events);
  }

  /** A handshake that verifies gives the session a key of the agent's own ephemeral and the server's, unused so far. */
  lemma AgentEstablishes(a: Agent, server: nat, verified: bool)
    requires a.handshaking.Some?
    ensures var a' := AgentStep(a, ServerHello(server, verified));
      && a'.handshaking == None
      && if verified then
           a'.session == Some(|a.allocs|)
           && a'.allocs == a.allocs + [Alloc(Root(a.handshaking.value, server, AgentToCoord), 0)]
         else a'.session == a.session && a'.allocs == a.allocs
  {
  }

  /** A shell gets a subkey of the session, exactly for an id of 1 to 256 bytes that the session has not used. */
  lemma AgentOpensShell(a: Agent, id: string, spawned: bool)
    requires a.session.Some? && a.session.value < |a.allocs|
    ensures var a' := AgentStep(a, ShellOpen(id, spawned));
      if 0 < |id| <= 256 && id !in a.used && |a.used| < 4096 && spawned
      then a'.allocs == a.allocs + [Alloc(Sub(a.allocs[a.session.value].key, id), 0)] && a'.used == a.used + {id}
      else a' == a
  {
  }

  // --- The coordinator ---

  /** `shells` maps a host to its live route's allocator. */
  datatype Coordinator = Coordinator(
    drawn: nat,
    sessions: map<string, nat>,
    shells: map<string, nat>,
    allocs: seq<Alloc>,
    log: Log)

  datatype CoordinatorEvent =
    | Hello(host: string, client: nat, stored: bool)
    | OpenShell(host: string, id: string, published: bool)
    | SealControl(host: string)
    | SealShell(host: string)

  function SealAt(c: Coordinator, i: nat): Coordinator {
    if i >= |c.allocs| then c
    else c.(allocs := SealNext(c.allocs, i), log := c.log + [(c.allocs[i].key, c.allocs[i].next)])
  }

  function CoordinatorStep(c: Coordinator, e: CoordinatorEvent): Coordinator {
    match e
    case Hello(host, client, stored) =>
      if !stored then c.(drawn := c.drawn + 1)
      else c.(drawn := c.drawn + 1, sessions := c.sessions[host := |c.allocs|],
              allocs := c.allocs + [Alloc(Root(client, c.drawn, CoordToAgent), 0)])
    case OpenShell(host, id, published) =>
      if host !in c.sessions || c.sessions[host] >= |c.allocs| then c
      else
        var sealed := SealAt(c, c.sessions[host]);
        if !published then sealed
        else sealed.(shells := c.shells[host := |c.allocs|],
                     allocs := sealed.allocs + [Alloc(Sub(c.allocs[c.sessions[host]].key, id), 0)])
    case SealControl(host) => if host in c.sessions then SealAt(c, c.sessions[host]) else c
    case SealShell(host) => if host in c.shells then SealAt(c, c.shells[host]) else c
  }

  function CoordinatorRun(events: seq<CoordinatorEvent>): Coordinator {
    if events == [] then Coordinator(0, map[], map[], [], [])
    else CoordinatorStep(CoordinatorRun(events[..|events| - 1]), events[|events| - 1])
  }

  /** The ids the coordinator minted for shells, in order. */
  function Minted(events: seq<CoordinatorEvent>): seq<string> {
    if events == [] then []
    else
      var e := events[|events| - 1];
      Minted(events[..|events| - 1]) + (if e.OpenShell? then [e.id] else [])
  }

  ghost predicate CoordinatorKey(c: Coordinator, ids: seq<string>, k: Key) {
    match k
    case Root(_, server, dir) => server < c.drawn && dir == CoordToAgent
    case Sub(parent, id) => parent.Root? && parent.dir == CoordToAgent && id in ids
  }

  ghost predicate CoordinatorInv(c: Coordinator, ids: seq<string>) {
    && Sound(c.allocs, c.log)
    && (forall i | 0 <= i < |c.allocs| :: CoordinatorKey(c, ids, c.allocs[i].key))
    && (forall h | h in c.sessions :: c.sessions[h] < |c.allocs| && c.allocs[c.sessions[h]].key.Root?)
  }

  lemma SealAtInv(c: Coordinator, ids: seq<string>, i: nat)
    requires CoordinatorInv(c, ids)
    ensures CoordinatorInv(SealAt(c, i), ids)
  {
    hide Count, Sound;
    if i < |c.allocs| {
      SealSound(c.allocs, c.log, i);
    }
  }

  lemma OpenShellInv(c: Coordinator, ids: seq<string>, host: string, id: string)
    requires CoordinatorInv(c, ids) && id !in ids
    ensures CoordinatorInv(CoordinatorStep(c, OpenShell(host, id, true)), ids + [id])
  {
    hide Count, Sound;
    if host in c.sessions {
      var s := SealAt(c, c.sessions[host]);
      SealAtInv(c, ids, c.sessions[host]);
      AllocSound(s.allocs, s.log, Sub(c.allocs[c.sessions[host]].key, id));
    }
  }

  lemma {:induction false} CoordinatorHolds(events: seq<CoordinatorEvent>)
    requires NoRepeats(Minted(events))
    ensures CoordinatorInv(CoordinatorRun(events), Minted(events))
  {
    hide Count, Sound;
    if events == [] {
      NothingSealed();
    } else {
      var before, e := events[..|events| - 1], events[|events| - 1];
      var c, ids := CoordinatorRun(before), Minted(before);
      MintedPrefix(events);
      CoordinatorHolds(before);
      match e
      case Hello(host, client, stored) => AllocSound(c.allocs, c.log, Root(client, c.drawn, CoordToAgent));
      case OpenShell(host, id, published) =>
        if published {
          OpenShellInv(c, ids, host, id);
        } else if host in c.sessions {
          SealAtInv(c, ids, c.sessions[host]);
        }
      case SealControl(host) =>
        if host in c.sessions {
          SealAtInv(c, ids, c.sessions[host]);
        }
      case SealShell(host) =>
        if host in c.shells {
          SealAtInv(c, ids, c.shells[host]);
        }
    }
  }

  lemma NothingSealed()
    ensures Sound([], [])
  {
  }

  lemma MintedPrefix(events: seq<CoordinatorEvent>)
    requires events != [] && NoRepeats(Minted(events))
    ensures NoRepeats(Minted(events[..|events| - 1]))
    ensures events[|events| - 1].OpenShell? ==> events[|events| - 1].id !in Minted(events[..|events| - 1])
  {
    var before, e := Minted(events[..|events| - 1]), events[|events| - 1];
    NoRepeatsSplit(before, if e.OpenShell? then [e.id] else []);
  }

  /** A control frame takes the next number of the host's session key, a shell frame of its shell's. */
  lemma CoordinatorSeals(events: seq<CoordinatorEvent>, host: string)
    requires NoRepeats(Minted(events))
    ensures var c := CoordinatorRun(events);
      && (host in c.sessions ==>
            && c.sessions[host] < |c.allocs|
            && var k := c.allocs[c.sessions[host]].key;
            CoordinatorStep(c, SealControl(host)).log == c.log + [(k, Count(c.log, k) % TWO_64)])
      && (host in c.shells && c.shells[host] < |c.allocs| ==>
            var k := c.allocs[c.shells[host]].key;
            CoordinatorStep(c, SealShell(host)).log == c.log + [(k, Count(c.log, k) % TWO_64)])
  {
    hide Count;
    CoordinatorHolds(events);
  }

  /** With freshly minted stream ids the same holds of the coordinator. */
  lemma CoordinatorNoncesUnique(events: seq<CoordinatorEvent>)
    requires NoRepeats(Minted(events))
    ensures Unique(CoordinatorRun(events).log) <==> Bounded(CoordinatorRun(events).log)
  {
    CoordinatorHolds(events);
    UniqueIff(CoordinatorRun(events).log);
  }

  /** The two ends never seal under one key: each has its own direction. */
  lemma EndsShareNoKey(ae: seq<AgentEvent>, ce: seq<CoordinatorEvent>, i: nat, j: nat)
    requires NoRepeats(Minted(ce)) && i < |AgentRun(ae).log| && j < |CoordinatorRun(ce).log|
    ensures AgentRun(ae).log[i].0 != CoordinatorRun(ce).log[j].0
  {
    hide AgentRun, CoordinatorRun;
    AgentHolds(ae);
    CoordinatorHolds(ce);
    var a, c := AgentRun(ae), CoordinatorRun(ce);
    UsedIsAllocated(a.allocs, a.log, i);
    UsedIsAllocated(c.allocs, c.log, j);
    var x :| 0 <= x < |a.allocs| && a.allocs[x].key == a.log[i].0;
    var y :| 0 <= y < |c.allocs| && c.allocs[y].key == c.log[j].0;
    assert AgentKey(a, a.allocs[x].key) && CoordinatorKey(c, Minted(ce), c.allocs[y].key);
    RootOfStream(a.allocs[x].key);
  }

  lemma UsedIsAllocated(allocs: seq<Alloc>, log: Log, i: nat)
    requires Sound(allocs, log) && i < |log|
    ensures Allocated(allocs, log[i].0)
  {
    CountPrefix(log, i, log[i].0);
  }

  /** A reused stream id repeats a nonce on the coordinator; the agent refuses it. */
  lemma ReusedIdRepeats(host: string, id: string, client: nat)
    ensures var events := [Hello(host, client, true), OpenShell(host, id, true), SealShell(host),
                           OpenShell(host, id, true), SealShell(host)];
      !Unique(CoordinatorRun(events).log)
    ensures forall a: Agent | id in a.used :: AgentStep(a, ShellOpen(id, true)) == a
  {
    hide CoordinatorStep, CoordinatorRun, Unique;
    var open, seal := OpenShell(host, id, true), SealShell(host);
    var events := [Hello(host, client, true), open, seal, open, seal];
    RunNext(events, 0);
    RunNext(events, 1);
    RunNext(events, 2);
    RunNext(events, 3);
    RunNext(events, 4);
    assert events[..5] == events;
    var c2 := OpenedOnce(host, id, client);
    ReusedFrom(host, id, Root(client, 0, CoordToAgent), c2);
  }

  lemma RunNext(events: seq<CoordinatorEvent>, n: nat)
    requires n < |events|
    ensures CoordinatorRun(events[..n + 1]) == CoordinatorStep(CoordinatorRun(events[..n]), events[n])
    ensures CoordinatorRun(events[..0]) == Coordinator(0, map[], map[], [], [])
  {
    assert events[..n + 1][..n] == events[..n];
  }

  lemma OpenedOnce(host: string, id: string, client: nat) returns (c: Coordinator)
    ensures var k := Root(client, 0, CoordToAgent);
      c == Coordinator(1, map[host := 0], map[host := 1], [Alloc(k, 1), Alloc(Sub(k, id), 0)], [(k, 0)])
    ensures c == CoordinatorStep(CoordinatorStep(Coordinator(0, map[], map[], [], []), Hello(host, client, true)),
                                 OpenShell(host, id, true))
  {
    var c1 := CoordinatorStep(Coordinator(0, map[], map[], [], []), Hello(host, client, true));
    assert c1.allocs == [Alloc(Root(client, 0, CoordToAgent), 0)];
    c := CoordinatorStep(c1, OpenShell(host, id, true));
  }

  lemma ReusedFrom(host: string, id: string, k: Key, c2: Coordinator)
    requires c2 == Coordinator(1, map[host := 0], map[host := 1], [Alloc(k, 1), Alloc(Sub(k, id), 0)], [(k, 0)])
    ensures var open, seal := OpenShell(host, id, true), SealShell(host);
      !Unique(CoordinatorStep(CoordinatorStep(CoordinatorStep(c2, seal), open), seal).log)
  {
    var open, seal := OpenShell(host, id, true), SealShell(host);
    var c3 := CoordinatorStep(c2, seal);
    assert c3 == Coordinator(1, map[host := 0], map[host := 1], [Alloc(k, 1), Alloc(Sub(k, id), 1)],
                             [(k, 0), (Sub(k, id), 0)]);
    var c4 := CoordinatorStep(c3, open);
    assert c4.allocs == [Alloc(k, 2), Alloc(Sub(k, id), 1), Alloc(Sub(k, id), 0)] && c4.shells[host] == 2;
    var c5 := CoordinatorStep(c4, seal);
    assert c5.log[1] == c5.log[3];
  }
}
