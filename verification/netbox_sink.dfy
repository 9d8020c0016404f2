/**
  `NetboxInventorySink::upsert`: the serial gate, the content-hash cache, and the
  retry loop around match-and-reconcile.
 */
module NetboxSink {
  import opened Wrappers
  import opened Bytes
  import opened Strings
  import opened Uuid
  import opened NetboxModel
  import opened NetboxEnsure
  import opened NetboxTheorems
  import opened NetboxExact
  import opened NetboxConverge
  import opened NetboxAttempts
  import opened Netbox
  import opened NetboxHash

  datatype UpsertOutcome = Updated | Unchanged | Unmatched | SkippedNoSerial | AmbiguousMatch(count: nat)
    | HostCollision

  const MAX_TRANSIENT_RETRIES := 3

  predicate IsTransient(e: PortError) {
    e.Backend? || e.Transport?
  }

  /** The serial a report may be matched on, if it carries one. */
  function UsableSerial(dmi: Option<string>): Option<string> {
    if dmi.None? || Trim(dmi.value) == "" then None else Some(Trim(dmi.value))
  }

  /** Without a serial, or with a blank one, there is none; else it is the serial without the white space around it. */
  lemma UsableSerialIs(dmi: Option<string>) returns (a: string, b: string)
    ensures UsableSerial(dmi) == None <==> dmi.None? || AllSpace(dmi.value)
    ensures AllSpace(a) && AllSpace(b)
    ensures UsableSerial(dmi).Some? ==>
              var t := UsableSerial(dmi).value;
              dmi.value == a + t + b && t != "" && !IsSpace(t[0]) && !IsSpace(t[|t| - 1])
  {
    hide Trim, IsSpace;
    a, b := "", "";
    if dmi.Some? {
      a, b := TrimIs(dmi.value);
      TrimEnds(dmi.value);
      TrimBlank(dmi.value);
    }
  }

  /** A device may be written for a host if it is unclaimed or already claimed by that host. */
  predicate Claimable(stamp: string, host: HostId) {
    stamp == "" || stamp == Text(host)
  }

  datatype Snapshot = Snapshot(serial: string, observed: Inventory)

  /**
    `met` are the errors of the failed attempts.  Every one but the last was a backend or
    transport error, so any other ends the upsert at once; such an error is given up on
    only after the fourth attempt.
   */
  ghost predicate Persisted(r: Result<UpsertOutcome, PortError>, attempts: nat, met: seq<PortError>) {
    && attempts <= 4 && |met| == (if r.Err? then attempts else if attempts == 0 then 0 else attempts - 1)
    && (forall i | 0 <= i < (if r.Err? then |met| - 1 else |met|) :: met[i].Backend? || met[i].Transport?)
    && (r.Err? ==>
          && attempts > 0 && met[|met| - 1] == r.error
          && (r.error.Backend? || r.error.Transport? ==> attempts == 4))
  }

  /** What is known of the written device between attempts. */
  ghost predicate InProgress(d0: Device, d: Device, observed: Inventory, host: HostId, parse: AddressParser) {
    && Sound(d) && (d.stamp == d0.stamp || d.stamp == Text(host))
    && (Distinct(observed, parse) && StoredOnce(d0, Names(observed)) ==> StoredOnce(d, Names(observed)))
  }

  lemma StepStamp(c: Context, st: State, item: Item, id: RowId)
    ensures Step(c, st, item, id).dev.stamp == st.dev.stamp || Step(c, st, item, id).dev.stamp == c.host
  {
  }

  lemma {:induction false} StampRun(c: Context, script: seq<Item>, ids: seq<RowId>)
    requires |ids| <= |script|
    ensures Run(c, script, ids).dev.stamp == c.base.stamp || Run(c, script, ids).dev.stamp == c.host
    decreases |ids|
  {
    hide Step;
    if ids != [] {
      var k := |ids| - 1;
      StampRun(c, script, ids[..k]);
      StepStamp(c, Run(c, script, ids[..k]), script[k], ids[k]);
    }
  }

  lemma AttemptKeepsProgress(d0: Device, d: Device, a: Attempt, observed: Inventory, host: HostId, parse: AddressParser)
    requires InProgress(d0, d, observed, host, parse) && Tried(a, d, observed, Text(host), parse)
    ensures InProgress(d0, Left(a, observed), observed, host, parse)
  {
    hide Run, FreshRun;
    SoundRun(a.c, a.current, observed, a.ids);
    StampRun(a.c, Script(a.current, observed), a.ids);
    if Distinct(observed, parse) && StoredOnce(d, Names(observed)) {
      AttemptStaysOnce(a, d, observed, Text(host), parse);
    }
  }

  lemma SettledIfOnce(d0: Device, d: Device, a: Attempt, host: HostId, observed: Inventory, parse: AddressParser)
    requires InProgress(d0, d, observed, host, parse) && Tried(a, d, observed, Text(host), parse)
             && Finished(a, observed)
    ensures Distinct(observed, parse) && StoredOnce(d0, Names(observed)) ==>
              Settled(Left(a, observed), observed, Text(host), parse)
  {
    hide Run, FreshRun, Settled;
    if Distinct(observed, parse) && StoredOnce(d0, Names(observed)) {
      SuccessSettles(a, d, observed, Text(host), parse);
    }
  }

  /**
    What an upsert may have done so far: only the single device carrying the serial,
    and only if the host may claim it, was written.
   */
  ghost predicate Confined(target: set<int>, before: map<int, Device>, after: map<int, Device>, host: HostId,
                           observed: Inventory, parse: AddressParser) {
    && before.Keys == after.Keys
    && forall d | d in before ::
         if target == {d} && Claimable(before[d].stamp, host) then
           InProgress(before[d], after[d], observed, host, parse)
         else after[d] == before[d]
  }

  lemma ConfinedStep(target: set<int>, before: map<int, Device>, mid: map<int, Device>, after: map<int, Device>,
                     d: int, a: Attempt, host: HostId, observed: Inventory, parse: AddressParser)
    requires Confined(target, before, mid, host, observed, parse)
    requires target == {d} && d in mid && Claimable(mid[d].stamp, host) && Tried(a, mid[d], observed, Text(host), parse)
    requires after == mid[d := Left(a, observed)]
    ensures Confined(target, before, after, host, observed, parse) && Claimable(before[d].stamp, host)
  {
    hide Run, FreshRun, Script, Starts, Sound, StoredOnce, Distinct;
    AttemptKeepsProgress(before[d], mid[d], a, observed, host, parse);
  }

  lemma NoWrite(target: set<int>, before: map<int, Device>, after: map<int, Device>, host: HostId, observed: Inventory,
                parse: AddressParser)
    requires Confined(target, before, after, host, observed, parse)
    requires forall d | d in after && target == {d} :: !Claimable(after[d].stamp, host)
    ensures before == after
  {
    assert forall d | d in before :: after[d] == before[d];
  }

  lemma ConfinedStart(target: set<int>, devices: map<int, Device>, host: HostId, observed: Inventory,
                      parse: AddressParser)
    requires forall d | d in devices :: Sound(devices[d])
    ensures Confined(target, devices, devices, host, observed, parse)
  {
  }

  /** The single device carrying the snapshot's serial shows it, under the host's stamp. */
  ghost predicate Shows(devices: map<int, Device>, serials: map<int, string>, h: HostId, s: Snapshot,
                        parse: AddressParser) {
    && Distinct(s.observed, parse)
    && exists d | d in devices && Settled(devices[d], s.observed, Text(h), parse) ::
       Carriers(devices, serials, s.serial) == {d}
  }

  lemma NowShows(devices: map<int, Device>, serials: map<int, string>, h: HostId, s: Snapshot, parse: AddressParser,
                 d: int)
    requires Distinct(s.observed, parse) && d in devices && Settled(devices[d], s.observed, Text(h), parse)
    requires Carriers(devices, serials, s.serial) == {d}
    ensures Shows(devices, serials, h, s, parse)
  {
    hide Distinct, Settled, Text;
  }

  /** Only a claimable device was written, so every other host's device still shows its snapshot. */
  lemma OthersStillShow(before: map<int, Device>, after: map<int, Device>, serials: map<int, string>, target: set<int>,
                        h: HostId, s: Snapshot, host: HostId, observed: Inventory, parse: AddressParser)
    requires h != host && Confined(target, before, after, host, observed, parse) && Shows(before, serials, h, s, parse)
    ensures Shows(after, serials, h, s, parse)
  {
    hide InProgress, Distinct, Exact, PrimaryIsFirst, Wanted, Text;
    var d :| d in before && Settled(before[d], s.observed, Text(h), parse)
      && Carriers(before, serials, s.serial) == {d};
    if Text(h) == Text(host) {
      TextInjective(h, host);
    }
    assert !Claimable(before[d].stamp, host);
    assert after[d] == before[d] && Carriers(after, serials, s.serial) == Carriers(before, serials, s.serial);
  }

  /** Two inputs that break the hash. */
  ghost predicate Collide(sha256: seq<byte> -> string, x: seq<byte>, y: seq<byte>) {
    x != y && sha256(x) == sha256(y)
  }

  lemma EqualHashes(utf8: Encoder, sha256: seq<byte> -> string, s: Snapshot, t: Snapshot, host: HostId)
    requires Utf8Like(utf8) && NulFree(utf8, s.observed) && NulFree(utf8, t.observed)
    requires sha256(Preimage(utf8, s.serial, host, s.observed)) == sha256(Preimage(utf8, t.serial, host, t.observed))
    ensures s == t
            || Collide(sha256, Preimage(utf8, s.serial, host, s.observed), Preimage(utf8, t.serial, host, t.observed))
  {
    if Preimage(utf8, s.serial, host, s.observed) == Preimage(utf8, t.serial, host, t.observed) {
      PreimageInjective(utf8, s.serial, s.observed, t.serial, t.observed, host);
    }
  }

  /** Reconciling a device that already shows a distinct report changes nothing. */
  lemma SettledStays(a: Attempt, d: Device, observed: Inventory, host: string, parse: AddressParser)
    requires Tried(a, d, observed, host, parse) && Finished(a, observed)
    requires Settled(d, observed, host, parse) && Distinct(observed, parse)
    ensures Left(a, observed) == d
  {
    hide Run, FreshRun;
    RerunIsIdentity(a.c, a.current, a.ids, observed);
  }

  /** For a distinct report, a full reconcile changes nothing exactly if the device already shows it. */
  lemma IdentityIffSettled(a: Attempt, d: Device, observed: Inventory, host: string, parse: AddressParser)
    requires Tried(a, d, observed, host, parse) && Finished(a, observed)
    requires Distinct(observed, parse) && StoredOnce(d, Names(observed))
    ensures Left(a, observed) == d <==> Settled(d, observed, host, parse)
  {
    hide Run, FreshRun, Settled;
    SuccessSettles(a, d, observed, host, parse);
    if Settled(d, observed, host, parse) {
      SettledStays(a, d, observed, host, parse);
    }
  }

  /**
    The condition on errors is needed: an upsert that fails after its first write keeps
    the old cache entry, while the device no longer shows the cached report.
   */
  lemma StaleAfterError(d: Device, host: string, parse: AddressParser)
    requires d == Device(map[1 := "a"], map[], None, None, host)
    ensures Settled(d, [Interface("a", [])], host, parse)
    ensures exists a :: && Tried(a, d, [Interface("b", [])], host, parse)
                        && !Settled(Left(a, [Interface("b", [])]), [Interface("a", [])], host, parse)
  {
    hide Tried, Left, Settled;
    StartsSettled(d, host, parse);
    var a := OneWrite(d, host, parse);
    NotShown(Left(a, [Interface("b", [])]), host, parse);
  }

  lemma OneWrite(d: Device, host: string, parse: AddressParser) returns (a: Attempt)
    requires d == Device(map[1 := "a"], map[], None, None, host)
    ensures Tried(a, d, [Interface("b", [])], host, parse)
    ensures Left(a, [Interface("b", [])]).ifaces == map[1 := "a", 2 := "b"]
  {
    var next := [Interface("b", [])];
    var c := Context(d, map["a" := 1], map[], {"b"}, host, parse);
    var current: seq<NbInterface> := [NbInterface(1, "a", [])];
    a := Attempt(c, current, [2]);
    assert EnsureItems(next) == [EnsureIface("b")];
    assert Script(current, next)[0] == EnsureIface("b");
    assert current[0].id == 1;
  }

  lemma NotShown(d: Device, host: string, parse: AddressParser)
    requires d.ifaces == map[1 := "a", 2 := "b"]
    ensures !Settled(d, [Interface("a", [])], host, parse)
  {
    assert "b" !in Names([Interface("a", [])]) && d.ifaces[2] == "b";
  }

  lemma StartsSettled(d: Device, host: string, parse: AddressParser)
    requires d == Device(map[1 := "a"], map[], None, None, host)
    ensures Settled(d, [Interface("a", [])], host, parse)
  {
    var cached := [Interface("a", [])];
    assert cached[0].name in Names(cached) && 1 in d.ifaces;
    assert Wanted(parse, cached) == [];
  }

  ghost function HashOf(sha256: seq<byte> -> string, utf8: Encoder, s: Snapshot, host: HostId): string {
    sha256(Preimage(utf8, s.serial, host, s.observed))
  }

  /** Every cache entry is the hash of its snapshot, and every settled host's device shows it. */
  ghost predicate Cached(devices: map<int, Device>, serials: map<int, string>, sha256: seq<byte> -> string,
                         utf8: Encoder, parse: AddressParser, synced: map<HostId, string>,
                         source: map<HostId, Snapshot>, settled: set<HostId>) {
    && source.Keys == synced.Keys && settled <= synced.Keys
    && (forall h | h in synced :: synced[h] == HashOf(sha256, utf8, source[h], h))
    && (forall h | h in settled :: Shows(devices, serials, h, source[h], parse))
  }

  /** A success replaces the host's entry; it is settled if the device now shows the snapshot. */
  lemma Recorded(devices: map<int, Device>, serials: map<int, string>, sha256: seq<byte> -> string, utf8: Encoder,
                 parse: AddressParser, synced: map<HostId, string>, source: map<HostId, Snapshot>, settled: set<HostId>,
                 host: HostId, s: Snapshot)
    requires Cached(devices, serials, sha256, utf8, parse, synced, source, settled) && host !in settled
    ensures var synced', source' := synced[host := HashOf(sha256, utf8, s, host)], source[host := s];
      && Cached(devices, serials, sha256, utf8, parse, synced', source', settled)
      && (Shows(devices, serials, host, s, parse) ==>
            Cached(devices, serials, sha256, utf8, parse, synced', source', settled + {host}))
  {
    hide Shows, HashOf;
  }

  lemma StillCached(before: map<int, Device>, after: map<int, Device>, serials: map<int, string>,
                    sha256: seq<byte> -> string,
                    utf8: Encoder, parse: AddressParser, synced: map<HostId, string>, source: map<HostId, Snapshot>,
                    settled: set<HostId>, target: set<int>, host: HostId, observed: Inventory)
    requires Cached(before, serials, sha256, utf8, parse, synced, source, settled)
    requires Confined(target, before, after, host, observed, parse)
    ensures Cached(after, serials, sha256, utf8, parse, synced, source, settled - {host})
  {
    hide Shows, HashOf, Confined;
    forall h | h in settled - {host}
      ensures Shows(after, serials, h, source[h], parse)
    {
      OthersStillShow(before, after, serials, target, h, source[h], host, observed, parse);
    }
  }

  class NetboxInventorySink {
    const nb: NetboxDevices
    const utf8: Encoder
    const sha256: seq<byte> -> string
    const parse: AddressParser
    /** Per host, the hash of the last snapshot that was reconciled. */
    var synced: map<HostId, string>
    /** The snapshot behind each cache entry. */
    ghost var source: map<HostId, Snapshot>
    /** Hosts whose last write was a success, of a report without repetitions onto a device without doubled rows. */
    ghost var settled: set<HostId>

    ghost function ContentHash(s: Snapshot, host: HostId): string {
      HashOf(sha256, utf8, s, host)
    }

    ghost predicate Valid()
      reads this, nb
    {
      && (forall d | d in nb.devices :: Sound(nb.devices[d]))
      && Cached(nb.devices, nb.serials, sha256, utf8, parse, synced, source, settled)
    }

    constructor (nb: NetboxDevices, utf8: Encoder, sha256: seq<byte> -> string, parse: AddressParser)
      requires forall d | d in nb.devices :: Sound(nb.devices[d])
      ensures Valid() && this.nb == nb && this.utf8 == utf8 && this.sha256 == sha256 && this.parse == parse
      ensures synced == map[] && settled == {}
    {
      this.nb := nb;
      this.utf8 := utf8;
      this.sha256 := sha256;
      this.parse := parse;
      synced, source, settled := map[], map[], {};
    }

    /** Match on the serial and reconcile the single match; never writes a device claimed by another host. */
    method MatchAndReconcile(serial: string, host: HostId, observed: Inventory)
      returns (r: Result<UpsertOutcome, PortError>, ghost d: int, ghost a: Attempt)
      requires forall d | d in nb.devices :: Sound(nb.devices[d])
      modifies nb`devices, nb`faults
      ensures nb.faults == old(nb.faults) + (if r.Err? then 1 else 0)
      ensures nb.devices.Keys == old(nb.devices.Keys)
      ensures nb.devices == old(nb.devices)
              || (&& d in nb.devices && nb.Carrying(serial) == {d} && Claimable(old(nb.devices)[d].stamp, host)
                  && nb.devices == old(nb.devices)[d := nb.devices[d]]
                  && Tried(a, old(nb.devices)[d], observed, Text(host), parse) && nb.devices[d] == Left(a, observed))
      ensures r == Ok(Updated) ==>
                && d in nb.devices && nb.Carrying(serial) == {d} && Claimable(old(nb.devices)[d].stamp, host)
                && nb.devices == old(nb.devices)[d := nb.devices[d]]
                && Tried(a, old(nb.devices)[d], observed, Text(host), parse) && nb.devices[d] == Left(a, observed)
                && Finished(a, observed)
      ensures r.Ok? && r != Ok(Updated) ==> nb.devices == old(nb.devices)
      ensures r == Ok(HostCollision) ==>
                d in nb.devices && nb.Carrying(serial) == {d} && !Claimable(nb.devices[d].stamp, host)
      ensures r == Ok(Unmatched) ==> nb.Carrying(serial) == {}
      ensures r.Ok? && r.value.AmbiguousMatch? ==> |nb.Carrying(serial)| == r.value.count > 1
      ensures r.Ok? ==> !r.value.Unchanged? && !r.value.SkippedNoSerial?
    {
      a := Attempt(Context(Device(map[], map[], None, None, ""), map[], map[], {}, "", parse), [], []);
      d := 0;
      var m := nb.MatchBySerial(serial);
      if m.Err? {
        nb.faults := nb.faults + 1;
        return Err(m.error), d, a;
      }
      match m.value
      case NoMatch => r := Ok(Unmatched);
      case Many(count) => r := Ok(AmbiguousMatch(count));
      case One(id, stamp) =>
        d := id;
        assert id in nb.Carrying(serial);
        if stamp != "" && stamp != Text(host) {
          return Ok(HostCollision), d, a;
        }
        var e;
        e, a := Reconcile(nb, id, Text(host), observed, parse);
        assert nb.Carrying(serial) == old(nb.Carrying(serial));
        r := if e.Some? then Err(e.value) else Ok(Updated);
    }

    /** The retry loop around match-and-reconcile. */
    method Retry(serial: string, host: HostId, observed: Inventory)
      returns (r: Result<UpsertOutcome, PortError>, attempts: nat, ghost d: int, ghost met: seq<PortError>)
      requires forall d | d in nb.devices :: Sound(nb.devices[d])
      modifies nb`devices, nb`faults
      ensures Confined(nb.Carrying(serial), old(nb.devices), nb.devices, host, observed, parse)
      ensures nb.devices.Keys == old(nb.devices.Keys) && nb.Carrying(serial) == old(nb.Carrying(serial))
      ensures forall d | d in nb.devices :: Sound(nb.devices[d])
      ensures 1 <= attempts && nb.faults == old(nb.faults) + (if r.Err? then attempts else attempts - 1)
      ensures Persisted(r, attempts, met)
      ensures r.Ok? ==> !r.value.Unchanged? && !r.value.SkippedNoSerial?
      ensures r == Ok(Unmatched) ==> nb.Carrying(serial) == {}
      ensures r.Ok? && r.value.AmbiguousMatch? ==> |nb.Carrying(serial)| == r.value.count > 1
      ensures r == Ok(HostCollision) ==>
                d in nb.devices && nb.Carrying(serial) == {d} && !Claimable(old(nb.devices)[d].stamp, host)
      ensures r == Ok(Updated) ==>
                && d in nb.devices && nb.Carrying(serial) == {d} && Claimable(old(nb.devices)[d].stamp, host)
                && (Distinct(observed, parse) && StoredOnce(old(nb.devices)[d], Names(observed)) ==>
                      Settled(nb.devices[d], observed, Text(host), parse))
      ensures r.Ok? && r != Ok(Updated) ==> nb.devices == old(nb.devices)
    {
      hide Run, FreshRun, Script, Starts, StoredOnce, Distinct, Settled, Sound, Text;
      ghost var target, before := nb.Carrying(serial), nb.devices;
      attempts, met := 0, [];
      while true
        invariant nb.Carrying(serial) == target && Confined(target, before, nb.devices, host, observed, parse)
        invariant 0 <= attempts <= MAX_TRANSIENT_RETRIES && nb.faults == old(nb.faults) + attempts
        invariant |met| == attempts && forall i | 0 <= i < |met| :: met[i].Backend? || met[i].Transport?
        invariant forall d | d in nb.devices :: Sound(nb.devices[d])
        decreases MAX_TRANSIENT_RETRIES - attempts
      {
        ghost var mid := nb.devices;
        ghost var a;
        r, d, a := MatchAndReconcile(serial, host, observed);
        assert nb.Carrying(serial) == target;
        if nb.devices != mid || r == Ok(Updated) {
          ConfinedStep(target, before, mid, nb.devices, d, a, host, observed, parse);
          if r == Ok(Updated) {
            SettledIfOnce(before[d], mid[d], a, host, observed, parse);
          }
        }
        attempts := attempts + 1;
        if r.Ok? {
          if r != Ok(Updated) {
            NoWrite(target, before, nb.devices, host, observed, parse);
          }
          return;
        }
        met := met + [r.error];
        if !IsTransient(r.error) || attempts > MAX_TRANSIENT_RETRIES {
          return;
        }
      }
    }

    /** A success replaces the host's cache entry; an error leaves the old one behind. */
    method MarkSynced(r: Result<UpsertOutcome, PortError>, host: HostId, hash: string, ghost s: Snapshot,
                      ghost once: bool)
      requires forall d | d in nb.devices :: Sound(nb.devices[d])
      requires Cached(nb.devices, nb.serials, sha256, utf8, parse, synced, source, settled - {host})
      requires r.Ok? && r != Ok(Updated) ==> Valid()
      requires r == Ok(Updated) && once ==> Shows(nb.devices, nb.serials, host, s, parse)
      requires hash == ContentHash(s, host)
      modifies this`synced, this`source, this`settled
      ensures Valid()
      ensures if r == Ok(Updated)
              then synced == old(synced)[host := hash] && source == old(source)[host := s]
                   && settled == if once then old(settled) + {host} else old(settled) - {host}
              else synced == old(synced) && source == old(source)
                   && settled == if r.Err? then old(settled) - {host} else old(settled)
    {
      hide Sound, Cached, Shows, HashOf;
      if r == Ok(Updated) {
        Recorded(nb.devices, nb.serials, sha256, utf8, parse, synced, source, settled - {host}, host, s);
        synced := synced[host := hash];
        source := source[host := s];
        assert (settled - {host}) + {host} == settled + {host};
        settled := if once then settled + {host} else settled - {host};
      } else if r.Err? {
        settled := settled - {host};
      }
    }

    /**
      A report for one host.  At most four attempts, each but the last of which met one
      failing call; a transient error is returned only after the fourth.  Nothing is
      written unless exactly one device carries the serial and it is unclaimed or the
      host's own, so a host's own stamp never reads as a collision.  A success over a
      distinct report settles the device; an error keeps the old cache entry.
     */
    method Upsert(host: HostId, dmi: Option<string>, observed: Inventory)
      returns (r: Result<UpsertOutcome, PortError>, attempts: nat, ghost met: seq<PortError>)
      requires Valid()
      modifies this`synced, this`source, this`settled, nb`devices, nb`faults
      ensures Valid()
      ensures Persisted(r, attempts, met)
      ensures attempts == 0 <==> r == Ok(SkippedNoSerial) || r == Ok(Unchanged)
      ensures nb.faults == old(nb.faults) + (if r.Ok? && attempts > 0 then attempts - 1 else attempts)
      ensures r == Ok(SkippedNoSerial) <==> UsableSerial(dmi).None?
      ensures r == Ok(SkippedNoSerial) <==> dmi.None? || AllSpace(dmi.value)
      ensures r.Ok? && r != Ok(Updated) ==> nb.devices == old(nb.devices)
      ensures UsableSerial(dmi).Some? ==>
                Answers(UsableSerial(dmi).value, host, observed, r, old(synced), old(nb.devices))
      ensures r != Ok(Updated) ==> synced == old(synced) && source == old(source)
      ensures r.Ok? && r != Ok(Updated) ==> settled == old(settled)
      ensures r.Err? ==> settled == old(settled) - {host}
    {
      hide Run, FreshRun, Script, Starts, StoredOnce, Distinct, Sound, Confined, Settled, Text;
      hide UsableSerial, AllSpace, Preimage, IsTransient, Shows, Cached, Names, Carriers, InterfaceBytes;
      attempts, met := 0, [];
      var serial := UsableSerial(dmi);
      ghost var a, b := UsableSerialIs(dmi);
      if serial.None? {
        return Ok(SkippedNoSerial), attempts, met;
      }
      var buf := ContentBuffer(utf8, serial.value, host, observed);
      var hash := sha256(buf);
      ghost var s := Snapshot(serial.value, observed);
      if host in synced && synced[host] == hash {
        ConfinedStart(nb.Carrying(serial.value), nb.devices, host, observed, parse);
        return Ok(Unchanged), attempts, met;
      }
      ghost var d;
      ghost var before := nb.devices;
      r, attempts, d, met := Retry(serial.value, host, observed);
      StillCached(before, nb.devices, nb.serials, sha256, utf8, parse, synced, source, settled,
                  nb.Carrying(serial.value), host, observed);
      ghost var once := r == Ok(Updated) && Distinct(observed, parse) && StoredOnce(before[d], Names(observed));
      if once {
        NowShows(nb.devices, nb.serials, host, s, parse, d);
      }
      MarkSynced(r, host, hash, s, once);
    }

    /** What the answer to a report with a usable serial says about the devices before and after it. */
    ghost predicate Answers(serial: string, host: HostId, observed: Inventory, r: Result<UpsertOutcome, PortError>,
                            cache: map<HostId, string>, before: map<int, Device>)
      reads this, nb
    {
      var s, target := Snapshot(serial, observed), Carriers(before, nb.serials, serial);
      && Confined(target, before, nb.devices, host, observed, parse)
      && (r == Ok(Unchanged) <==> host in cache && cache[host] == ContentHash(s, host))
      && (r == Ok(Unmatched) ==> target == {})
      && (r.Ok? && r.value.AmbiguousMatch? ==> |target| == r.value.count > 1)
      && (r == Ok(HostCollision) ==>
            exists d | d in before && before[d].stamp != "" && before[d].stamp != Text(host) :: target == {d})
      && (r == Ok(Updated) ==>
            && synced == cache[host := ContentHash(s, host)] && host in source && source[host] == s
            && exists d | d in before && d in nb.devices && (before[d].stamp == "" || before[d].stamp == Text(host)) ::
                 && target == {d}
                 && (host in settled <==> Distinct(observed, parse) && StoredOnce(before[d], Names(observed)))
                 && (host in settled ==> Settled(nb.devices[d], observed, Text(host), parse)))
    }
  }

  /**
    When a host's entry is settled and the report hashes to it, then reconciling the
    report in full would leave the device as it is, unless the report and the cached one
    are themselves a collision of the hash.
   */
  lemma UnchangedIsIdentity(sink: NetboxInventorySink, host: HostId, s: Snapshot, d: int, a: Attempt)
    requires sink.Valid() && host in sink.settled && sink.synced[host] == sink.ContentHash(s, host)
    requires Utf8Like(sink.utf8) && NulFree(sink.utf8, s.observed) && NulFree(sink.utf8, sink.source[host].observed)
    requires d in sink.nb.devices && sink.nb.Carrying(s.serial) == {d}
    requires Tried(a, sink.nb.devices[d], s.observed, Text(host), sink.parse) && Finished(a, s.observed)
    ensures var cached := sink.source[host];
      Left(a, s.observed) == sink.nb.devices[d]
      || Collide(sink.sha256, Preimage(sink.utf8, cached.serial, host, cached.observed),
                 Preimage(sink.utf8, s.serial, host, s.observed))
  {
    hide Run, FreshRun, Script, Starts, Distinct, Sound, Settled, Text, Preimage, NulFree;
    EqualHashes(sink.utf8, sink.sha256, sink.source[host], s, host);
    if sink.source[host] == s {
      SettledStays(a, sink.nb.devices[d], s.observed, Text(host), sink.parse);
    }
  }

  /**
    An upsert that fails keeps the old entry, so a report that is still cached is answered
    `Unchanged` right after it, whatever the failed one left on the device.
   */
  method CachedAfterError(sink: NetboxInventorySink, host: HostId, dmi: Option<string>, cached: Inventory,
                          next: Inventory)
    returns (failed: Result<UpsertOutcome, PortError>, answer: Result<UpsertOutcome, PortError>,
             ghost left: map<int, Device>)
    requires sink.Valid() && UsableSerial(dmi).Some? && host in sink.synced
    requires sink.synced[host] == sink.ContentHash(Snapshot(UsableSerial(dmi).value, cached), host)
    modifies sink`synced, sink`source, sink`settled, sink.nb`devices, sink.nb`faults
    ensures failed.Err? ==> answer == Ok(Unchanged) && sink.nb.devices == left && host !in sink.settled
  {
    var attempts;
    ghost var met;
    failed, attempts, met := sink.Upsert(host, dmi, next);
    left := sink.nb.devices;
    answer := failed;
    if failed.Err? {
      answer, attempts, met := sink.Upsert(host, dmi, cached);
    }
  }
}
