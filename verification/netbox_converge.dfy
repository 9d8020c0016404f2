/** Row ids and primaries after a successful reconcile, and when a second run writes nothing. */
module NetboxConverge {
  import opened Wrappers
  import opened NetboxModel
  import opened NetboxEnsure
  import opened NetboxRuns
  import opened NetboxExact

  // --- Primaries and row ids ---

  /** The index of the first wanted pair of the given family. */
  ghost function FirstWanted(parse: AddressParser, wanted: seq<(string, string)>, v4: bool): (i: Option<nat>)
    ensures i.Some? ==> i.value < |wanted| && IsIpv4Cidr(parse, wanted[i.value].1) == v4
    ensures forall j | 0 <= j < (if i.Some? then i.value else |wanted|) :: IsIpv4Cidr(parse, wanted[j].1) != v4
  {
    if wanted == [] then None
    else
      var n := |wanted| - 1;
      var rest := FirstWanted(parse, wanted[..n], v4);
      if rest.Some? || IsIpv4Cidr(parse, wanted[n].1) != v4 then rest else Some(n)
  }

  lemma {:induction false} FirstPlacedIsFirstWanted(c: Context, placed: seq<Placed>, v4: bool)
    ensures var i := FirstWanted(c.parse, Pairs(placed), v4);
      FirstPlaced(c, placed, v4) == if i.Some? then Some(placed[i.value].ip) else None
  {
    if placed != [] {
      var n := |placed| - 1;
      assert Pairs(placed)[..n] == Pairs(placed[..n]);
      FirstPlacedIsFirstWanted(c, placed[..n], v4);
    }
  }

  /** `primary` is the row of the first wanted address of its family, or absent if there is none. */
  ghost predicate PrimaryIsFirst(d: Device, parse: AddressParser, wanted: seq<(string, string)>, v4: bool,
                                 primary: Option<RowId>) {
    var i := FirstWanted(parse, wanted, v4);
    && (primary.Some? <==> i.Some?)
    && (primary.Some? ==> primary.value in d.ips && d.ips[primary.value].address == wanted[i.value].1)
  }

  /** Stored interfaces that are observed, and stored addresses that are wanted, keep a stored row. */
  ghost predicate KeepsIds(d0: Device, d: Device, names: set<string>, wanted: seq<(string, string)>) {
    && (forall r | r in d0.ifaces && d0.ifaces[r] in names :: r in d.ifaces && d.ifaces[r] == d0.ifaces[r])
    && (forall i | 0 <= i < |wanted| && StoredAddress(d0, wanted[i].1) ::
          exists ip :: ip in d0.ips && d0.ips[ip].address == wanted[i].1
                       && ip in d.ips && d.ips[ip].address == wanted[i].1)
    && (forall ip | ip in d0.ips && ip in d.ips :: d.ips[ip].address == d0.ips[ip].address)
  }

  lemma PrimariesAndIds(c: Context, current: seq<NbInterface>, observed: Inventory, ids: seq<RowId>)
    requires Starts(c, current, observed)
    requires |ids| == |Script(current, observed)| && FreshRun(c, Script(current, observed), ids)
    ensures var d := Run(c, Script(current, observed), ids).dev;
      && PrimaryIsFirst(d, c.parse, Wanted(c.parse, observed), true, d.primary4)
      && PrimaryIsFirst(d, c.parse, Wanted(c.parse, observed), false, d.primary6)
      && d.stamp == c.host
      && KeepsIds(c.base, d, Names(observed), Wanted(c.parse, observed))
  {
    var e := Completed(c, current, observed, ids);
    assert Answers(c, e, observed);
    OutcomePrimary(c, e, observed, true);
    OutcomePrimary(c, e, observed, false);
    OutcomeKeepsIds(c, e, observed);
  }

  lemma OutcomePrimary(c: Context, e: State, observed: Inventory, v4: bool)
    requires Answers(c, e, observed)
    ensures PrimaryIsFirst(Outcome(c, e), c.parse, Wanted(c.parse, observed), v4, FirstPlaced(c, e.placed, v4))
  {
    FirstPlacedIsFirstWanted(c, e.placed, v4);
    var i := FirstWanted(c.parse, Pairs(e.placed), v4);
    if i.Some? {
      PlacedAt(c, e, observed, i.value);
    }
  }

  lemma OutcomeKeepsIds(c: Context, e: State, observed: Inventory)
    requires Answers(c, e, observed)
    ensures KeepsIds(c.base, Outcome(c, e), Names(observed), Wanted(c.parse, observed))
  {
    var wanted, d := Wanted(c.parse, observed), Outcome(c, e);
    forall i | 0 <= i < |wanted| && StoredAddress(c.base, wanted[i].1)
      ensures exists ip :: ip in c.base.ips && c.base.ips[ip].address == wanted[i].1
                           && ip in d.ips && d.ips[ip].address == wanted[i].1
    {
      StoredIsIndexed(c, "", wanted[i].1);
      PlacedAt(c, e, observed, i);
      var ip := e.placed[i].ip;
      assert ip in c.base.ips && c.base.ips[ip].address == wanted[i].1 && ip in d.ips;
    }
  }

  /** A well-formed address is IPv4 as a CIDR exactly when it parses as IPv4. */
  lemma CidrFamily(parse: AddressParser, ip: string)
    requires ParsesBareAddresses(parse) && ToCidr(parse, ip).Some?
    ensures IsIpv4Cidr(parse, ToCidr(parse, ip).value) <==> parse(ip) == Some(V4)
  {
    BeforeSlashOf(ip, if parse(ip) == Some(V4) then "/32" else "/128");
  }

  lemma {:induction false} BeforeSlashOf(s: string, suffix: string)
    requires '/' !in s && suffix != [] && suffix[0] == '/'
    ensures BeforeSlash(s + suffix) == s
  {
    if s == [] {
      assert s + suffix == suffix;
    } else {
      assert (s + suffix)[1..] == s[1..] + suffix;
      BeforeSlashOf(s[1..], suffix);
    }
  }

  // --- A second run ---

  /** No address is wanted on two different interface names. */
  ghost predicate NoSharedAddress(wanted: seq<(string, string)>) {
    forall i, j | 0 <= i < j < |wanted| && wanted[i].1 == wanted[j].1 :: wanted[i].0 == wanted[j].0
  }

  /** Phases 1 and 2 write nothing exactly when every row is where it should be. */
  ghost predicate QuietSoFar(c: Context, st: State) {
    st.ops == [] <==>
      (&& (forall i | 0 <= i < |st.rows| :: st.rows[i].0 in c.byName)
       && (forall i | 0 <= i < |st.placed| ::
             st.placed[i].cidr in c.existing && c.existing[st.placed[i].cidr].1 == st.placed[i].row))
  }

  lemma QuietStep(c: Context, st: State, item: Item, id: RowId)
    requires QuietSoFar(c, st) && (item.EnsureIface? || item.EnsureIp?)
    ensures QuietSoFar(c, Step(c, st, item, id))
  {
    var st' := Step(c, st, item, id);
    assert forall i | 0 <= i < |st.rows| :: st'.rows[i] == st.rows[i];
    assert forall i | 0 <= i < |st.placed| :: st'.placed[i] == st.placed[i];
    if item.EnsureIface? {
      assert st'.rows[|st.rows|].0 == item.name;
    } else if ToCidr(c.parse, item.ip).Some? {
      assert st'.placed[|st.placed|].cidr == ToCidr(c.parse, item.ip).value;
    }
  }

  lemma {:induction false} QuietRun(c: Context, script: seq<Item>, ids: seq<RowId>)
    requires |ids| <= |script| && forall i | 0 <= i < |ids| :: script[i].EnsureIface? || script[i].EnsureIp?
    ensures QuietSoFar(c, Run(c, script, ids))
    decreases |ids|
  {
    if ids != [] {
      var k := |ids| - 1;
      QuietRun(c, script, ids[..k]);
      QuietStep(c, Run(c, script, ids[..k]), script[k], ids[k]);
    }
  }

  lemma StepOps(c: Context, st: State, item: Item, id: RowId)
    ensures var w := Write(c, st, item, id);
      Step(c, st, item, id).ops == if w.Some? then st.ops + [w.value] else st.ops
  {
  }

  /** Phase 4 writes nothing exactly when it has nothing to drop, and otherwise only adds writes. */
  lemma {:induction false} DropOps(c: Context, script: seq<Item>, ids: seq<RowId>, k: nat)
    requires k <= |ids| <= |script|
    requires forall i | k <= i < |ids| :: script[i].DropIp? || script[i].DropIface?
    ensures var st0, st := Run(c, script, ids[..k]), Run(c, script, ids);
      && st.kept == st0.kept && |st0.ops| <= |st.ops|
      && (Nothing(c, script, k, |ids|, st0.kept) ==> st.ops == st0.ops)
      && (!Nothing(c, script, k, |ids|, st0.kept) ==> |st0.ops| < |st.ops|)
    decreases |ids|
  {
    hide Step;
    if |ids| == k {
      assert ids[..k] == ids;
    } else {
      var m := |ids| - 1;
      assert ids[..m][..k] == ids[..k];
      DropOps(c, script, ids[..m], k);
      StepOps(c, Run(c, script, ids[..m]), script[m], ids[m]);
      StepKeeps(c, Run(c, script, ids[..m]), script[m], ids[m]);
    }
  }

  lemma StepKeeps(c: Context, st: State, item: Item, id: RowId)
    requires item.DropIp? || item.DropIface?
    ensures Step(c, st, item, id).kept == st.kept
  {
  }

  ghost predicate Nothing(c: Context, script: seq<Item>, k: nat, m: nat, kept: set<RowId>)
    requires k <= m <= |script|
  {
    && (forall i | k <= i < m && script[i].DropIp? :: script[i].ipId in kept)
    && (forall i | k <= i < m && script[i].DropIface? :: script[i].name in c.desired)
  }

  lemma {:induction false} NoOpsNoChange(c: Context, script: seq<Item>, ids: seq<RowId>)
    requires |ids| <= |script| && Run(c, script, ids).ops == []
    ensures Run(c, script, ids).dev == c.base
    decreases |ids|
  {
    if ids != [] {
      var k := |ids| - 1;
      StepOps(c, Run(c, script, ids[..k]), script[k], ids[k]);
      NoOpsNoChange(c, script, ids[..k]);
    }
  }

  /** On an exact device with no shared address, every address has one row and it is where it is wanted. */
  lemma ExactRow(d: Device, names: set<string>, wanted: seq<(string, string)>, p: RowId, i: nat)
    requires Exact(d, names, wanted) && NoSharedAddress(wanted)
    requires p in d.ips && i < |wanted| && wanted[i].1 == d.ips[p].address
    ensures d.ips[p].iface in d.ifaces && d.ifaces[d.ips[p].iface] == wanted[i].0
    ensures forall q | q in d.ips && d.ips[q].address == d.ips[p].address :: q == p
  {
    var pair := (d.ifaces[d.ips[p].iface], d.ips[p].address);
    var j :| 0 <= j < |wanted| && wanted[j] == pair;
    forall q | q in d.ips && d.ips[q].address == d.ips[p].address
      ensures q == p
    {
      var k :| 0 <= k < |wanted| && wanted[k] == (d.ifaces[d.ips[q].iface], d.ips[q].address);
      assert wanted[k].0 == wanted[j].0;
    }
  }

  lemma ExactPlaced(c: Context, e: State, observed: Inventory, i: nat)
    requires Answers(c, e, observed) && i < |e.placed|
    requires Exact(c.base, Names(observed), Wanted(c.parse, observed))
    ensures e.placed[i].cidr in c.existing && e.placed[i].row in c.base.ifaces
    ensures c.base.ifaces[e.placed[i].row] == e.placed[i].name
    ensures NoSharedAddress(Wanted(c.parse, observed)) ==> c.existing[e.placed[i].cidr].1 == e.placed[i].row
  {
    var wanted, p := Wanted(c.parse, observed), e.placed[i];
    assert |e.placed| == |Pairs(e.placed)| == |wanted|;
    PlacedAt(c, e, observed, i);
    assert HasRow(c.base, wanted[i]) by { assert wanted[i] in wanted; }
    StoredIsIndexed(c, p.name, p.cidr);
    var q :| q in c.base.ips && c.base.ips[q].address == p.cidr && c.base.ips[q].iface in c.base.ifaces
             && c.base.ifaces[c.base.ips[q].iface] == p.name;
    var j :| 0 <= j < |e.rows| && e.rows[j] == (p.name, p.row);
    if NoSharedAddress(wanted) {
      ExactRow(c.base, Names(observed), wanted, c.existing[p.cidr].0, i);
    }
  }

  /** Every stored IP is kept when the device is already exact and no address is shared. */
  lemma ExactKept(c: Context, e: State, observed: Inventory, ip: RowId)
    requires Answers(c, e, observed) && ip in c.base.ips
    requires Exact(c.base, Names(observed), Wanted(c.parse, observed)) && NoSharedAddress(Wanted(c.parse, observed))
    ensures ip in e.kept
  {
    var wanted := Wanted(c.parse, observed);
    var i :| 0 <= i < |wanted| && wanted[i] == (c.base.ifaces[c.base.ips[ip].iface], c.base.ips[ip].address);
    PlacedAt(c, e, observed, i);
    ExactPlaced(c, e, observed, i);
    ExactRow(c.base, Names(observed), wanted, ip, i);
    assert e.placed[i].ip == c.existing[wanted[i].1].0;
  }

  lemma QuietIsUnshared(c: Context, e: State, observed: Inventory)
    requires Answers(c, e, observed) && QuietSoFar(c, e)
    requires Exact(c.base, Names(observed), Wanted(c.parse, observed))
    ensures e.ops == [] <==> NoSharedAddress(Wanted(c.parse, observed))
  {
    var wanted := Wanted(c.parse, observed);
    if NoSharedAddress(wanted) {
      forall i | 0 <= i < |e.rows|
        ensures e.rows[i].0 in c.byName
      {
        assert RowNames(e.rows)[i] == ObservedNames(observed)[i] == observed[i].name;
        assert observed[i].name in Names(observed);
        StoredIsIndexed(c, observed[i].name, "");
      }
      forall i | 0 <= i < |e.placed|
        ensures e.placed[i].cidr in c.existing && c.existing[e.placed[i].cidr].1 == e.placed[i].row
      {
        ExactPlaced(c, e, observed, i);
      }
    }
    if e.ops == [] {
      forall i, j | 0 <= i < j < |wanted| && wanted[i].1 == wanted[j].1
        ensures wanted[i].0 == wanted[j].0
      {
        PlacedAt(c, e, observed, i);
        PlacedAt(c, e, observed, j);
      }
    }
  }

  /** The writes of a completed run: those of phases 1 and 2, the finalize, then the drops. */
  lemma RunOps(c: Context, script: seq<Item>, n: nat, g: nat, current: seq<NbInterface>, ids: seq<RowId>)
    requires Shape(script, n, g, current) && |ids| == |script|
    ensures var e, st := Run(c, script, ids[..n]), Run(c, script, ids);
      var quiet := [FinalizeDevice(e.p4, e.p6, c.host)];
      st.ops == quiet <==> e.ops == [] && Nothing(c, script, n + 1, |ids|, e.kept)
  {
    var e := Run(c, script, ids[..n]);
    assert ids[..n + 1][..n] == ids[..n];
    StepFinalize(c, e, ids[n]);
    DropOps(c, script, ids, n + 1);
  }

  lemma NothingToDrop(c: Context, script: seq<Item>, n: nat, g: nat, current: seq<NbInterface>, kept: set<RowId>)
    requires Shape(script, n, g, current) && DropsListed(script, n, g, current) && Lists(current, c.base)
    requires (forall ip | ip in c.base.ips :: ip in kept)
             && forall r | r in c.base.ifaces :: c.base.ifaces[r] in c.desired
    ensures Nothing(c, script, n + 1, |script|, kept)
  {
    forall i | n + 1 <= i < |script| && script[i].DropIp?
      ensures script[i].ipId in kept
    {
      assert script[n + 1..g][i - n - 1] == DropIp(script[i].ipId);
      var a, b :| 0 <= a < |current| && 0 <= b < |current[a].ips| && current[a].ips[b].0 == script[i].ipId;
      assert current[a].ips[b] in current[a].ips;
    }
    forall i | n + 1 <= i < |script| && script[i].DropIface?
      ensures script[i].name in c.desired
    {
      assert i >= g;
      assert current[i - g].id in c.base.ifaces;
    }
  }

  /**
    On a device that is already exact, a run creates, moves and deletes nothing if
    and only if no address is wanted on two interfaces; it then changes at most
    the primaries and the stamp.
   */
  lemma QuietIff(c: Context, current: seq<NbInterface>, observed: Inventory, ids: seq<RowId>)
    requires Starts(c, current, observed)
    requires |ids| == |Script(current, observed)| && FreshRun(c, Script(current, observed), ids)
    requires Exact(c.base, Names(observed), Wanted(c.parse, observed))
    ensures var st := Run(c, Script(current, observed), ids);
      && (NoSharedAddress(Wanted(c.parse, observed))
          <==> st.ops == [FinalizeDevice(st.dev.primary4, st.dev.primary6, c.host)])
      && (NoSharedAddress(Wanted(c.parse, observed))
          ==> st.dev.ifaces == c.base.ifaces && st.dev.ips == c.base.ips)
  {
    var n, g := ScriptShape(current, observed);
    var script := Script(current, observed);
    var e := CompletedFrom(c, script, n, g, current, observed, ids);
    QuietEnsure(c, script, n, observed, ids, e);
    if NoSharedAddress(Wanted(c.parse, observed)) {
      AllKept(c, e, observed);
      NothingToDrop(c, script, n, g, current, e.kept);
      NoOpsNoChange(c, script, ids[..n]);
      OutcomeOfQuiet(c, e);
    }
    RunOps(c, script, n, g, current, ids);
  }

  lemma QuietEnsure(c: Context, script: seq<Item>, n: nat, observed: Inventory, ids: seq<RowId>, e: State)
    requires n == |EnsureItems(observed)| <= |ids| <= |script| && script[..n] == EnsureItems(observed)
    requires e == Run(c, script, ids[..n]) && Answers(c, e, observed)
    requires Exact(c.base, Names(observed), Wanted(c.parse, observed))
    ensures e.ops == [] <==> NoSharedAddress(Wanted(c.parse, observed))
  {
    EnsureItemsEnsure(observed);
    assert forall i | 0 <= i < n :: script[i] == EnsureItems(observed)[i];
    QuietRun(c, script, ids[..n]);
    QuietIsUnshared(c, e, observed);
  }

  lemma AllKept(c: Context, e: State, observed: Inventory)
    requires Answers(c, e, observed)
    requires Exact(c.base, Names(observed), Wanted(c.parse, observed)) && NoSharedAddress(Wanted(c.parse, observed))
    ensures forall ip | ip in c.base.ips :: ip in e.kept
    ensures forall r | r in c.base.ifaces :: c.base.ifaces[r] in c.desired
  {
    forall ip | ip in c.base.ips
      ensures ip in e.kept
    {
      ExactKept(c, e, observed, ip);
    }
  }

  lemma OutcomeOfQuiet(c: Context, e: State)
    requires e.dev == c.base && forall ip | ip in c.base.ips :: ip in e.kept
    requires forall r | r in c.base.ifaces :: c.base.ifaces[r] in c.desired
    ensures Outcome(c, e).ifaces == c.base.ifaces && Outcome(c, e).ips == c.base.ips
  {
    var d := Outcome(c, e);
    assert forall r | r in c.base.ifaces :: r in d.ifaces && d.ifaces[r] == c.base.ifaces[r];
    assert forall ip | ip in c.base.ips :: ip in d.ips && d.ips[ip] == c.base.ips[ip];
    assert forall r | r in d.ifaces :: r in c.base.ifaces;
    assert forall ip | ip in d.ips :: ip in c.base.ips;
  }

  /** Reconciling the same report twice: the second run is the identity on the device. */
  lemma SecondRunIsIdentity(c1: Context, current1: seq<NbInterface>, ids1: seq<RowId>,
                            c2: Context, current2: seq<NbInterface>, ids2: seq<RowId>, observed: Inventory)
    requires Starts(c1, current1, observed) && Starts(c2, current2, observed)
    requires |ids1| == |Script(current1, observed)| && FreshRun(c1, Script(current1, observed), ids1)
    requires |ids2| == |Script(current2, observed)| && FreshRun(c2, Script(current2, observed), ids2)
    requires c2.base == Run(c1, Script(current1, observed), ids1).dev && c2.host == c1.host && c2.parse == c1.parse
    requires OneRowPerName(c1.base, observed) && OneRowPerAddress(c1.base, Wanted(c1.parse, observed))
    requires NoSharedAddress(Wanted(c1.parse, observed))
    ensures Run(c2, Script(current2, observed), ids2).dev == c2.base
    ensures Run(c2, Script(current2, observed), ids2).ops
            == [FinalizeDevice(c2.base.primary4, c2.base.primary6, c2.host)]
  {
    hide Run, FreshRun, Script, Wanted, FirstWanted, FirstPlaced;
    ExactIff(c1, current1, observed, ids1);
    PrimariesAndIds(c1, current1, observed, ids1);
    RerunIsIdentity(c2, current2, ids2, observed);
  }

  /** A run over a device that already shows the report, with its primaries and stamp, is the identity. */
  lemma RerunIsIdentity(c: Context, current: seq<NbInterface>, ids: seq<RowId>, observed: Inventory)
    requires Starts(c, current, observed)
    requires |ids| == |Script(current, observed)| && FreshRun(c, Script(current, observed), ids)
    requires Settled(c.base, observed, c.host, c.parse) && NoSharedAddress(Wanted(c.parse, observed))
    ensures Run(c, Script(current, observed), ids).dev == c.base
    ensures Run(c, Script(current, observed), ids).ops
            == [FinalizeDevice(c.base.primary4, c.base.primary6, c.host)]
  {
    QuietIff(c, current, observed, ids);
    PrimariesAndIds(c, current, observed, ids);
    SameDevice(c.base, Run(c, Script(current, observed), ids).dev, Names(observed), c.parse, Wanted(c.parse, observed));
  }

  /** The device shows exactly the report: rows, primaries and stamp. */
  ghost predicate Settled(d: Device, observed: Inventory, host: string, parse: AddressParser) {
    var wanted := Wanted(parse, observed);
    && Exact(d, Names(observed), wanted)
    && PrimaryIsFirst(d, parse, wanted, true, d.primary4)
    && PrimaryIsFirst(d, parse, wanted, false, d.primary6)
    && d.stamp == host
  }

  lemma SameDevice(d: Device, d2: Device, names: set<string>, parse: AddressParser, wanted: seq<(string, string)>)
    requires Exact(d, names, wanted) && NoSharedAddress(wanted)
    requires d2.ips == d.ips && d2.ifaces == d.ifaces && d2.stamp == d.stamp
    requires PrimaryIsFirst(d, parse, wanted, true, d.primary4) && PrimaryIsFirst(d, parse, wanted, false, d.primary6)
    requires PrimaryIsFirst(d2, parse, wanted, true, d2.primary4)
             && PrimaryIsFirst(d2, parse, wanted, false, d2.primary6)
    ensures d == d2
  {
    SamePrimary(d, d2, names, parse, wanted, true, d.primary4, d2.primary4);
    SamePrimary(d, d2, names, parse, wanted, false, d.primary6, d2.primary6);
  }

  lemma SamePrimary(d: Device, d2: Device, names: set<string>, parse: AddressParser, wanted: seq<(string, string)>,
                    v4: bool, p: Option<RowId>, q: Option<RowId>)
    requires Exact(d, names, wanted) && NoSharedAddress(wanted) && d2.ips == d.ips
    requires PrimaryIsFirst(d, parse, wanted, v4, p) && PrimaryIsFirst(d2, parse, wanted, v4, q)
    ensures p == q
  {
    var i := FirstWanted(parse, wanted, v4);
    if i.Some? {
      ExactRow(d, names, wanted, p.value, i.value);
      assert q.value in d.ips && d.ips[q.value].address == d.ips[p.value].address;
      assert q.value == p.value;
    }
  }
}
