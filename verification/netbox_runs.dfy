/**
  Whole reconcile runs: the state a complete run reaches, and what holds at every
  step of every run, aborted or not.
 */
module NetboxRuns {
  import opened NetboxModel
  import opened NetboxEnsure

  lemma {:induction false} DropIpsAreDrops(current: seq<NbInterface>)
    ensures forall i | 0 <= i < |DropIps(current)| :: DropIps(current)[i].DropIp?
    ensures forall id :: DropIp(id) in DropIps(current) <==> Listed(current, id)
  {
    if current != [] {
      var n := |current| - 1;
      DropIpsAreDrops(current[..n]);
      forall id
        ensures DropIp(id) in DropIps(current) <==> Listed(current, id)
      {
        DropIpsStep(current, id);
      }
    }
  }

  lemma DropIpsStep(current: seq<NbInterface>, id: RowId)
    requires current != []
    requires DropIp(id) in DropIps(current[..|current| - 1])
             <==> Listed(current[..|current| - 1], id)
    ensures DropIp(id) in DropIps(current) <==> Listed(current, id)
  {
    var n := |current| - 1;
    var last := DropIpItems(current[n].ips);
    assert DropIps(current) == DropIps(current[..n]) + last;
    if DropIp(id) in last {
      var j :| 0 <= j < |last| && last[j] == DropIp(id);
      assert current[n].ips[j].0 == id;
    }
    if i, j :| 0 <= i < |current| && 0 <= j < |current[i].ips| && current[i].ips[j].0 == id {
      if i == n {
        assert last[j] == DropIp(id);
      } else {
        assert current[..n][i].ips[j].0 == id;
      }
    }
  }

  /** A script runs its ensure items in [0, n), finalizes at n, drops IPs in (n, g) and interfaces from g. */
  ghost predicate Shape(script: seq<Item>, n: nat, g: nat, current: seq<NbInterface>) {
    && n < g && |script| == g + |current|
    && script[n] == Finalize
    && (forall i | n < i < g :: script[i].DropIp?)
    && (forall i | g <= i < |script| :: script[i] == DropIface(current[i - g].id, current[i - g].name))
  }

  /** The IPs a script offers to drop are exactly those of the snapshot. */
  ghost predicate DropsListed(script: seq<Item>, n: nat, g: nat, current: seq<NbInterface>)
    requires n < g <= |script|
  {
    forall id :: DropIp(id) in script[n + 1..g] <==> Listed(current, id)
  }

  ghost predicate Listed(current: seq<NbInterface>, id: RowId) {
    exists i, j :: 0 <= i < |current| && 0 <= j < |current[i].ips| && current[i].ips[j].0 == id
  }

  lemma ScriptShape(current: seq<NbInterface>, observed: Inventory) returns (n: nat, g: nat)
    ensures n == |EnsureItems(observed)| && Shape(Script(current, observed), n, g, current)
    ensures DropsListed(Script(current, observed), n, g, current)
    ensures Script(current, observed)[..n] == EnsureItems(observed)
  {
    var script, drops, ifaces := Script(current, observed), DropIps(current), DropIfaces(current);
    n, g := |EnsureItems(observed)|, |EnsureItems(observed)| + 1 + |drops|;
    assert forall i | 0 <= i < |drops| :: drops[i].DropIp? by { DropIpsAreDrops(current); }
    Concatenated(EnsureItems(observed), drops, ifaces, current);
    assert script[n + 1..g] == drops;
    DropsAreListed(script, n, g, current);
  }

  lemma DropsAreListed(script: seq<Item>, n: nat, g: nat, current: seq<NbInterface>)
    requires n < g <= |script| && script[n + 1..g] == DropIps(current)
    ensures DropsListed(script, n, g, current)
  {
    DropIpsAreDrops(current);
  }

  lemma Concatenated(ensuring: seq<Item>, drops: seq<Item>, ifaces: seq<Item>, current: seq<NbInterface>)
    requires forall i | 0 <= i < |drops| :: drops[i].DropIp?
    requires |ifaces| == |current|
    requires forall i | 0 <= i < |current| :: ifaces[i] == DropIface(current[i].id, current[i].name)
    ensures var script := ensuring + [Finalize] + drops + ifaces;
      var n, g := |ensuring|, |ensuring| + 1 + |drops|;
      Shape(script, n, g, current) && script[..n] == ensuring && script[n + 1..g] == drops
  {
  }

  // --- Phase 4 in closed form ---

  /** The ids dropped by the items in script[k..m], given what was kept. */
  ghost function Dropped(script: seq<Item>, k: nat, m: nat, kept: set<RowId>): set<RowId>
    requires k <= m <= |script|
  {
    set i | k <= i < m && script[i].DropIp? && script[i].ipId !in kept :: script[i].ipId
  }

  lemma DroppedStep(script: seq<Item>, k: nat, m: nat, kept: set<RowId>, ips: map<RowId, Ip>)
    requires k <= m < |script| && script[m].DropIp?
    ensures ips - Dropped(script, k, m + 1, kept)
            == if script[m].ipId in kept then ips - Dropped(script, k, m, kept)
               else ips - Dropped(script, k, m, kept) - {script[m].ipId}
  {
    var prior, ip := Dropped(script, k, m, kept), script[m].ipId;
    assert Dropped(script, k, m + 1, kept) == if ip in kept then prior else prior + {ip};
  }

  lemma StepDropIp(c: Context, st: State, ip: RowId, id: RowId)
    ensures var st' := Step(c, st, DropIp(ip), id);
      st' == st.(ops := st'.ops, dev := st.dev.(ips := if ip in st.kept then st.dev.ips else st.dev.ips - {ip}))
  {
  }

  lemma {:induction false} RunDropIps(c: Context, script: seq<Item>, ids: seq<RowId>, k: nat)
    requires k <= |ids| <= |script|
    requires forall i | k <= i < |ids| :: script[i].DropIp?
    ensures var st0, st := Run(c, script, ids[..k]), Run(c, script, ids);
      st == st0.(ops := st.ops, dev := st0.dev.(ips := st0.dev.ips - Dropped(script, k, |ids|, st0.kept)))
    decreases |ids|
  {
    hide Step;
    var st0 := Run(c, script, ids[..k]);
    if |ids| == k {
      assert ids[..k] == ids;
      assert st0.dev.ips - Dropped(script, k, k, st0.kept) == st0.dev.ips;
    } else {
      var m := |ids| - 1;
      assert ids[..m][..k] == ids[..k];
      RunDropIps(c, script, ids[..m], k);
      StepDropIp(c, Run(c, script, ids[..m]), script[m].ipId, ids[m]);
      DroppedStep(script, k, m, st0.kept, st0.dev.ips);
    }
  }

  ghost function DroppedIfaces(script: seq<Item>, k: nat, m: nat, desired: set<string>): set<RowId>
    requires k <= m <= |script|
  {
    set i | k <= i < m && script[i].DropIface? && script[i].name !in desired :: script[i].ifaceId
  }

  lemma DroppedIfacesStep(script: seq<Item>, k: nat, m: nat, desired: set<string>, ifaces: map<RowId, string>)
    requires k <= m < |script| && script[m].DropIface?
    ensures ifaces - DroppedIfaces(script, k, m + 1, desired)
            == if script[m].name in desired then ifaces - DroppedIfaces(script, k, m, desired)
               else ifaces - DroppedIfaces(script, k, m, desired) - {script[m].ifaceId}
  {
    var prior, r := DroppedIfaces(script, k, m, desired), script[m].ifaceId;
    assert DroppedIfaces(script, k, m + 1, desired) == if script[m].name in desired then prior else prior + {r};
  }

  lemma StepDropIface(c: Context, st: State, r: RowId, name: string, id: RowId)
    ensures var st' := Step(c, st, DropIface(r, name), id);
      st' == st.(ops := st'.ops,
                 dev := st.dev.(ifaces := if name in c.desired then st.dev.ifaces else st.dev.ifaces - {r}))
  {
  }

  lemma {:induction false} RunDropIfaces(c: Context, script: seq<Item>, ids: seq<RowId>, k: nat)
    requires k <= |ids| <= |script|
    requires forall i | k <= i < |ids| :: script[i].DropIface?
    ensures var st0, st := Run(c, script, ids[..k]), Run(c, script, ids);
      st == st0.(ops := st.ops, dev := st0.dev.(ifaces := st0.dev.ifaces - DroppedIfaces(script, k, |ids|, c.desired)))
    decreases |ids|
  {
    hide Step;
    var st0 := Run(c, script, ids[..k]);
    if |ids| == k {
      assert ids[..k] == ids;
      assert st0.dev.ifaces - DroppedIfaces(script, k, k, c.desired) == st0.dev.ifaces;
    } else {
      var m := |ids| - 1;
      assert ids[..m][..k] == ids[..k];
      RunDropIfaces(c, script, ids[..m], k);
      StepDropIface(c, Run(c, script, ids[..m]), script[m].ifaceId, script[m].name, ids[m]);
      DroppedIfacesStep(script, k, m, c.desired, st0.dev.ifaces);
    }
  }

  // --- Where a run stands in each phase ---

  lemma StepFinalize(c: Context, st: State, id: RowId)
    ensures Step(c, st, Finalize, id)
            == st.(dev := st.dev.(primary4 := st.p4, primary6 := st.p6, stamp := c.host),
                   ops := st.ops + [FinalizeDevice(st.p4, st.p6, c.host)])
  {
  }

  /** A run that has finalized the device: the ensured state, its primaries repointed, some stale rows gone. */
  ghost predicate Dropping(c: Context, e: State, st: State, ips: set<RowId>, ifaces: set<RowId>) {
    && st == e.(ops := st.ops, dev := st.dev)
    && st.dev == Device(e.dev.ifaces - ifaces, e.dev.ips - ips, e.p4, e.p6, c.host)
  }

  lemma RunFinalized(c: Context, script: seq<Item>, n: nat, ids: seq<RowId>)
    requires n < |ids| <= |script| && script[n] == Finalize
    requires forall i | n < i < |ids| :: script[i].DropIp?
    ensures var e := Run(c, script, ids[..n]);
      Dropping(c, e, Run(c, script, ids), Dropped(script, n + 1, |ids|, e.kept), {})
  {
    assert ids[..n + 1][..n] == ids[..n];
    var e := Run(c, script, ids[..n]);
    StepFinalize(c, e, ids[n]);
    RunDropIps(c, script, ids, n + 1);
    assert e.dev.ifaces - {} == e.dev.ifaces;
  }

  lemma DroppedWasStored(d: Device, script: seq<Item>, n: nat, g: nat, current: seq<NbInterface>, kept: set<RowId>,
                         ip: RowId)
    requires n < g <= |script| && DropsListed(script, n, g, current) && Lists(current, d)
    requires ip in Dropped(script, n + 1, g, kept)
    ensures ip in d.ips && ip !in kept
  {
    var i :| n + 1 <= i < g && script[i].DropIp? && script[i].ipId == ip;
    assert script[n + 1..g][i - n - 1] == DropIp(ip);
    var a, b :| 0 <= a < |current| && 0 <= b < |current[a].ips| && current[a].ips[b].0 == ip;
    assert current[a].ips[b] in current[a].ips;
  }

  lemma StoredIsDropped(d: Device, script: seq<Item>, n: nat, g: nat, current: seq<NbInterface>, kept: set<RowId>,
                        ip: RowId)
    requires n < g <= |script| && DropsListed(script, n, g, current) && Lists(current, d)
    requires ip in d.ips && ip !in kept
    ensures ip in Dropped(script, n + 1, g, kept)
  {
    var a :| 0 <= a < |current| && (ip, d.ips[ip].address) in current[a].ips;
    assert Listed(current, ip);
    var i :| 0 <= i < g - n - 1 && script[n + 1..g][i] == DropIp(ip);
    assert script[n + 1 + i].ipId == ip;
  }

  /** Every stored IP that was not kept, and nothing else, is dropped. */
  lemma AllDropped(d: Device, script: seq<Item>, n: nat, g: nat, current: seq<NbInterface>, kept: set<RowId>)
    requires n < g <= |script| && DropsListed(script, n, g, current) && Lists(current, d)
    ensures Dropped(script, n + 1, g, kept) == d.ips.Keys - kept
  {
    hide Dropped, DropsListed, Lists;
    forall ip
      ensures ip in Dropped(script, n + 1, g, kept) <==> ip in d.ips.Keys - kept
    {
      if ip in Dropped(script, n + 1, g, kept) {
        DroppedWasStored(d, script, n, g, current, kept, ip);
      } else if ip in d.ips && ip !in kept {
        StoredIsDropped(d, script, n, g, current, kept, ip);
      }
    }
  }

  lemma RunDropped(c: Context, script: seq<Item>, n: nat, g: nat, ids: seq<RowId>)
    requires n < g <= |ids| <= |script| && script[n] == Finalize
    requires forall i | n < i < g :: script[i].DropIp?
    requires forall i | g <= i < |ids| :: script[i].DropIface?
    ensures var e := Run(c, script, ids[..n]);
      Dropping(c, e, Run(c, script, ids), Dropped(script, n + 1, g, e.kept), DroppedIfaces(script, g, |ids|, c.desired))
  {
    assert ids[..g][..n] == ids[..n];
    var e := Run(c, script, ids[..n]);
    RunFinalized(c, script, n, ids[..g]);
    RunDropIfaces(c, script, ids, g);
    DroppingIfaces(c, e, Run(c, script, ids[..g]), Run(c, script, ids),
                   Dropped(script, n + 1, g, e.kept), DroppedIfaces(script, g, |ids|, c.desired));
  }

  lemma DroppingIfaces(c: Context, e: State, st: State, st': State, ips: set<RowId>, ifaces: set<RowId>)
    requires Dropping(c, e, st, ips, {})
    requires st' == st.(ops := st'.ops, dev := st.dev.(ifaces := st.dev.ifaces - ifaces))
    ensures Dropping(c, e, st', ips, ifaces)
  {
    assert e.dev.ifaces - {} == e.dev.ifaces;
  }

  /** The device a completed run leaves, in terms of its ensured state. */
  ghost function Outcome(c: Context, e: State): Device {
    Device(map r | r in e.dev.ifaces && e.dev.ifaces[r] in c.desired :: e.dev.ifaces[r],
           map ip | ip in e.dev.ips && ip in e.kept :: e.dev.ips[ip],
           e.p4, e.p6, c.host)
  }

  /** Every prefix of phases 1 and 2 keeps the ensure invariant. */
  lemma EnsuredPrefix(c: Context, script: seq<Item>, observed: Inventory, k: nat, ids: seq<RowId>)
    requires Indexed(c) && k <= |EnsureItems(observed)| <= |script| && k <= |ids| <= |script|
    requires script[..|EnsureItems(observed)|] == EnsureItems(observed) && FreshRun(c, script, ids)
    ensures Ensured(c, Run(c, script, ids[..k]))
    ensures k > 0 ==> Run(c, script, ids[..k]).rows != []
  {
    FreshPrefix(c, script, ids, k);
    EnsureItemsEnsure(observed);
    assert script[..k] == script[..|EnsureItems(observed)|][..k];
    EnsuredRun(c, script, ids[..k]);
  }

  lemma HistoryOf(c: Context, script: seq<Item>, observed: Inventory, n: nat, ids: seq<RowId>)
    requires n == |EnsureItems(observed)| <= |ids| <= |script|
    requires script[..n] == EnsureItems(observed)
    ensures var e := Run(c, script, ids[..n]);
      RowNames(e.rows) == ObservedNames(observed) && Pairs(e.placed) == Wanted(c.parse, observed)
  {
    RunPrefix(c, script, EnsureItems(observed), ids[..n]);
    EnsureHistory(c, observed, ids[..n]);
  }

  lemma Completed(c: Context, current: seq<NbInterface>, observed: Inventory, ids: seq<RowId>) returns (e: State)
    requires Starts(c, current, observed)
    requires |ids| == |Script(current, observed)| && FreshRun(c, Script(current, observed), ids)
    ensures Ensured(c, e)
    ensures Run(c, Script(current, observed), ids).dev == Outcome(c, e)
    ensures RowNames(e.rows) == ObservedNames(observed)
    ensures Pairs(e.placed) == Wanted(c.parse, observed)
  {
    var n, g := ScriptShape(current, observed);
    e := CompletedFrom(c, Script(current, observed), n, g, current, observed, ids);
  }

  lemma CompletedFrom(c: Context, script: seq<Item>, n: nat, g: nat,
                      current: seq<NbInterface>, observed: Inventory, ids: seq<RowId>) returns (e: State)
    requires Starts(c, current, observed) && Shape(script, n, g, current) && DropsListed(script, n, g, current)
    requires n == |EnsureItems(observed)| && script[..n] == EnsureItems(observed)
    requires |ids| == |script| && FreshRun(c, script, ids)
    ensures e == Run(c, script, ids[..n]) && Ensured(c, e)
    ensures Run(c, script, ids).dev == Outcome(c, e)
    ensures RowNames(e.rows) == ObservedNames(observed)
    ensures Pairs(e.placed) == Wanted(c.parse, observed)
  {
    e := Run(c, script, ids[..n]);
    EnsuredPrefix(c, script, observed, n, ids);
    HistoryOf(c, script, observed, n, ids);
    RunDropped(c, script, n, g, ids);
    FinalDevice(c, script, n, g, current, observed, e, Run(c, script, ids));
  }

  lemma FinalDevice(c: Context, script: seq<Item>, n: nat, g: nat,
                    current: seq<NbInterface>, observed: Inventory, e: State, st: State)
    requires Starts(c, current, observed) && Shape(script, n, g, current) && DropsListed(script, n, g, current)
    requires Ensured(c, e) && RowNames(e.rows) == ObservedNames(observed)
    requires Dropping(c, e, st, Dropped(script, n + 1, g, e.kept), DroppedIfaces(script, g, |script|, c.desired))
    ensures st.dev == Outcome(c, e)
  {
    AllDropped(c.base, script, n, g, current, e.kept);
    OutcomeMaps(c, script, n, g, current, observed, e);
  }

  lemma OutcomeMaps(c: Context, script: seq<Item>, n: nat, g: nat,
                    current: seq<NbInterface>, observed: Inventory, e: State)
    requires Starts(c, current, observed) && Shape(script, n, g, current) && Ensured(c, e)
    requires RowNames(e.rows) == ObservedNames(observed)
    ensures e.dev.ips - (c.base.ips.Keys - e.kept) == Outcome(c, e).ips
    ensures e.dev.ifaces - DroppedIfaces(script, g, |script|, c.desired) == Outcome(c, e).ifaces
  {
    OutcomeIps(c, e);
    forall r | r in e.dev.ifaces
      ensures r in DroppedIfaces(script, g, |script|, c.desired) <==> e.dev.ifaces[r] !in c.desired
    {
      RowDropped(c, script, n, g, current, observed, e, r);
    }
  }

  lemma OutcomeIps(c: Context, e: State)
    requires KeptRight(c, e)
    ensures e.dev.ips - (c.base.ips.Keys - e.kept) == Outcome(c, e).ips
  {
    forall ip | ip in e.dev.ips
      ensures ip in c.base.ips.Keys - e.kept <==> ip !in e.kept
    {
    }
  }

  lemma DroppedIface(d: Device, script: seq<Item>, n: nat, g: nat, m: nat, current: seq<NbInterface>,
                     desired: set<string>, r: RowId)
    requires Lists(current, d) && Shape(script, n, g, current) && g <= m <= |script|
    ensures r in DroppedIfaces(script, g, m, desired) ==> r in d.ifaces && d.ifaces[r] !in desired
    ensures m == |script| && r in d.ifaces && d.ifaces[r] !in desired ==> r in DroppedIfaces(script, g, m, desired)
  {
    if r in DroppedIfaces(script, g, m, desired) {
      var j :| g <= j < m && script[j].DropIface? && script[j].name !in desired && script[j].ifaceId == r;
      assert current[j - g].id == r;
    }
    if m == |script| && r in d.ifaces && d.ifaces[r] !in desired {
      var i :| 0 <= i < |current| && current[i].id == r;
      assert script[g + i].ifaceId == r && script[g + i].name == d.ifaces[r];
    }
  }

  lemma RowDropped(c: Context, script: seq<Item>, n: nat, g: nat,
                   current: seq<NbInterface>, observed: Inventory, e: State, r: RowId)
    requires Lists(current, c.base) && c.desired == Names(observed) && Shape(script, n, g, current)
    requires KeepsBase(c, e) && RowsRight(c, e) && RowNames(e.rows) == ObservedNames(observed) && r in e.dev.ifaces
    ensures r in DroppedIfaces(script, g, |script|, c.desired) <==> e.dev.ifaces[r] !in c.desired
  {
    DroppedIface(c.base, script, n, g, |script|, current, c.desired, r);
    if r !in c.base.ifaces {
      var i :| 0 <= i < |e.rows| && e.rows[i] == (e.dev.ifaces[r], r);
      assert RowNames(e.rows)[i] == ObservedNames(observed)[i] == observed[i].name;
    }
  }
}
