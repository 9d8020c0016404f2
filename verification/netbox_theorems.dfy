/** Every step of every run of `reconcile`, finished or aborted, is safe. */
module NetboxTheorems {
  import opened Wrappers
  import opened NetboxModel
  import opened NetboxEnsure
  import opened NetboxRuns

  // --- Safety at every step ---

  /** What a write must respect for NetBox's foreign keys and primary pointers to survive it. */
  ghost predicate SafeOp(d: Device, op: Op) {
    match op
    case CreateIface(r, _) => r !in d.ifaces
    case CreateIp(ip, r, _) => ip !in d.ips && r in d.ifaces
    case MoveIp(ip, r) => ip in d.ips && r in d.ifaces
    case FinalizeDevice(p4, p6, _) => (p4.Some? ==> p4.value in d.ips) && (p6.Some? ==> p6.value in d.ips)
    case DeleteIp(ip) => d.primary4 != Some(ip) && d.primary6 != Some(ip)
    case DeleteIface(r) => forall ip | ip in d.ips :: d.ips[ip].iface != r
  }

  lemma SoundApply(d: Device, op: Op)
    requires Sound(d) && SafeOp(d, op)
    ensures Sound(Apply(d, op))
  {
  }

  lemma {:induction false} FirstPlacedIsPlaced(c: Context, placed: seq<Placed>, v4: bool)
    ensures var p := FirstPlaced(c, placed, v4);
      p.Some? ==> exists i :: 0 <= i < |placed| && placed[i].ip == p.value && IsIpv4Cidr(c.parse, placed[i].cidr) == v4
  {
    if placed != [] {
      var n := |placed| - 1;
      FirstPlacedIsPlaced(c, placed[..n], v4);
      var p := FirstPlaced(c, placed[..n], v4);
      if p.Some? {
        var i :| 0 <= i < n && placed[..n][i].ip == p.value && IsIpv4Cidr(c.parse, placed[..n][i].cidr) == v4;
        assert placed[i].ip == p.value;
      } else {
        assert IsIpv4Cidr(c.parse, placed[n].cidr) == v4 ==> FirstPlaced(c, placed, v4) == Some(placed[n].ip);
      }
    }
  }

  /** Primaries are always among the kept IPs. */
  lemma PrimariesKept(c: Context, e: State)
    requires Ensured(c, e)
    ensures e.p4.Some? ==> e.p4.value in e.kept && e.p4.value in e.dev.ips
    ensures e.p6.Some? ==> e.p6.value in e.kept && e.p6.value in e.dev.ips
  {
    FirstPlacedIsPlaced(c, e.placed, true);
    FirstPlacedIsPlaced(c, e.placed, false);
  }

  lemma EnsureIsSafe(c: Context, st: State, item: Item, id: RowId)
    requires Indexed(c) && Ensured(c, st) && (item.EnsureIface? || item.EnsureIp?)
    requires FreshId(st.dev, Write(c, st, item, id)) && (item.EnsureIp? ==> st.rows != [])
    ensures var op := Write(c, st, item, id); op.Some? ==> SafeOp(st.dev, op.value)
  {
    if item.EnsureIp? {
      assert st.rows[|st.rows| - 1] == (st.name, st.row);
    }
  }

  lemma DropIpIsSafe(c: Context, e: State, st: State, ips: set<RowId>, ip: RowId, id: RowId)
    requires Ensured(c, e) && Dropping(c, e, st, ips, {})
    ensures var op := Write(c, st, DropIp(ip), id); op.Some? ==> SafeOp(st.dev, op.value)
  {
    PrimariesKept(c, e);
  }

  /** Once the stale IPs are gone, an interface that is not desired holds none. */
  lemma DropIfaceIsSafe(c: Context, e: State, st: State, ifaces: set<RowId>, r: RowId, name: string, id: RowId)
    requires Ensured(c, e) && Dropping(c, e, st, c.base.ips.Keys - e.kept, ifaces)
    requires r in e.dev.ifaces && e.dev.ifaces[r] == name
    requires forall i | 0 <= i < |e.rows| :: e.rows[i].0 in c.desired
    ensures var op := Write(c, st, DropIface(r, name), id); op.Some? ==> SafeOp(st.dev, op.value)
  {
    if name !in c.desired {
      forall ip | ip in st.dev.ips
        ensures st.dev.ips[ip].iface != r
      {
        assert ip in e.dev.ips && ip in e.kept;
        var i :| 0 <= i < |e.placed| && e.placed[i].ip == ip && e.placed[i].row == e.dev.ips[ip].iface;
        var j :| 0 <= j < |e.rows| && e.rows[j] == (e.placed[i].name, e.placed[i].row);
      }
    }
  }

  /** The write a run performs at its k-th item, if any. */
  ghost function WriteAt(c: Context, script: seq<Item>, ids: seq<RowId>, k: nat): Option<Op>
    requires k < |ids| <= |script|
  {
    Write(c, Run(c, script, ids[..k]), script[k], ids[k])
  }

  lemma StepIsSafe(c: Context, current: seq<NbInterface>, observed: Inventory, ids: seq<RowId>, k: nat)
    requires Starts(c, current, observed) && k < |ids| <= |Script(current, observed)|
    requires FreshRun(c, Script(current, observed), ids)
    ensures var op := WriteAt(c, Script(current, observed), ids, k);
      op.Some? ==> SafeOp(Run(c, Script(current, observed), ids[..k]).dev, op.value)
  {
    var n, g := ScriptShape(current, observed);
    StepIsSafeIn(c, Script(current, observed), n, g, current, observed, ids, k);
  }

  lemma StepIsSafeIn(c: Context, script: seq<Item>, n: nat, g: nat, current: seq<NbInterface>,
                     observed: Inventory, ids: seq<RowId>, k: nat)
    requires Starts(c, current, observed) && Shape(script, n, g, current) && DropsListed(script, n, g, current)
    requires n == |EnsureItems(observed)| && script[..n] == EnsureItems(observed)
    requires k < |ids| <= |script| && FreshRun(c, script, ids)
    ensures var op := WriteAt(c, script, ids, k);
      op.Some? ==> SafeOp(Run(c, script, ids[..k]).dev, op.value)
  {
    if k < n {
      EnsurePhaseSafe(c, script, n, observed, ids, k);
    } else if k == n {
      EnsuredPrefix(c, script, observed, n, ids);
      PrimariesKept(c, Run(c, script, ids[..n]));
    } else if k < g {
      DropPhaseSafe(c, script, n, observed, ids, k);
    } else {
      IfacePhaseSafe(c, script, n, g, current, observed, ids, k);
    }
  }

  lemma EnsurePhaseSafe(c: Context, script: seq<Item>, n: nat, observed: Inventory, ids: seq<RowId>, k: nat)
    requires Indexed(c) && n == |EnsureItems(observed)| && k < n <= |script| && script[..n] == EnsureItems(observed)
    requires k < |ids| <= |script| && FreshRun(c, script, ids)
    ensures var op := WriteAt(c, script, ids, k); op.Some? ==> SafeOp(Run(c, script, ids[..k]).dev, op.value)
  {
    hide Run;
    EnsuredPrefix(c, script, observed, k, ids);
    FreshPrefix(c, script, ids, k + 1);
    assert ids[..k + 1][..k] == ids[..k];
    EnsureItemsEnsure(observed);
    assert script[k] == EnsureItems(observed)[k];
    assert script[0] == EnsureItems(observed)[0];
    EnsureIsSafe(c, Run(c, script, ids[..k]), script[k], ids[k]);
  }

  lemma DropPhaseSafe(c: Context, script: seq<Item>, n: nat, observed: Inventory, ids: seq<RowId>, k: nat)
    requires Indexed(c) && n == |EnsureItems(observed)| <= |script| && script[..n] == EnsureItems(observed)
    requires n < k < |ids| <= |script| && FreshRun(c, script, ids)
    requires script[n] == Finalize && forall i | n < i <= k :: script[i].DropIp?
    ensures var op := WriteAt(c, script, ids, k); op.Some? ==> SafeOp(Run(c, script, ids[..k]).dev, op.value)
  {
    hide Run, FreshRun;
    EnsuredPrefix(c, script, observed, n, ids);
    assert ids[..k][..n] == ids[..n];
    RunFinalized(c, script, n, ids[..k]);
    var e := Run(c, script, ids[..n]);
    DropIpIsSafe(c, e, Run(c, script, ids[..k]), Dropped(script, n + 1, k, e.kept), script[k].ipId, ids[k]);
  }

  lemma IfacePhaseSafe(c: Context, script: seq<Item>, n: nat, g: nat, current: seq<NbInterface>,
                       observed: Inventory, ids: seq<RowId>, k: nat)
    requires Starts(c, current, observed) && Shape(script, n, g, current) && DropsListed(script, n, g, current)
    requires n == |EnsureItems(observed)| && script[..n] == EnsureItems(observed)
    requires g <= k < |ids| <= |script| && FreshRun(c, script, ids)
    ensures var op := WriteAt(c, script, ids, k); op.Some? ==> SafeOp(Run(c, script, ids[..k]).dev, op.value)
  {
    hide Run, FreshRun;
    EnsuredPrefix(c, script, observed, n, ids);
    HistoryOf(c, script, observed, n, ids);
    assert ids[..k][..n] == ids[..n];
    RunDropped(c, script, n, g, ids[..k]);
    var e := Run(c, script, ids[..n]);
    AllDropped(c.base, script, n, g, current, e.kept);
    RowsDesired(c, observed, e);
    DropIfaceIsSafe(c, e, Run(c, script, ids[..k]), DroppedIfaces(script, g, k, c.desired),
                    script[k].ifaceId, script[k].name, ids[k]);
  }

  lemma RowsDesired(c: Context, observed: Inventory, e: State)
    requires RowNames(e.rows) == ObservedNames(observed) && c.desired == Names(observed)
    ensures forall i | 0 <= i < |e.rows| :: e.rows[i].0 in c.desired
  {
    forall i | 0 <= i < |e.rows|
      ensures e.rows[i].0 in c.desired
    {
      assert RowNames(e.rows)[i] == ObservedNames(observed)[i] == observed[i].name;
    }
  }

  /**
    At every step of every run, finished or aborted anywhere, foreign keys hold
    and primaries name live IPs; no write deletes a current primary or an
    interface that still holds an IP.  This needs nothing of the report: repeated
    names and addresses are covered too.
   */
  lemma {:induction false} EveryStepIsSafe(c: Context, current: seq<NbInterface>, observed: Inventory, ids: seq<RowId>)
    requires Starts(c, current, observed)
    requires |ids| <= |Script(current, observed)| && FreshRun(c, Script(current, observed), ids)
    ensures Sound(Run(c, Script(current, observed), ids).dev)
    ensures forall k | 0 <= k < |ids| ::
              var op := WriteAt(c, Script(current, observed), ids, k);
              op.Some? ==> SafeOp(Run(c, Script(current, observed), ids[..k]).dev, op.value)
    decreases |ids|
  {
    forall k | 0 <= k < |ids|
      ensures var op := WriteAt(c, Script(current, observed), ids, k);
        op.Some? ==> SafeOp(Run(c, Script(current, observed), ids[..k]).dev, op.value)
    {
      StepIsSafe(c, current, observed, ids, k);
    }
    SoundRun(c, current, observed, ids);
  }

  lemma {:induction false} SoundRun(c: Context, current: seq<NbInterface>, observed: Inventory, ids: seq<RowId>)
    requires Starts(c, current, observed)
    requires |ids| <= |Script(current, observed)| && FreshRun(c, Script(current, observed), ids)
    ensures Sound(Run(c, Script(current, observed), ids).dev)
    decreases |ids|
  {
    if ids != [] {
      var k := |ids| - 1;
      SoundRun(c, current, observed, ids[..k]);
      StepIsSafe(c, current, observed, ids, k);
      SoundStep(c, Run(c, Script(current, observed), ids[..k]), Script(current, observed)[k], ids[k]);
    }
  }

  lemma SoundStep(c: Context, st: State, item: Item, id: RowId)
    requires Sound(st.dev)
    requires var op := Write(c, st, item, id); op.Some? ==> SafeOp(st.dev, op.value)
    ensures Sound(Step(c, st, item, id).dev)
  {
    var op := Write(c, st, item, id);
    if op.Some? {
      SoundApply(st.dev, op.value);
    }
  }
}
