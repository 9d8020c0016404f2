/**
  Phases 1 and 2 of a reconcile run: what holds after every prefix of the work
  that ensures the observed interfaces and addresses exist.
 */
module NetboxEnsure {
  import opened Wrappers
  import opened NetboxModel

  /** The first placed address of the given family, as `get_or_insert` leaves it. */
  ghost function FirstPlaced(c: Context, placed: seq<Placed>, v4: bool): Option<RowId> {
    if placed == [] then None
    else
      var rest := FirstPlaced(c, placed[..|placed| - 1], v4);
      var last := placed[|placed| - 1];
      if rest.Some? || IsIpv4Cidr(c.parse, last.cidr) != v4 then rest else Some(last.ip)
  }

  /** Nothing stored is lost before phase 4, and untouched rows are untouched. */
  ghost predicate KeepsBase(c: Context, st: State) {
    && (forall r | r in c.base.ifaces :: r in st.dev.ifaces && st.dev.ifaces[r] == c.base.ifaces[r])
    && (forall ip | ip in c.base.ips ::
          && ip in st.dev.ips && st.dev.ips[ip].address == c.base.ips[ip].address
          && (ip !in st.kept ==> st.dev.ips[ip] == c.base.ips[ip]))
    && st.dev.primary4 == c.base.primary4 && st.dev.primary6 == c.base.primary6
    && st.dev.stamp == c.base.stamp
  }

  /**
    Every interface row is a stored one or one this run created, and each name went to its stored
    row if it had one.
   */
  ghost predicate RowsRight(c: Context, st: State) {
    && (forall i | 0 <= i < |st.rows| ::
          && st.rows[i].1 in st.dev.ifaces && st.dev.ifaces[st.rows[i].1] == st.rows[i].0
          && (if st.rows[i].0 in c.byName then st.rows[i].1 == c.byName[st.rows[i].0]
              else st.rows[i].1 !in c.base.ifaces))
    && (forall i, j | 0 <= i < j < |st.rows| :: st.rows[i].0 !in c.byName ==> st.rows[i].1 != st.rows[j].1)
    && (forall r | r in st.dev.ifaces :: r in c.base.ifaces || (st.dev.ifaces[r], r) in st.rows)
    && (st.rows != [] ==> (st.name, st.row) == st.rows[|st.rows| - 1])
  }

  /** Every IP row is a stored one or a placed one; each placed address kept its stored row if it had one. */
  ghost predicate PlacedRight(c: Context, st: State) {
    && (forall i | 0 <= i < |st.placed| ::
          var p := st.placed[i];
          && (p.name, p.row) in st.rows
          && p.ip in st.kept && p.ip in st.dev.ips && st.dev.ips[p.ip].address == p.cidr
          && (if p.cidr in c.existing then p.ip == c.existing[p.cidr].0
              else p.ip !in c.base.ips && st.dev.ips[p.ip].iface == p.row))
    && (forall i, j | 0 <= i < j < |st.placed| ::
          st.placed[i].cidr !in c.existing ==> st.placed[i].ip != st.placed[j].ip)
  }

  /** Every kept IP sits on an interface it was observed on. */
  ghost predicate KeptRight(c: Context, st: State) {
    && (forall ip | ip in st.kept ::
          && ip in st.dev.ips
          && (exists i :: 0 <= i < |st.placed| && st.placed[i].ip == ip && st.placed[i].row == st.dev.ips[ip].iface))
    && (forall ip | ip in st.dev.ips :: ip in c.base.ips || ip in st.kept)
  }

  ghost predicate PrimariesRight(c: Context, st: State) {
    st.p4 == FirstPlaced(c, st.placed, true) && st.p6 == FirstPlaced(c, st.placed, false)
  }

  ghost predicate Ensured(c: Context, st: State) {
    KeepsBase(c, st) && RowsRight(c, st) && PlacedRight(c, st) && KeptRight(c, st) && PrimariesRight(c, st)
  }

  lemma EnsuredIface(c: Context, st: State, name: string, id: RowId)
    requires Indexed(c) && Ensured(c, st)
    requires FreshId(st.dev, Write(c, st, EnsureIface(name), id))
    ensures Ensured(c, Step(c, st, EnsureIface(name), id))
  {
    var st' := Step(c, st, EnsureIface(name), id);
    IfaceKeepsRows(c, st, st', name);
    IfaceKeepsPlaced(c, st, st', name);
  }

  lemma IfaceKeepsRows(c: Context, st: State, st': State, name: string)
    requires Indexed(c) && RowsRight(c, st)
    requires forall r | r in c.base.ifaces :: r in st.dev.ifaces
    requires st'.rows == st.rows + [(name, st'.row)] && st'.name == name
    requires if name in c.byName then st'.dev == st.dev && st'.row == c.byName[name]
             else st'.row !in st.dev.ifaces && st'.dev.ifaces == st.dev.ifaces[st'.row := name]
    requires name in c.byName ==> st'.row in st.dev.ifaces && st.dev.ifaces[st'.row] == name
    ensures RowsRight(c, st')
  {
    assert forall i | 0 <= i < |st.rows| :: st'.rows[i] == st.rows[i];
    assert st'.rows[|st.rows|] == (name, st'.row);
    forall r | r in st'.dev.ifaces
      ensures r in c.base.ifaces || (st'.dev.ifaces[r], r) in st'.rows
    {
      if r in st.dev.ifaces && r !in c.base.ifaces {
        assert (st.dev.ifaces[r], r) in st.rows;
      }
    }
  }

  lemma IfaceKeepsPlaced(c: Context, st: State, st': State, name: string)
    requires PlacedRight(c, st)
    requires st'.placed == st.placed && st'.kept == st.kept && st'.dev.ips == st.dev.ips
    requires st'.rows == st.rows + [(name, st'.row)]
    ensures PlacedRight(c, st')
  {
  }

  /** The effect of placing `cidr`: `p` is what was placed. */
  ghost predicate Places(c: Context, st: State, st': State, p: Placed) {
    && st'.placed == st.placed + [p] && st'.kept == st.kept + {p.ip} && st'.rows == st.rows
    && p.name == st.name == st'.name && p.row == st.row == st'.row
    && st'.dev.ifaces == st.dev.ifaces
    && (if p.cidr in c.existing then
          && p.ip == c.existing[p.cidr].0 && p.ip in st.dev.ips
          && (if c.existing[p.cidr].1 == st.row then st'.dev == st.dev
              else st'.dev.ips == st.dev.ips[p.ip := st.dev.ips[p.ip].(iface := st.row)])
        else p.ip !in st.dev.ips && st'.dev.ips == st.dev.ips[p.ip := Ip(p.cidr, st.row)])
  }

  lemma EnsuredIp(c: Context, st: State, ip: string, id: RowId)
    requires Indexed(c) && Ensured(c, st) && st.rows != []
    requires FreshId(st.dev, Write(c, st, EnsureIp(ip), id))
    ensures Ensured(c, Step(c, st, EnsureIp(ip), id))
  {
    hide KeepsBase, RowsRight, PlacedRight, KeptRight, PrimariesRight, Indexed, Step;
    var st' := Step(c, st, EnsureIp(ip), id);
    match ToCidr(c.parse, ip)
    case None => SkippedIp(c, st, ip, id);
    case Some(cidr) =>
      var p := IpPlaces(c, st, st', ip, id);
      CurrentRow(c, st);
      IpKeepsBase(c, st, st', p);
      IpKeepsPlaced(c, st, st', p);
      IpKeepsKept(c, st, st', p);
      IpKeepsRows(c, st, st', p);
      IpKeepsPrimaries(c, st, st', p);
  }

  lemma CurrentRow(c: Context, st: State)
    requires RowsRight(c, st) && st.rows != []
    ensures (st.name, st.row) in st.rows
  {
  }

  lemma SkippedIp(c: Context, st: State, ip: string, id: RowId)
    requires ToCidr(c.parse, ip).None?
    ensures Step(c, st, EnsureIp(ip), id) == st
  {
  }

  lemma IpPlaces(c: Context, st: State, st': State, ip: string, id: RowId) returns (p: Placed)
    requires Indexed(c) && KeepsBase(c, st)
    requires ToCidr(c.parse, ip).Some? && st' == Step(c, st, EnsureIp(ip), id)
    requires FreshId(st.dev, Write(c, st, EnsureIp(ip), id))
    ensures Places(c, st, st', p) && Picks(c, st, st', p) && p.cidr == ToCidr(c.parse, ip).value
    ensures st'.dev.primary4 == st.dev.primary4 && st'.dev.primary6 == st.dev.primary6
    ensures st'.dev.stamp == st.dev.stamp
  {
    var cidr := ToCidr(c.parse, ip).value;
    p := Placed(st.name, st.row, cidr, if cidr in c.existing then c.existing[cidr].0 else id);
  }

  /** The primaries `reconcile` picks: the first placed address of each family. */
  ghost predicate Picks(c: Context, st: State, st': State, p: Placed) {
    var v4 := IsIpv4Cidr(c.parse, p.cidr);
    && st'.p4 == (if v4 && st.p4.None? then Some(p.ip) else st.p4)
    && st'.p6 == (if !v4 && st.p6.None? then Some(p.ip) else st.p6)
  }

  lemma IpKeepsRows(c: Context, st: State, st': State, p: Placed)
    requires RowsRight(c, st) && Places(c, st, st', p)
    ensures RowsRight(c, st')
  {
  }

  lemma IpKeepsPrimaries(c: Context, st: State, st': State, p: Placed)
    requires PrimariesRight(c, st) && Places(c, st, st', p) && Picks(c, st, st', p)
    ensures PrimariesRight(c, st')
  {
    hide IsIpv4Cidr;
    assert st'.placed[..|st.placed|] == st.placed && st'.placed[|st.placed|] == p;
  }

  lemma IpKeepsBase(c: Context, st: State, st': State, p: Placed)
    requires KeepsBase(c, st) && Places(c, st, st', p)
    requires st'.dev.primary4 == st.dev.primary4 && st'.dev.primary6 == st.dev.primary6
    requires st'.dev.stamp == st.dev.stamp
    ensures KeepsBase(c, st')
  {
  }

  lemma IpKeepsPlaced(c: Context, st: State, st': State, p: Placed)
    requires Indexed(c) && KeepsBase(c, st) && PlacedRight(c, st) && Places(c, st, st', p)
    requires (p.name, p.row) in st.rows
    ensures PlacedRight(c, st')
  {
    assert forall i | 0 <= i < |st.placed| :: st'.placed[i] == st.placed[i];
    assert p.cidr in c.existing ==> st'.dev.ips[p.ip].address == p.cidr;
  }

  lemma IpKeepsKept(c: Context, st: State, st': State, p: Placed)
    requires Indexed(c) && KeepsBase(c, st) && KeptRight(c, st) && Places(c, st, st', p)
    ensures KeptRight(c, st')
  {
    forall k | k in st'.kept
      ensures k in st'.dev.ips
      ensures exists i :: 0 <= i < |st'.placed| && st'.placed[i].ip == k && st'.placed[i].row == st'.dev.ips[k].iface
    {
      if k == p.ip && st'.dev.ips[k].iface == p.row {
        assert st'.placed[|st.placed|] == p;
      } else {
        assert k in st.kept && st'.dev.ips[k] == st.dev.ips[k];
        var i :| 0 <= i < |st.placed| && st.placed[i].ip == k && st.placed[i].row == st.dev.ips[k].iface;
        assert st'.placed[i] == st.placed[i];
      }
    }
  }

  /** Phases 1 and 2 start with an interface and hold nothing but ensure items. */
  ghost predicate Ensuring(script: seq<Item>) {
    && (forall i | 0 <= i < |script| :: script[i].EnsureIface? || script[i].EnsureIp?)
    && (script != [] ==> script[0].EnsureIface?)
  }

  lemma {:induction false} EnsuredRun(c: Context, script: seq<Item>, ids: seq<RowId>)
    requires Indexed(c) && |ids| <= |script| && Ensuring(script[..|ids|]) && FreshRun(c, script, ids)
    ensures Ensured(c, Run(c, script, ids))
    ensures ids != [] ==> Run(c, script, ids).rows != []
    decreases |ids|
  {
    if ids != [] {
      var k := |ids| - 1;
      assert script[..k] == script[..|ids|][..k];
      EnsuredRun(c, script, ids[..k]);
      var st := Run(c, script, ids[..k]);
      assert script[..|ids|][k] == script[k];
      if script[k].EnsureIface? {
        EnsuredIface(c, st, script[k].name, ids[k]);
      } else {
        assert k > 0 by { assert script[..|ids|][0] == script[0]; }
        EnsuredIp(c, st, script[k].ip, ids[k]);
      }
    }
  }

  lemma {:induction false} FreshPrefix(c: Context, script: seq<Item>, ids: seq<RowId>, k: nat)
    requires k <= |ids| <= |script| && FreshRun(c, script, ids)
    ensures FreshRun(c, script, ids[..k])
    decreases |ids|
  {
    if k == |ids| {
      assert ids[..k] == ids;
    } else {
      assert ids[..|ids| - 1][..k] == ids[..k];
      FreshPrefix(c, script, ids[..|ids| - 1], k);
    }
  }

  lemma {:induction false} EnsureItemsEnsure(observed: Inventory)
    ensures Ensuring(EnsureItems(observed))
    ensures observed != [] ==> EnsureItems(observed) != []
  {
    if observed != [] {
      EnsureItemsEnsure(observed[..|observed| - 1]);
    }
  }

  // --- What was placed is what was observed ---

  ghost function CidrsOf(parse: AddressParser, name: string, addresses: seq<string>): seq<(string, string)> {
    if addresses == [] then []
    else
      CidrsOf(parse, name, addresses[..|addresses| - 1])
      + (match ToCidr(parse, addresses[|addresses| - 1])
         case Some(cidr) => [(name, cidr)]
         case None => [])
  }

  /** The (interface name, CIDR) pairs a report asks for, in order; unparsable addresses ask for nothing. */
  ghost function Wanted(parse: AddressParser, observed: Inventory): seq<(string, string)> {
    if observed == [] then []
    else
      var last := observed[|observed| - 1];
      Wanted(parse, observed[..|observed| - 1]) + CidrsOf(parse, last.name, last.addresses)
  }

  ghost function Pairs(placed: seq<Placed>): seq<(string, string)> {
    seq(|placed|, i requires 0 <= i < |placed| => (placed[i].name, placed[i].cidr))
  }

  ghost function RowNames(rows: seq<(string, RowId)>): seq<string> {
    seq(|rows|, i requires 0 <= i < |rows| => rows[i].0)
  }

  ghost function ObservedNames(observed: Inventory): seq<string> {
    seq(|observed|, i requires 0 <= i < |observed| => observed[i].name)
  }

  lemma {:induction false} RunPrefix(c: Context, s: seq<Item>, t: seq<Item>, ids: seq<RowId>)
    requires |ids| <= |s| && |ids| <= |t| && s[..|ids|] == t[..|ids|]
    ensures Run(c, s, ids) == Run(c, t, ids)
    decreases |ids|
  {
    if ids != [] {
      var k := |ids| - 1;
      assert s[..k] == s[..|ids|][..k] && t[..k] == t[..|ids|][..k];
      assert s[k] == s[..|ids|][k] && t[k] == t[..|ids|][k];
      RunPrefix(c, s, t, ids[..k]);
    }
  }

  lemma {:induction false} RunIps(c: Context, script: seq<Item>, ids: seq<RowId>, addresses: seq<string>, k: nat)
    requires |ids| == k + |addresses| <= |script|
    requires script[k..|ids|] == IpItems(addresses)
    ensures var st0, st := Run(c, script, ids[..k]), Run(c, script, ids);
      && st.rows == st0.rows && st.name == st0.name
      && Pairs(st.placed) == Pairs(st0.placed) + CidrsOf(c.parse, st0.name, addresses)
    decreases |addresses|
  {
    hide Step;
    if addresses == [] {
      assert ids[..k] == ids;
    } else {
      var m := |ids| - 1;
      var rest := addresses[..|addresses| - 1];
      assert script[k..m] == IpItems(rest) by {
        assert script[k..m] == script[k..|ids|][..|rest|];
      }
      assert ids[..m][..k] == ids[..k];
      RunIps(c, script, ids[..m], rest, k);
      assert script[m] == script[k..|ids|][|rest|] == EnsureIp(addresses[|rest|]);
      StepIp(c, Run(c, script, ids[..m]), addresses[|rest|], ids[m]);
    }
  }

  lemma StepIp(c: Context, st: State, ip: string, id: RowId)
    ensures var st' := Step(c, st, EnsureIp(ip), id);
      && st'.rows == st.rows && st'.name == st.name
      && Pairs(st'.placed) == Pairs(st.placed)
         + (match ToCidr(c.parse, ip) case None => [] case Some(cidr) => [(st.name, cidr)])
  {
  }

  lemma RunIface(c: Context, script: seq<Item>, ids: seq<RowId>, k: nat, name: string)
    requires |ids| == k + 1 <= |script| && script[k] == EnsureIface(name)
    ensures var st0, st := Run(c, script, ids[..k]), Run(c, script, ids);
      && RowNames(st.rows) == RowNames(st0.rows) + [name] && st.name == name && st.placed == st0.placed
  {
  }

  lemma EnsureSplit(observed: Inventory)
    requires observed != []
    ensures var n := |observed| - 1;
      var script, k := EnsureItems(observed), |EnsureItems(observed[..n])|;
      && k + 1 + |observed[n].addresses| == |script|
      && script[..k] == EnsureItems(observed[..n])
      && script[k] == EnsureIface(observed[n].name)
      && script[k + 1..] == IpItems(observed[n].addresses)
  {
  }

  /** After phases 1 and 2 the rows and placements are exactly the report's, in its order. */
  lemma {:induction false} EnsureHistory(c: Context, observed: Inventory, ids: seq<RowId>)
    requires |ids| == |EnsureItems(observed)|
    ensures var st := Run(c, EnsureItems(observed), ids);
      RowNames(st.rows) == ObservedNames(observed) && Pairs(st.placed) == Wanted(c.parse, observed)
    decreases |observed|
  {
    if observed != [] {
      var n := |observed| - 1;
      var k := |EnsureItems(observed[..n])|;
      EnsureSplit(observed);
      EnsureHistory(c, observed[..n], ids[..k]);
      assert ObservedNames(observed) == ObservedNames(observed[..n]) + [observed[n].name];
      AppendHistory(c, EnsureItems(observed), ids, k, EnsureItems(observed[..n]), observed[n]);
    }
  }

  lemma AppendHistory(c: Context, script: seq<Item>, ids: seq<RowId>, k: nat, before: seq<Item>, last: Interface)
    requires k + 1 + |last.addresses| == |script| == |ids|
    requires k == |before| && script[..k] == before
    requires script[k] == EnsureIface(last.name) && script[k + 1..] == IpItems(last.addresses)
    ensures var st0, st := Run(c, before, ids[..k]), Run(c, script, ids);
      && RowNames(st.rows) == RowNames(st0.rows) + [last.name]
      && Pairs(st.placed) == Pairs(st0.placed) + CidrsOf(c.parse, last.name, last.addresses)
  {
    hide Run;
    RunPrefix(c, script, before, ids[..k]);
    assert ids[..k + 1][..k] == ids[..k];
    RunIface(c, script, ids[..k + 1], k, last.name);
    RunIps(c, script, ids, last.addresses, k + 1);
  }
}
