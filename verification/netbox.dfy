/**
  The imperative side of `netbox.rs`: the remote device seam, whose writes may
  fail before or after taking effect, and `reconcile` itself, with the source's
  loops, proved against `NetboxModel.Run`.
 */
module Netbox {
  import opened Wrappers
  import opened NetboxModel
  import opened NetboxEnsure
  import opened NetboxAttempts

  datatype PortError = Transport | Denied | NotFound | Invalid | Backend

  datatype SerialMatch = NoMatch | One(id: int, stamp: string) | Many(count: nat)

  lemma SomeRow(s: set<RowId>)
    ensures s == {} || exists x :: x in s
  {
    if forall x :: x !in s {
      assert s == {};
    }
  }

  /** An id no row of the table carries. */
  method FreshKey(keys: set<RowId>) returns (id: RowId)
    ensures id !in keys
  {
    id := 0;
    var left := keys;
    while left != {}
      invariant left <= keys && forall k | k in keys && k !in left :: k < id
      decreases left
    {
      SomeRow(left);
      var k :| k in left;
      if k >= id {
        id := k + 1;
      }
      left := left - {k};
    }
  }

  function Faults(e: Option<PortError>): nat {
    if e.Some? then 1 else 0
  }

  /** The devices that carry a serial. */
  ghost function Carriers(devices: map<int, Device>, serials: map<int, string>, serial: string): set<int> {
    set d | d in devices && d in serials && serials[d] == serial
  }

  /** NetBox: the devices, and the serials an operator gave them, which the sink never writes. */
  class NetboxDevices {
    var devices: map<int, Device>
    const serials: map<int, string>
    /** How many calls have failed. */
    ghost var faults: nat

    constructor (devices: map<int, Device>, serials: map<int, string>)
      ensures this.devices == devices && this.serials == serials
    {
      this.devices := devices;
      this.serials := serials;
      faults := 0;
    }

    ghost function Carrying(serial: string): set<int>
      reads this
    {
      Carriers(devices, serials, serial)
    }

    method MatchBySerial(serial: string) returns (r: Result<SerialMatch, PortError>)
      ensures r == Ok(NoMatch) ==> Carrying(serial) == {}
      ensures r.Ok? && r.value.One? ==>
                Carrying(serial) == {r.value.id} && r.value.stamp == devices[r.value.id].stamp
      ensures r.Ok? && r.value.Many? ==> |Carrying(serial)| == r.value.count > 1
    {
      if * {
        return Err(Backend);
      }
      if * {
        return Err(Invalid);
      }
      var found := set d | d in devices && d in serials && serials[d] == serial;
      if |found| == 0 {
        r := Ok(NoMatch);
      } else if |found| == 1 {
        SomeRow(found);
        var d :| d in found;
        assert found == {d} by {
          assert |found - {d}| == 0;
        }
        r := Ok(One(d, devices[d].stamp));
      } else {
        r := Ok(Many(|found|));
      }
    }

    /** The IP rows of one interface. */
    static method ListIps(ips: map<RowId, Ip>, iface: RowId) returns (r: seq<(RowId, string)>)
      ensures forall x | x in r :: x.0 in ips && ips[x.0] == Ip(x.1, iface)
      ensures forall ip | ip in ips && ips[ip].iface == iface :: (ip, ips[ip].address) in r
    {
      r := [];
      var left := ips.Keys;
      while left != {}
        invariant left <= ips.Keys
        invariant forall x | x in r :: x.0 in ips && ips[x.0] == Ip(x.1, iface)
        invariant forall ip | ip in ips && ip !in left && ips[ip].iface == iface :: (ip, ips[ip].address) in r
        decreases left
      {
        SomeRow(left);
        var ip :| ip in left;
        if ips[ip].iface == iface {
          r := r + [(ip, ips[ip].address)];
        }
        left := left - {ip};
      }
    }

    method ReadInterfaces(d: int) returns (r: Result<seq<NbInterface>, PortError>)
      requires d in devices && Sound(devices[d])
      ensures r.Ok? ==> Lists(r.value, devices[d])
    {
      if * {
        return Err(Transport);
      }
      var dev := devices[d];
      var rows: seq<NbInterface> := [];
      var left := dev.ifaces.Keys;
      while left != {}
        invariant left <= dev.ifaces.Keys
        invariant Partial(dev, rows, left)
        decreases left
      {
        SomeRow(left);
        var f :| f in left;
        var ips := ListIps(dev.ips, f);
        PartialGrows(dev, rows, left, NbInterface(f, dev.ifaces[f], ips));
        rows := rows + [NbInterface(f, dev.ifaces[f], ips)];
        left := left - {f};
      }
      PartialIsWhole(dev, rows);
      r := Ok(rows);
    }

    /** A write: it may fail without effect, take effect, or take effect and still report a failure. */
    method Perform(d: int, op: Op) returns (e: Option<PortError>)
      requires d in devices
      modifies this`devices, this`faults
      ensures devices == old(devices) || devices == old(devices)[d := Apply(old(devices)[d], op)]
      ensures e.None? ==> devices == old(devices)[d := Apply(old(devices)[d], op)]
      ensures faults == old(faults) + Faults(e)
    {
      if * {
        faults := faults + 1;
        return Some(Transport);
      }
      devices := devices[d := Apply(devices[d], op)];
      if * {
        faults := faults + 1;
        return Some(Backend);
      }
      e := None;
    }
  }

  /** The listing built so far covers the interfaces not in `left`. */
  ghost predicate Partial(d: Device, rows: seq<NbInterface>, left: set<RowId>) {
    && (forall i | 0 <= i < |rows| ::
          && rows[i].id in d.ifaces && rows[i].id !in left && d.ifaces[rows[i].id] == rows[i].name
          && (forall ip | ip in rows[i].ips :: ip.0 in d.ips && d.ips[ip.0] == Ip(ip.1, rows[i].id))
          && (forall ip | ip in d.ips && d.ips[ip].iface == rows[i].id :: (ip, d.ips[ip].address) in rows[i].ips))
    && (forall i, j | 0 <= i < j < |rows| :: rows[i].id != rows[j].id)
    && (forall r | r in d.ifaces && r !in left :: exists i :: 0 <= i < |rows| && rows[i].id == r)
  }

  lemma PartialGrows(d: Device, rows: seq<NbInterface>, left: set<RowId>, row: NbInterface)
    requires Partial(d, rows, left) && row.id in left && row.id in d.ifaces && row.name == d.ifaces[row.id]
    requires forall ip | ip in row.ips :: ip.0 in d.ips && d.ips[ip.0] == Ip(ip.1, row.id)
    requires forall ip | ip in d.ips && d.ips[ip].iface == row.id :: (ip, d.ips[ip].address) in row.ips
    ensures Partial(d, rows + [row], left - {row.id})
  {
    var rows' := rows + [row];
    forall r | r in d.ifaces && r !in left - {row.id}
      ensures exists i :: 0 <= i < |rows'| && rows'[i].id == r
    {
      if r == row.id {
        assert rows'[|rows|].id == r;
      } else {
        var i :| 0 <= i < |rows| && rows[i].id == r;
        assert rows'[i].id == r;
      }
    }
  }

  lemma PartialIsWhole(d: Device, rows: seq<NbInterface>)
    requires Sound(d) && Partial(d, rows, {})
    ensures Lists(rows, d)
  {
    forall ip | ip in d.ips
      ensures exists i :: 0 <= i < |rows| && rows[i].id == d.ips[ip].iface && (ip, d.ips[ip].address) in rows[i].ips
    {
      var i :| 0 <= i < |rows| && rows[i].id == d.ips[ip].iface;
    }
  }

  // --- The snapshot's indexes ---

  /** Of the first k interfaces, the last one with the name has this id. */
  ghost predicate LastNamed(current: seq<NbInterface>, k: nat, n: string, id: RowId)
    requires k <= |current|
  {
    exists i :: 0 <= i < k && current[i].name == n && current[i].id == id
      && forall j | i < j < k :: current[j].name != n
  }

  /** Collecting into a map: a doubled name maps to its last row. */
  method IndexByName(current: seq<NbInterface>) returns (m: map<string, RowId>)
    ensures forall n | n in m :: LastNamed(current, |current|, n, m[n])
    ensures forall i | 0 <= i < |current| :: current[i].name in m
  {
    m := map[];
    for k := 0 to |current|
      invariant forall n | n in m :: LastNamed(current, k, n, m[n])
      invariant forall i | 0 <= i < k :: current[i].name in m
    {
      ghost var m0 := m;
      m := m[current[k].name := current[k].id];
      forall n | n in m
        ensures LastNamed(current, k + 1, n, m[n])
      {
        if n == current[k].name {
          assert current[k].name == n && current[k].id == m[n];
        } else {
          var i :| && 0 <= i < k && current[i].name == n && current[i].id == m0[n]
                   && forall j | i < j < k :: current[j].name != n;
          assert current[i].name == n && current[i].id == m[n];
        }
      }
    }
  }

  /** The first row of the interface with the address. */
  ghost predicate FirstIn(iface: NbInterface, a: string, ip: RowId) {
    exists j :: 0 <= j < |iface.ips| && iface.ips[j] == (ip, a) && forall i | 0 <= i < j :: iface.ips[i].1 != a
  }

  ghost predicate Carries(iface: NbInterface, a: string) {
    exists j :: 0 <= j < |iface.ips| && iface.ips[j].1 == a
  }

  /** The first of the first k interfaces to carry the address, and its first row that does. */
  ghost predicate FirstCarrying(current: seq<NbInterface>, k: nat, a: string, v: (RowId, RowId))
    requires k <= |current|
  {
    exists i :: 0 <= i < k && current[i].id == v.1 && FirstIn(current[i], a, v.0)
                && forall j | 0 <= j < i :: !Carries(current[j], a)
  }

  /** The rows of one interface join the index; an address that is already there keeps its row. */
  method IndexRow(iface: NbInterface, m0: map<string, (RowId, RowId)>) returns (m: map<string, (RowId, RowId)>)
    ensures forall a | a in m0 :: a in m && m[a] == m0[a]
    ensures forall a | a in m && a !in m0 :: m[a].1 == iface.id && FirstIn(iface, a, m[a].0)
    ensures forall j | 0 <= j < |iface.ips| :: iface.ips[j].1 in m
  {
    m := m0;
    for j := 0 to |iface.ips|
      invariant forall a | a in m0 :: a in m && m[a] == m0[a]
      invariant forall a | a in m && a !in m0 :: m[a].1 == iface.id && FirstIn(iface, a, m[a].0)
      invariant forall i | 0 <= i < j :: iface.ips[i].1 in m
    {
      var ip := iface.ips[j];
      if ip.1 !in m {
        assert iface.ips[j] == (ip.0, ip.1) && forall i | 0 <= i < j :: iface.ips[i].1 != ip.1;
        m := m[ip.1 := (ip.0, iface.id)];
      }
    }
  }

  /** `entry().or_insert`: a doubled address maps to its first row. */
  method IndexByAddress(current: seq<NbInterface>) returns (m: map<string, (RowId, RowId)>)
    ensures forall a | a in m :: FirstCarrying(current, |current|, a, m[a])
    ensures forall i, j | 0 <= i < |current| && 0 <= j < |current[i].ips| :: current[i].ips[j].1 in m
  {
    m := map[];
    for k := 0 to |current|
      invariant forall a | a in m :: FirstCarrying(current, k, a, m[a])
      invariant forall i, j | 0 <= i < k && 0 <= j < |current[i].ips| :: current[i].ips[j].1 in m
    {
      ghost var m0 := m;
      m := IndexRow(current[k], m);
      forall a | a in m
        ensures FirstCarrying(current, k + 1, a, m[a])
      {
        StillFirst(current, k, m0, m, a);
      }
    }
  }

  lemma StillFirst(current: seq<NbInterface>, k: nat, m0: map<string, (RowId, RowId)>,
                   m: map<string, (RowId, RowId)>, a: string)
    requires k < |current| && a in m && (a in m0 ==> m[a] == m0[a] && FirstCarrying(current, k, a, m0[a]))
    requires a !in m0 ==> m[a].1 == current[k].id && FirstIn(current[k], a, m[a].0)
    requires forall i, j | 0 <= i < k && 0 <= j < |current[i].ips| :: current[i].ips[j].1 in m0
    ensures FirstCarrying(current, k + 1, a, m[a])
  {
    hide FirstIn;
    if a in m0 {
      var i :| && 0 <= i < k && current[i].id == m0[a].1 && FirstIn(current[i], a, m0[a].0)
               && forall j | 0 <= j < i :: !Carries(current[j], a);
      assert current[i].id == m[a].1;
    } else {
      assert forall j | 0 <= j < k :: !Carries(current[j], a);
    }
  }

  lemma NameIsStored(d: Device, current: seq<NbInterface>, n: string, id: RowId)
    requires Lists(current, d) && LastNamed(current, |current|, n, id)
    ensures id in d.ifaces && d.ifaces[id] == n
  {
    var i :| 0 <= i < |current| && current[i].name == n && current[i].id == id;
  }

  lemma AddressIsStored(d: Device, current: seq<NbInterface>, a: string, v: (RowId, RowId))
    requires Lists(current, d) && FirstCarrying(current, |current|, a, v)
    ensures v.0 in d.ips && d.ips[v.0] == Ip(a, v.1)
  {
    var i :| 0 <= i < |current| && current[i].id == v.1 && FirstIn(current[i], a, v.0);
    var j :| 0 <= j < |current[i].ips| && current[i].ips[j] == (v.0, a);
    assert current[i].ips[j] in current[i].ips;
  }

  lemma StoredIsListed(d: Device, current: seq<NbInterface>, ip: RowId)
    requires Lists(current, d) && ip in d.ips
    ensures exists i, j :: 0 <= i < |current| && 0 <= j < |current[i].ips| && current[i].ips[j].1 == d.ips[ip].address
  {
    var i :| 0 <= i < |current| && (ip, d.ips[ip].address) in current[i].ips;
    var j :| 0 <= j < |current[i].ips| && current[i].ips[j] == (ip, d.ips[ip].address);
    assert current[i].ips[j].1 == d.ips[ip].address;
  }

  lemma NamesAreListed(d: Device, current: seq<NbInterface>, r: RowId)
    requires Lists(current, d) && r in d.ifaces
    ensures exists i :: 0 <= i < |current| && current[i].name == d.ifaces[r]
  {
    var i :| 0 <= i < |current| && current[i].id == r;
    assert current[i].name == d.ifaces[r];
  }

  lemma IndexesAreExact(c: Context, current: seq<NbInterface>)
    requires Lists(current, c.base)
    requires forall n | n in c.byName :: LastNamed(current, |current|, n, c.byName[n])
    requires forall i | 0 <= i < |current| :: current[i].name in c.byName
    requires forall a | a in c.existing :: FirstCarrying(current, |current|, a, c.existing[a])
    requires forall i, j | 0 <= i < |current| && 0 <= j < |current[i].ips| :: current[i].ips[j].1 in c.existing
    ensures Indexed(c)
  {
    hide Lists, LastNamed, FirstCarrying;
    forall n | n in c.byName
      ensures c.byName[n] in c.base.ifaces && c.base.ifaces[c.byName[n]] == n
    {
      NameIsStored(c.base, current, n, c.byName[n]);
    }
    forall a | a in c.existing
      ensures c.existing[a].0 in c.base.ips && c.base.ips[c.existing[a].0] == Ip(a, c.existing[a].1)
    {
      AddressIsStored(c.base, current, a, c.existing[a]);
    }
    forall r | r in c.base.ifaces
      ensures c.base.ifaces[r] in c.byName
    {
      NamesAreListed(c.base, current, r);
    }
    forall ip | ip in c.base.ips
      ensures c.base.ips[ip].address in c.existing
    {
      StoredIsListed(c.base, current, ip);
    }
  }

  // --- reconcile ---

  /** How far a run has come: the items behind it and the row ids handed out. */
  datatype Progress = Progress(items: seq<Item>, ids: seq<RowId>)

  ghost predicate Reached(c: Context, p: Progress, dev: Device) {
    |p.items| == |p.ids| && FreshRun(c, p.items, p.ids) && dev == Run(c, p.items, p.ids).dev
  }

  ghost function At(c: Context, p: Progress): State
    requires |p.items| == |p.ids|
  {
    Run(c, p.items, p.ids)
  }

  ghost function Then(p: Progress, item: Item, id: RowId): Progress {
    Progress(p.items + [item], p.ids + [id])
  }

  lemma Extend(c: Context, p: Progress, item: Item, id: RowId, dev: Device)
    requires Reached(c, p, dev) && FreshId(dev, Write(c, At(c, p), item, id))
    ensures Reached(c, Then(p, item, id), Step(c, At(c, p), item, id).dev)
    ensures At(c, Then(p, item, id)) == Step(c, At(c, p), item, id)
  {
    var q := Then(p, item, id);
    assert q.ids[..|p.ids|] == p.ids;
    RunPrefix(c, q.items, p.items, p.ids);
    SameFresh(c, q.items, p.items, p.ids);
  }

  lemma {:induction false} SameFresh(c: Context, s: seq<Item>, t: seq<Item>, ids: seq<RowId>)
    requires |ids| <= |s| && |ids| <= |t| && s[..|ids|] == t[..|ids|] && FreshRun(c, t, ids)
    ensures FreshRun(c, s, ids)
    decreases |ids|
  {
    if ids != [] {
      var k := |ids| - 1;
      assert s[..k] == s[..|ids|][..k] && t[..k] == t[..|ids|][..k];
      assert s[k] == s[..|ids|][k] && t[k] == t[..|ids|][k];
      SameFresh(c, s, t, ids[..k]);
      RunPrefix(c, s, t, ids[..k]);
    }
  }

  /** Issue the write an item calls for, if any.  The run has advanced past the item iff the write took effect. */
  method Advance(nb: NetboxDevices, d: int, op: Option<Op>, ghost c: Context, ghost p0: Progress, ghost item: Item,
                 ghost id: RowId)
    returns (e: Option<PortError>, ghost p: Progress)
    requires d in nb.devices && Reached(c, p0, nb.devices[d])
    requires op == Write(c, At(c, p0), item, id) && FreshId(nb.devices[d], op)
    modifies nb`devices, nb`faults
    ensures d in nb.devices && nb.devices == old(nb.devices)[d := nb.devices[d]] && Reached(c, p, nb.devices[d])
    ensures nb.faults == old(nb.faults) + Faults(e)
    ensures p == p0 || p == Then(p0, item, id)
    ensures e.None? ==> p == Then(p0, item, id) && At(c, p) == Step(c, At(c, p0), item, id)
  {
    e, p := None, p0;
    Extend(c, p0, item, id, nb.devices[d]);
    StepDevice(c, At(c, p0), item, id);
    if op.Some? {
      e := nb.Perform(d, op.value);
    }
    if e.None? || nb.devices != old(nb.devices) {
      p := Then(p0, item, id);
    }
  }

  lemma StepDevice(c: Context, st: State, item: Item, id: RowId)
    ensures var op := Write(c, st, item, id);
      Step(c, st, item, id).dev == if op.Some? then Apply(st.dev, op.value) else st.dev
  {
  }

  /** The locals of phase 2 after one address. */
  lemma NotedIp(c: Context, st: State, ip: string, id: RowId)
    ensures var st', cidr := Step(c, st, EnsureIp(ip), id), ToCidr(c.parse, ip);
      && st'.row == st.row
      && (cidr.None? ==> st'.kept == st.kept && st'.p4 == st.p4 && st'.p6 == st.p6)
      && (cidr.Some? ==>
            var ipId := if cidr.value in c.existing then c.existing[cidr.value].0 else id;
            var v4 := IsIpv4Cidr(c.parse, cidr.value);
            && st'.kept == st.kept + {ipId}
            && st'.p4 == (if v4 && st.p4.None? then Some(ipId) else st.p4)
            && st'.p6 == (if !v4 && st.p6.None? then Some(ipId) else st.p6))
  {
  }

  /** The locals of a run that the loops carry. */
  ghost predicate Locals(st: State, row: RowId, kept: set<RowId>, p4: Option<RowId>, p6: Option<RowId>) {
    st.row == row && st.kept == kept && st.p4 == p4 && st.p6 == p6
  }

  /** The body of the address loop: `address` is stored and assigned to `row`. */
  method EnsureAddress(nb: NetboxDevices, d: int, existing: map<string, (RowId, RowId)>, parse: AddressParser,
                       row: RowId, address: string,
                       kept0: set<RowId>, p40: Option<RowId>, p60: Option<RowId>, ghost c: Context, ghost p0: Progress)
    returns (e: Option<PortError>, kept: set<RowId>, p4: Option<RowId>, p6: Option<RowId>, ghost p: Progress)
    requires d in nb.devices && Reached(c, p0, nb.devices[d]) && c.existing == existing && c.parse == parse
    requires Locals(At(c, p0), row, kept0, p40, p60)
    modifies nb`devices, nb`faults
    ensures d in nb.devices && nb.devices == old(nb.devices)[d := nb.devices[d]] && Reached(c, p, nb.devices[d])
    ensures nb.faults == old(nb.faults) + Faults(e)
    ensures p == p0 || p.items == p0.items + [EnsureIp(address)]
    ensures e.None? ==> p.items == p0.items + [EnsureIp(address)] && Locals(At(c, p), row, kept, p4, p6)
  {
    kept, p4, p6 := kept0, p40, p60;
    var id, op := 0, None;
    var cidr := ToCidr(parse, address);
    if cidr.Some? {
      if cidr.value in existing {
        id := existing[cidr.value].0;
        if existing[cidr.value].1 != row {
          op := Some(MoveIp(id, row));
        }
      } else {
        id := FreshKey(nb.devices[d].ips.Keys);
        op := Some(CreateIp(id, row, cidr.value));
      }
    }
    NotedIp(c, At(c, p0), address, id);
    e, p := Advance(nb, d, op, c, p0, EnsureIp(address), id);
    if e.None? && cidr.Some? {
      kept := kept + {id};
      if IsIpv4Cidr(parse, cidr.value) {
        p4 := if p4.None? then Some(id) else p4;
      } else {
        p6 := if p6.None? then Some(id) else p6;
      }
    }
  }

  /** Phase 2 for one interface: every observed address, in order. */
  method EnsureAddresses(nb: NetboxDevices, d: int, existing: map<string, (RowId, RowId)>, parse: AddressParser,
                         row: RowId, addresses: seq<string>,
                         kept0: set<RowId>, p40: Option<RowId>, p60: Option<RowId>, ghost c: Context,
                         ghost p0: Progress)
    returns (e: Option<PortError>, kept: set<RowId>, p4: Option<RowId>, p6: Option<RowId>, ghost p: Progress)
    requires d in nb.devices && Reached(c, p0, nb.devices[d]) && c.existing == existing && c.parse == parse
    requires Locals(At(c, p0), row, kept0, p40, p60)
    modifies nb`devices, nb`faults
    ensures d in nb.devices && nb.devices == old(nb.devices)[d := nb.devices[d]] && Reached(c, p, nb.devices[d])
    ensures nb.faults == old(nb.faults) + Faults(e)
    ensures p.items <= p0.items + IpItems(addresses)
    ensures e.None? ==> p.items == p0.items + IpItems(addresses) && Locals(At(c, p), row, kept, p4, p6)
  {
    hide Run, FreshRun;
    e, kept, p4, p6, p := None, kept0, p40, p60, p0;
    ghost var items := IpItems(addresses);
    for k := 0 to |addresses|
      invariant e.None? && d in nb.devices && nb.devices == old(nb.devices)[d := nb.devices[d]]
      invariant nb.faults == old(nb.faults)
      invariant Reached(c, p, nb.devices[d]) && Locals(At(c, p), row, kept, p4, p6)
      invariant p.items == p0.items + items[..k]
    {
      e, kept, p4, p6, p := EnsureAddress(nb, d, existing, parse, row, addresses[k], kept, p4, p6, c, p);
      assert items[..k + 1] == items[..k] + [EnsureIp(addresses[k])];
      if e.Some? {
        return;
      }
    }
    assert items[..|addresses|] == items;
  }

  /** Phases 1 and 2: every observed interface and its addresses. */
  method EnsurePhase(nb: NetboxDevices, d: int, byName: map<string, RowId>, existing: map<string, (RowId, RowId)>,
                     parse: AddressParser, observed: Inventory, ghost c: Context)
    returns (e: Option<PortError>, kept: set<RowId>, p4: Option<RowId>, p6: Option<RowId>, ghost p: Progress)
    requires d in nb.devices && c.base == nb.devices[d]
    requires c.byName == byName && c.existing == existing && c.parse == parse
    modifies nb`devices, nb`faults
    ensures d in nb.devices && nb.devices == old(nb.devices)[d := nb.devices[d]] && Reached(c, p, nb.devices[d])
    ensures nb.faults == old(nb.faults) + Faults(e)
    ensures p.items <= EnsureItems(observed)
    ensures e.None? ==> p.items == EnsureItems(observed)
    ensures e.None? ==> var st := At(c, p); st.kept == kept && st.p4 == p4 && st.p6 == p6
  {
    e, kept, p4, p6, p := None, {}, None, None, Progress([], []);
    var row := 0;
    for k := 0 to |observed|
      invariant e.None? && d in nb.devices && nb.devices == old(nb.devices)[d := nb.devices[d]]
      invariant nb.faults == old(nb.faults)
      invariant Reached(c, p, nb.devices[d]) && Locals(At(c, p), row, kept, p4, p6)
      invariant p.items == EnsureItems(observed[..k])
    {
      e, row, kept, p4, p6, p := EnsureInterface(nb, d, byName, existing, parse, observed[k], row, kept, p4, p6, c, p);
      EnsureItemsPrefix(observed, k);
      if e.Some? {
        return;
      }
    }
    assert observed[..|observed|] == observed;
  }

  lemma {:induction false} EnsureItemsPrefix(observed: Inventory, k: nat)
    requires k < |observed|
    ensures EnsureItems(observed[..k + 1])
            == EnsureItems(observed[..k]) + [EnsureIface(observed[k].name)] + IpItems(observed[k].addresses)
    ensures EnsureItems(observed[..k + 1]) <= EnsureItems(observed)
    decreases |observed| - k
  {
    assert observed[..k + 1][..k] == observed[..k];
    if k + 1 == |observed| {
      assert observed[..k + 1] == observed;
    } else {
      EnsureItemsPrefix(observed, k + 1);
    }
  }

  /** The body of the interface loop. */
  method EnsureInterface(nb: NetboxDevices, d: int, byName: map<string, RowId>, existing: map<string, (RowId, RowId)>,
                         parse: AddressParser, iface: Interface, row0: RowId,
                         kept0: set<RowId>, p40: Option<RowId>, p60: Option<RowId>, ghost c: Context,
                         ghost p0: Progress)
    returns (e: Option<PortError>, row: RowId, kept: set<RowId>, p4: Option<RowId>, p6: Option<RowId>,
             ghost p: Progress)
    requires d in nb.devices && Reached(c, p0, nb.devices[d])
    requires c.byName == byName && c.existing == existing && c.parse == parse
    requires Locals(At(c, p0), row0, kept0, p40, p60)
    modifies nb`devices, nb`faults
    ensures d in nb.devices && nb.devices == old(nb.devices)[d := nb.devices[d]] && Reached(c, p, nb.devices[d])
    ensures nb.faults == old(nb.faults) + Faults(e)
    ensures var items := p0.items + [EnsureIface(iface.name)] + IpItems(iface.addresses);
      p.items <= items && (e.None? ==> p.items == items)
    ensures e.None? ==> Locals(At(c, p), row, kept, p4, p6)
  {
    hide Run, FreshRun;
    row, kept, p4, p6 := 0, kept0, p40, p60;
    var op := None;
    if iface.name in byName {
      row := byName[iface.name];
    } else {
      row := FreshKey(nb.devices[d].ifaces.Keys);
      op := Some(CreateIface(row, iface.name));
    }
    e, p := Advance(nb, d, op, c, p0, EnsureIface(iface.name), row);
    if e.Some? {
      return;
    }
    e, kept, p4, p6, p := EnsureAddresses(nb, d, existing, parse, row, iface.addresses, kept, p4, p6, c, p);
  }

  /** Phase 4, first loop: drop the IPs that were not kept. */
  method DropAllAddresses(nb: NetboxDevices, d: int, current: seq<NbInterface>, kept: set<RowId>,
                          ghost c: Context, ghost p0: Progress)
    returns (e: Option<PortError>, ghost p: Progress)
    requires d in nb.devices && Reached(c, p0, nb.devices[d]) && At(c, p0).kept == kept
    modifies nb`devices, nb`faults
    ensures d in nb.devices && nb.devices == old(nb.devices)[d := nb.devices[d]] && Reached(c, p, nb.devices[d])
    ensures nb.faults == old(nb.faults) + Faults(e)
    ensures p.items <= p0.items + DropIps(current)
    ensures e.None? ==> p.items == p0.items + DropIps(current)
  {
    assert DropIps(current[..0]) == [];
    hide Run, FreshRun, DropIps, DropIpItems;
    e, p := None, p0;
    for k := 0 to |current|
      invariant e.None? && d in nb.devices && nb.devices == old(nb.devices)[d := nb.devices[d]]
      invariant nb.faults == old(nb.faults)
      invariant Reached(c, p, nb.devices[d]) && At(c, p).kept == kept
      invariant p.items == p0.items + DropIps(current[..k])
    {
      e, p := DropAddresses(nb, d, current[k].ips, kept, c, p);
      DropIpsPrefix(current, k);
      StillPrefix(p.items, p0.items, DropIps(current[..k]), DropIpItems(current[k].ips), DropIps(current));
      if e.Some? {
        return;
      }
    }
    assert current[..|current|] == current;
  }

  /** Phase 4, second loop: drop the interfaces that are not desired. */
  method DropInterfaces(nb: NetboxDevices, d: int, current: seq<NbInterface>, desired: set<string>,
                        ghost c: Context, ghost p0: Progress)
    returns (e: Option<PortError>, ghost p: Progress)
    requires d in nb.devices && Reached(c, p0, nb.devices[d]) && c.desired == desired
    modifies nb`devices, nb`faults
    ensures d in nb.devices && nb.devices == old(nb.devices)[d := nb.devices[d]] && Reached(c, p, nb.devices[d])
    ensures nb.faults == old(nb.faults) + Faults(e)
    ensures p.items <= p0.items + DropIfaces(current)
    ensures e.None? ==> p.items == p0.items + DropIfaces(current)
  {
    hide Run, FreshRun;
    e, p := None, p0;
    ghost var items := DropIfaces(current);
    for k := 0 to |current|
      invariant e.None? && d in nb.devices && nb.devices == old(nb.devices)[d := nb.devices[d]]
      invariant nb.faults == old(nb.faults)
      invariant Reached(c, p, nb.devices[d])
      invariant p.items == p0.items + items[..k]
    {
      var op := if current[k].name in desired then None else Some(DeleteIface(current[k].id));
      e, p := Advance(nb, d, op, c, p, DropIface(current[k].id, current[k].name), 0);
      assert items[..k + 1] == items[..k] + [DropIface(current[k].id, current[k].name)];
      if e.Some? {
        return;
      }
    }
    assert items[..|current|] == items;
  }

  lemma StillPrefix(items: seq<Item>, start: seq<Item>, done: seq<Item>, more: seq<Item>, all: seq<Item>)
    requires items <= start + done + more && done + more <= all
    ensures items <= start + all && start + done + more == start + (done + more)
  {
    assert start + done + more == start + (done + more);
    assert start + (done + more) <= start + all;
  }

  lemma {:induction false} DropIpsPrefix(current: seq<NbInterface>, k: nat)
    requires k < |current|
    ensures DropIps(current[..k + 1]) == DropIps(current[..k]) + DropIpItems(current[k].ips)
    ensures DropIps(current[..k + 1]) <= DropIps(current)
    decreases |current| - k
  {
    assert current[..k + 1][..k] == current[..k];
    if k + 1 == |current| {
      assert current[..k + 1] == current;
    } else {
      DropIpsPrefix(current, k + 1);
    }
  }

  method DropAddresses(nb: NetboxDevices, d: int, ips: seq<(RowId, string)>, kept: set<RowId>,
                       ghost c: Context, ghost p0: Progress)
    returns (e: Option<PortError>, ghost p: Progress)
    requires d in nb.devices && Reached(c, p0, nb.devices[d]) && At(c, p0).kept == kept
    modifies nb`devices, nb`faults
    ensures d in nb.devices && nb.devices == old(nb.devices)[d := nb.devices[d]] && Reached(c, p, nb.devices[d])
    ensures nb.faults == old(nb.faults) + Faults(e)
    ensures p.items <= p0.items + DropIpItems(ips)
    ensures e.None? ==> p.items == p0.items + DropIpItems(ips) && At(c, p).kept == kept
  {
    hide Run, FreshRun;
    e, p := None, p0;
    ghost var items := DropIpItems(ips);
    for k := 0 to |ips|
      invariant e.None? && d in nb.devices && nb.devices == old(nb.devices)[d := nb.devices[d]]
      invariant nb.faults == old(nb.faults)
      invariant Reached(c, p, nb.devices[d]) && At(c, p).kept == kept
      invariant p.items == p0.items + items[..k]
    {
      var op := if ips[k].0 in kept then None else Some(DeleteIp(ips[k].0));
      e, p := Advance(nb, d, op, c, p, DropIp(ips[k].0), 0);
      assert items[..k + 1] == items[..k] + [DropIp(ips[k].0)];
      if e.Some? {
        return;
      }
    }
    assert items[..|ips|] == items;
  }

  ghost predicate Follows(c: Context, current: seq<NbInterface>, observed: Inventory, p: Progress, dev: Device) {
    Reached(c, p, dev) && p.items <= Script(current, observed)
  }

  lemma FollowsTried(c: Context, current: seq<NbInterface>, observed: Inventory, p: Progress, dev: Device)
    returns (a: Attempt)
    requires Starts(c, current, observed) && Follows(c, current, observed, p, dev)
    ensures Tried(a, c.base, observed, c.host, c.parse) && Left(a, observed) == dev
    ensures p.items == Script(current, observed) ==> Finished(a, observed)
  {
    a := Attempt(c, current, p.ids);
    var script := Script(current, observed);
    assert script[..|p.ids|] == p.items[..|p.ids|];
    RunPrefix(c, script, p.items, p.ids);
    SameFresh(c, script, p.items, p.ids);
  }

  /**
    `reconcile`: it either reports a failure, having left the device as some
    prefix of the script leaves it, or succeeds, having run the whole script.
   */
  method Reconcile(nb: NetboxDevices, d: int, host: string, observed: Inventory, parse: AddressParser)
    returns (e: Option<PortError>, ghost a: Attempt)
    requires d in nb.devices && Sound(nb.devices[d])
    modifies nb`devices, nb`faults
    ensures d in nb.devices && nb.devices == old(nb.devices)[d := nb.devices[d]]
    ensures nb.faults == old(nb.faults) + Faults(e)
    ensures nb.devices == old(nb.devices)
            || (Tried(a, old(nb.devices)[d], observed, host, parse) && nb.devices[d] == Left(a, observed))
    ensures e.None? ==> Tried(a, old(nb.devices)[d], observed, host, parse) && Finished(a, observed)
                        && nb.devices[d] == Left(a, observed)
  {
    hide Run, FreshRun;
    ghost var base := nb.devices[d];
    a := Attempt(Context(base, map[], map[], {}, host, parse), [], []);
    var read := nb.ReadInterfaces(d);
    if read.Err? {
      nb.faults := nb.faults + 1;
      return Some(read.error), a;
    }
    var current := read.value;
    var byName := IndexByName(current);
    var existing := IndexByAddress(current);
    var desired := set i | 0 <= i < |observed| :: observed[i].name;
    ghost var c := Context(base, byName, existing, desired, host, parse);
    IndexesAreExact(c, current);
    ghost var p;
    e, p := Phases(nb, d, current, byName, existing, desired, host, observed, parse, c);
    a := FollowsTried(c, current, observed, p, nb.devices[d]);
  }

  method Phases(nb: NetboxDevices, d: int, current: seq<NbInterface>, byName: map<string, RowId>,
                existing: map<string, (RowId, RowId)>, desired: set<string>, host: string, observed: Inventory,
                parse: AddressParser, ghost c: Context)
    returns (e: Option<PortError>, ghost p: Progress)
    requires d in nb.devices && c == Context(nb.devices[d], byName, existing, desired, host, parse)
    modifies nb`devices, nb`faults
    ensures d in nb.devices && nb.devices == old(nb.devices)[d := nb.devices[d]]
    ensures nb.faults == old(nb.faults) + Faults(e)
    ensures Follows(c, current, observed, p, nb.devices[d])
    ensures e.None? ==> p.items == Script(current, observed)
  {
    hide Run, FreshRun, EnsureItems, DropIps, DropIfaces, Apply;
    var kept, p4, p6;
    e, kept, p4, p6, p := EnsurePhase(nb, d, byName, existing, parse, observed, c);
    ghost var script, n := Script(current, observed), EnsureItems(observed);
    assert script == n + [Finalize] + DropIps(current) + DropIfaces(current);
    if e.Some? {
      return;
    }
    e, p := Advance(nb, d, Some(FinalizeDevice(p4, p6, host)), c, p, Finalize, 0);
    if e.Some? {
      return;
    }
    e, p := DropAllAddresses(nb, d, current, kept, c, p);
    if e.Some? {
      return;
    }
    e, p := DropInterfaces(nb, d, current, desired, c, p);
  }
}
