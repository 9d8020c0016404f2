/**
  The NetBox device a host is reconciled onto, and the exact sequence of steps
  `NetboxInventorySink::reconcile` takes over it.

  The nested loops of `reconcile` read only the snapshot taken at the start, so a
  run is a fold of `Step` over a `Script` fixed by that snapshot and by the
  observed inventory.  `ids` is the list of row ids NetBox hands out, one
  candidate per script item (ignored where nothing is created), and its length is
  the progress of the run: an attempt that aborts, whether or not the failing
  write took effect, has left the device as `Run` of some prefix.
 */
module NetboxModel {
  import opened Wrappers

  type RowId = int

  /** An IP row: its CIDR text and the interface row it is assigned to. */
  datatype Ip = Ip(address: string, iface: RowId)

  /** The agent-managed part of one NetBox device. */
  datatype Device = Device(
    ifaces: map<RowId, string>,
    ips: map<RowId, Ip>,
    primary4: Option<RowId>,
    primary6: Option<RowId>,
    stamp: string)

  /** One interface of the agent's report. */
  datatype Interface = Interface(name: string, addresses: seq<string>)

  type Inventory = seq<Interface>

  datatype Family = V4 | V6

  /** The standard library's address parser, which the source calls as a black box. */
  type AddressParser = string -> Option<Family>

  /** No address text contains the `/` that separates it from a prefix length. */
  ghost predicate ParsesBareAddresses(parse: AddressParser) {
    forall s | parse(s).Some? :: '/' !in s
  }

  function ToCidr(parse: AddressParser, ip: string): Option<string> {
    match parse(ip)
    case Some(V4) => Some(ip + "/32")
    case Some(V6) => Some(ip + "/128")
    case None => None
  }

  /** The text before the first `/`, or all of it. */
  function BeforeSlash(s: string): string {
    if s == [] || s[0] == '/' then [] else [s[0]] + BeforeSlash(s[1..])
  }

  predicate IsIpv4Cidr(parse: AddressParser, cidr: string) {
    parse(BeforeSlash(cidr)) == Some(V4)
  }

  /** What a run knows before its first write: the device, the indexes built from the snapshot, the report. */
  datatype Context = Context(
    base: Device,
    byName: map<string, RowId>,
    existing: map<string, (RowId, RowId)>,
    desired: set<string>,
    host: string,
    parse: AddressParser)

  /** One unit of work of a run, in the order the loops visit them. */
  datatype Item =
    | EnsureIface(name: string)
    | EnsureIp(ip: string)
    | Finalize
    | DropIp(ipId: RowId)
    | DropIface(ifaceId: RowId, name: string)

  /** A write that reached NetBox. */
  datatype Op =
    | CreateIface(iface: RowId, name: string)
    | CreateIp(ip: RowId, iface: RowId, cidr: string)
    | MoveIp(ip: RowId, iface: RowId)
    | FinalizeDevice(primary4: Option<RowId>, primary6: Option<RowId>, host: string)
    | DeleteIp(ip: RowId)
    | DeleteIface(iface: RowId)

  /** The effect of one NetBox write on the device. */
  function Apply(d: Device, op: Op): Device {
    match op
    case CreateIface(r, name) => d.(ifaces := d.ifaces[r := name])
    case CreateIp(ip, r, cidr) => d.(ips := d.ips[ip := Ip(cidr, r)])
    case MoveIp(ip, r) => if ip in d.ips then d.(ips := d.ips[ip := d.ips[ip].(iface := r)]) else d
    case FinalizeDevice(p4, p6, host) => d.(primary4 := p4, primary6 := p6, stamp := host)
    case DeleteIp(ip) => d.(ips := d.ips - {ip})
    case DeleteIface(r) => d.(ifaces := d.ifaces - {r})
  }

  /** An observed address and the rows it was given. */
  datatype Placed = Placed(name: string, row: RowId, cidr: string, ip: RowId)

  /** The run's state: the device plus the locals of `reconcile` and a history of what was placed and written. */
  datatype State = State(
    dev: Device,
    name: string,
    row: RowId,
    kept: set<RowId>,
    p4: Option<RowId>,
    p6: Option<RowId>,
    rows: seq<(string, RowId)>,
    placed: seq<Placed>,
    ops: seq<Op>)

  function Init(c: Context): State {
    State(c.base, "", 0, {}, None, None, [], [], [])
  }

  /** The write an item performs in a given state, if any; `id` is the row id a create would return. */
  function Write(c: Context, st: State, item: Item, id: RowId): Option<Op> {
    match item
    case EnsureIface(name) =>
      if name in c.byName then None else Some(CreateIface(id, name))
    case EnsureIp(ip) => (
      match ToCidr(c.parse, ip)
      case None => None
      case Some(cidr) =>
        if cidr !in c.existing then Some(CreateIp(id, st.row, cidr))
        else if c.existing[cidr].1 != st.row then Some(MoveIp(c.existing[cidr].0, st.row))
        else None)
    case Finalize => Some(FinalizeDevice(st.p4, st.p6, c.host))
    case DropIp(ip) => if ip in st.kept then None else Some(DeleteIp(ip))
    case DropIface(r, name) => if name in c.desired then None else Some(DeleteIface(r))
  }

  function Written(st: State, op: Option<Op>): State {
    match op
    case None => st
    case Some(op) => st.(dev := Apply(st.dev, op), ops := st.ops + [op])
  }

  /** The locals `reconcile` updates once the item's write has succeeded. */
  function Noted(c: Context, st: State, item: Item, id: RowId): State {
    match item
    case EnsureIface(name) =>
      var row := if name in c.byName then c.byName[name] else id;
      st.(name := name, row := row, rows := st.rows + [(name, row)])
    case EnsureIp(ip) => (
      match ToCidr(c.parse, ip)
      case None => st
      case Some(cidr) =>
        var ipId := if cidr in c.existing then c.existing[cidr].0 else id;
        var v4 := IsIpv4Cidr(c.parse, cidr);
        st.(kept := st.kept + {ipId},
            p4 := if v4 && st.p4.None? then Some(ipId) else st.p4,
            p6 := if !v4 && st.p6.None? then Some(ipId) else st.p6,
            placed := st.placed + [Placed(st.name, st.row, cidr, ipId)]))
    case _ => st
  }

  function Step(c: Context, st: State, item: Item, id: RowId): State {
    Noted(c, Written(st, Write(c, st, item, id)), item, id)
  }

  /** The state after the first |ids| items of the script. */
  function Run(c: Context, script: seq<Item>, ids: seq<RowId>): State
    requires |ids| <= |script|
    decreases |ids|
  {
    if ids == [] then Init(c)
    else
      var k := |ids| - 1;
      Step(c, Run(c, script, ids[..k]), script[k], ids[k])
  }

  /** NetBox never hands out an id that names a live row of the same table. */
  predicate FreshId(d: Device, op: Option<Op>) {
    match op
    case Some(CreateIface(r, _)) => r !in d.ifaces
    case Some(CreateIp(ip, _, _)) => ip !in d.ips
    case _ => true
  }

  /** Every id a run was handed was fresh when it was handed out. */
  ghost predicate FreshRun(c: Context, script: seq<Item>, ids: seq<RowId>)
    requires |ids| <= |script|
    decreases |ids|
  {
    ids == [] ||
    (var k := |ids| - 1;
     var st := Run(c, script, ids[..k]);
     FreshRun(c, script, ids[..k]) && FreshId(st.dev, Write(c, st, script[k], ids[k])))
  }

  // --- The script ---

  function IpItems(addresses: seq<string>): seq<Item> {
    seq(|addresses|, i requires 0 <= i < |addresses| => EnsureIp(addresses[i]))
  }

  /** Phases 1 and 2: every observed interface, then its addresses. */
  function EnsureItems(observed: Inventory): seq<Item> {
    if observed == [] then []
    else
      var last := observed[|observed| - 1];
      EnsureItems(observed[..|observed| - 1]) + [EnsureIface(last.name)] + IpItems(last.addresses)
  }

  /** An interface as `read_interfaces` reports it. */
  datatype NbInterface = NbInterface(id: RowId, name: string, ips: seq<(RowId, string)>)

  function DropIpItems(ips: seq<(RowId, string)>): seq<Item> {
    seq(|ips|, i requires 0 <= i < |ips| => DropIp(ips[i].0))
  }

  /** Phase 4, first loop: the IPs of every interface in the snapshot. */
  function DropIps(current: seq<NbInterface>): seq<Item> {
    if current == [] then []
    else DropIps(current[..|current| - 1]) + DropIpItems(current[|current| - 1].ips)
  }

  /** Phase 4, second loop: the interfaces of the snapshot. */
  function DropIfaces(current: seq<NbInterface>): seq<Item> {
    seq(|current|, i requires 0 <= i < |current| => DropIface(current[i].id, current[i].name))
  }

  function Script(current: seq<NbInterface>, observed: Inventory): seq<Item> {
    EnsureItems(observed) + [Finalize] + DropIps(current) + DropIfaces(current)
  }

  // --- What the snapshot says about the device ---

  /** Foreign keys hold: every IP sits on a live interface and primaries name live IPs. */
  ghost predicate Sound(d: Device) {
    && (forall ip | ip in d.ips :: d.ips[ip].iface in d.ifaces)
    && (d.primary4.Some? ==> d.primary4.value in d.ips)
    && (d.primary6.Some? ==> d.primary6.value in d.ips)
  }

  /** `current` lists exactly the device's rows, in some order. */
  ghost predicate Lists(current: seq<NbInterface>, d: Device) {
    && (forall i | 0 <= i < |current| ::
          && current[i].id in d.ifaces && d.ifaces[current[i].id] == current[i].name
          && (forall ip | ip in current[i].ips :: ip.0 in d.ips && d.ips[ip.0] == Ip(ip.1, current[i].id)))
    && (forall i, j | 0 <= i < j < |current| :: current[i].id != current[j].id)
    && (forall r | r in d.ifaces :: exists i :: 0 <= i < |current| && current[i].id == r)
    && (forall ip | ip in d.ips ::
          exists i :: 0 <= i < |current| && current[i].id == d.ips[ip].iface
                      && (ip, d.ips[ip].address) in current[i].ips)
  }

  /** The two indexes are exact: a name or address is a key iff some row carries it, and maps to such a row. */
  ghost predicate Indexed(c: Context) {
    && (forall n | n in c.byName :: c.byName[n] in c.base.ifaces && c.base.ifaces[c.byName[n]] == n)
    && (forall r | r in c.base.ifaces :: c.base.ifaces[r] in c.byName)
    && (forall a | a in c.existing ::
          c.existing[a].0 in c.base.ips && c.base.ips[c.existing[a].0] == Ip(a, c.existing[a].1))
    && (forall ip | ip in c.base.ips :: c.base.ips[ip].address in c.existing)
  }

  ghost function Names(observed: Inventory): set<string> {
    set i | 0 <= i < |observed| :: observed[i].name
  }

  /** A run's context is the one `reconcile` builds from a snapshot of its device. */
  ghost predicate Starts(c: Context, current: seq<NbInterface>, observed: Inventory) {
    Sound(c.base) && Lists(current, c.base) && Indexed(c) && c.desired == Names(observed)
  }
}
