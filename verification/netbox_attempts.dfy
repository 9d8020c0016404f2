/**
  Convergence: however many attempts abort, and wherever, the next attempt that
  succeeds leaves the same device a clean run would have left.
 */
module NetboxAttempts {
  import opened NetboxModel
  import opened NetboxEnsure
  import opened NetboxRuns
  import opened NetboxTheorems
  import opened NetboxExact
  import opened NetboxConverge

  /** One call of `reconcile`: the snapshot it read and the row ids handed out before it stopped. */
  datatype Attempt = Attempt(c: Context, current: seq<NbInterface>, ids: seq<RowId>)

  /** The attempt ran over `d` for this report, and stopped somewhere. */
  ghost predicate Tried(a: Attempt, d: Device, observed: Inventory, host: string, parse: AddressParser) {
    && a.c.base == d && a.c.host == host && a.c.parse == parse
    && Starts(a.c, a.current, observed)
    && |a.ids| <= |Script(a.current, observed)| && FreshRun(a.c, Script(a.current, observed), a.ids)
  }

  ghost predicate Finished(a: Attempt, observed: Inventory) {
    |a.ids| == |Script(a.current, observed)|
  }

  ghost function Left(a: Attempt, observed: Inventory): Device
    requires |a.ids| <= |Script(a.current, observed)|
  {
    Run(a.c, Script(a.current, observed), a.ids).dev
  }

  /** Every attempt starts from the device the previous one left. */
  ghost predicate Chain(d0: Device, attempts: seq<Attempt>, d: Device, observed: Inventory, host: string,
                        parse: AddressParser) {
    if attempts == [] then d == d0
    else
      var last := attempts[|attempts| - 1];
      && Chain(d0, attempts[..|attempts| - 1], last.c.base, observed, host, parse)
      && Tried(last, last.c.base, observed, host, parse)
      && d == Left(last, observed)
  }

  /** The report names no interface and no address twice. */
  ghost predicate Distinct(observed: Inventory, parse: AddressParser) {
    && (forall i, j | 0 <= i < j < |observed| :: observed[i].name != observed[j].name)
    && (forall i, j | 0 <= i < j < |Wanted(parse, observed)| ::
        Wanted(parse, observed)[i].1 != Wanted(parse, observed)[j].1)
  }

  // --- Aborted attempts do not spoil the precondition ---

  ghost function IfaceNames(items: seq<Item>): seq<string> {
    if items == [] then []
    else
      var n := |items| - 1;
      IfaceNames(items[..n]) + (if items[n].EnsureIface? then [items[n].name] else [])
  }

  lemma {:induction false} RowsAreIfaces(c: Context, script: seq<Item>, ids: seq<RowId>)
    requires |ids| <= |script| && forall i | 0 <= i < |ids| :: script[i].EnsureIface? || script[i].EnsureIp?
    ensures RowNames(Run(c, script, ids).rows) == IfaceNames(script[..|ids|])
    decreases |ids|
  {
    if ids != [] {
      var k := |ids| - 1;
      RowsAreIfaces(c, script, ids[..k]);
      assert script[..|ids|][..k] == script[..k];
      var st := Run(c, script, ids[..k]);
      var st' := Step(c, st, script[k], ids[k]);
      if script[k].EnsureIface? {
        assert RowNames(st'.rows) == RowNames(st.rows) + [script[k].name];
      } else {
        assert st'.rows == st.rows;
      }
    }
  }

  lemma {:induction false} IfaceNamesPrefix(items: seq<Item>, k: nat)
    requires k <= |items|
    ensures IfaceNames(items[..k]) <= IfaceNames(items)
  {
    if k == |items| {
      assert items[..k] == items;
    } else {
      var n := |items| - 1;
      assert items[..n][..k] == items[..k];
      IfaceNamesPrefix(items[..n], k);
    }
  }

  lemma {:induction false} IfaceNamesAppend(items: seq<Item>, addresses: seq<string>)
    ensures IfaceNames(items + IpItems(addresses)) == IfaceNames(items)
    decreases |addresses|
  {
    if addresses == [] {
      assert items + IpItems(addresses) == items;
    } else {
      var n := |addresses| - 1;
      var all := items + IpItems(addresses);
      assert all[..|all| - 1] == items + IpItems(addresses[..n]);
      IfaceNamesAppend(items, addresses[..n]);
    }
  }

  lemma {:induction false} IfaceNamesOf(observed: Inventory)
    ensures IfaceNames(EnsureItems(observed)) == ObservedNames(observed)
    decreases |observed|
  {
    if observed != [] {
      var n := |observed| - 1;
      var before := EnsureItems(observed[..n]) + [EnsureIface(observed[n].name)];
      IfaceNamesOf(observed[..n]);
      assert before[..|before| - 1] == EnsureItems(observed[..n]);
      IfaceNamesAppend(before, observed[n].addresses);
      assert ObservedNames(observed) == ObservedNames(observed[..n]) + [observed[n].name];
    }
  }

  /** In every prefix of phases 1 and 2 the rows' names are a prefix of the report's. */
  lemma RowsPrefix(c: Context, script: seq<Item>, observed: Inventory, k: nat, ids: seq<RowId>)
    requires k <= |EnsureItems(observed)| <= |script| && k <= |ids| <= |script|
    requires script[..|EnsureItems(observed)|] == EnsureItems(observed)
    ensures RowNames(Run(c, script, ids[..k]).rows) <= ObservedNames(observed)
  {
    var items := EnsureItems(observed);
    EnsureItemsEnsure(observed);
    assert forall i | 0 <= i < |items| :: script[i] == items[i];
    RowsAreIfaces(c, script, ids[..k]);
    assert script[..k] == items[..k];
    IfaceNamesPrefix(items, k);
    IfaceNamesOf(observed);
  }

  lemma EnsuredStaysOnce(c: Context, st: State, observed: Inventory)
    requires Indexed(c) && KeepsBase(c, st) && RowsRight(c, st)
    requires RowNames(st.rows) <= ObservedNames(observed) && StoredOnce(c.base, Names(observed))
    requires forall i, j | 0 <= i < j < |observed| :: observed[i].name != observed[j].name
    ensures StoredOnce(st.dev, Names(observed))
  {
    forall r1, r2 | r1 in st.dev.ifaces && r2 in st.dev.ifaces && st.dev.ifaces[r1] == st.dev.ifaces[r2]
                    && st.dev.ifaces[r1] in Names(observed)
      ensures r1 == r2
    {
      var n := st.dev.ifaces[r1];
      if r1 in c.base.ifaces && r2 in c.base.ifaces {
        assert c.base.ifaces[r1] == n && c.base.ifaces[r2] == n;
      } else if r1 !in c.base.ifaces && r2 !in c.base.ifaces {
        var i :| 0 <= i < |st.rows| && st.rows[i] == (n, r1);
        var j :| 0 <= j < |st.rows| && st.rows[j] == (n, r2);
        assert RowNames(st.rows)[i] == ObservedNames(observed)[i] && RowNames(st.rows)[j] == ObservedNames(observed)[j];
      }
    }
  }

  /** The device after any run that stopped in phases 1 or 2 is the ensured one; later it only loses interfaces. */
  lemma LaterIfaces(c: Context, script: seq<Item>, n: nat, g: nat, current: seq<NbInterface>, ids: seq<RowId>)
    requires Shape(script, n, g, current) && n < |ids| <= |script|
    ensures var e, d := Run(c, script, ids[..n]).dev, Run(c, script, ids).dev;
      forall r | r in d.ifaces :: r in e.ifaces && d.ifaces[r] == e.ifaces[r]
  {
    if |ids| <= g {
      RunFinalized(c, script, n, ids);
    } else {
      RunDropped(c, script, n, g, ids);
    }
  }

  lemma AttemptStaysOnce(a: Attempt, d: Device, observed: Inventory, host: string, parse: AddressParser)
    requires Tried(a, d, observed, host, parse) && Distinct(observed, parse) && StoredOnce(d, Names(observed))
    ensures StoredOnce(Left(a, observed), Names(observed))
  {
    var n, g := ScriptShape(a.current, observed);
    StaysOnceFrom(a.c, Script(a.current, observed), n, g, a.current, observed, a.ids);
  }

  lemma StaysOnceFrom(c: Context, script: seq<Item>, n: nat, g: nat, current: seq<NbInterface>,
                      observed: Inventory, ids: seq<RowId>)
    requires Indexed(c) && Shape(script, n, g, current) && |ids| <= |script| && FreshRun(c, script, ids)
    requires n == |EnsureItems(observed)| && script[..n] == EnsureItems(observed)
    requires StoredOnce(c.base, Names(observed))
    requires forall i, j | 0 <= i < j < |observed| :: observed[i].name != observed[j].name
    ensures StoredOnce(Run(c, script, ids).dev, Names(observed))
  {
    var k := if |ids| <= n then |ids| else n;
    EnsuredPrefix(c, script, observed, k, ids);
    RowsPrefix(c, script, observed, k, ids);
    EnsuredStaysOnce(c, Run(c, script, ids[..k]), observed);
    if |ids| <= n {
      assert ids[..k] == ids;
    } else {
      LaterIfaces(c, script, n, g, current, ids);
    }
  }

  /** After any number of attempts, aborted anywhere, the device is sound and still has one row per observed name. */
  lemma {:induction false} ChainKeeps(d0: Device, attempts: seq<Attempt>, d: Device, observed: Inventory,
                                      host: string, parse: AddressParser)
    requires Sound(d0) && Distinct(observed, parse) && StoredOnce(d0, Names(observed))
    requires Chain(d0, attempts, d, observed, host, parse)
    ensures Sound(d) && StoredOnce(d, Names(observed))
    decreases |attempts|
  {
    if attempts != [] {
      var last := attempts[|attempts| - 1];
      ChainKeeps(d0, attempts[..|attempts| - 1], last.c.base, observed, host, parse);
      AttemptStaysOnce(last, last.c.base, observed, host, parse);
      SoundRun(last.c, last.current, observed, last.ids);
    }
  }

  // --- The result ---

  ghost function StoredNames(d: Device): set<string> {
    set r | r in d.ifaces :: d.ifaces[r]
  }

  /** The addresses stored under each interface name. */
  ghost function NameAddresses(d: Device): map<string, set<string>> {
    map n | n in StoredNames(d) ::
      set ip | ip in d.ips && d.ips[ip].iface in d.ifaces && d.ifaces[d.ips[ip].iface] == n :: d.ips[ip].address
  }

  /** What the report asks for, in the same form. */
  ghost function Desired(names: set<string>, wanted: seq<(string, string)>): map<string, set<string>> {
    map n | n in names :: set i | 0 <= i < |wanted| && wanted[i].0 == n :: wanted[i].1
  }

  lemma ExactIsDesired(d: Device, names: set<string>, wanted: seq<(string, string)>)
    requires Exact(d, names, wanted)
    ensures NameAddresses(d) == Desired(names, wanted)
  {
    forall n | n in names
      ensures n in StoredNames(d)
    {
      var r :| r in d.ifaces && d.ifaces[r] == n;
    }
    assert StoredNames(d) == names;
    forall n | n in names
      ensures NameAddresses(d)[n] == Desired(names, wanted)[n]
    {
      forall a
        ensures a in NameAddresses(d)[n] <==> a in Desired(names, wanted)[n]
      {
        AddressIsDesired(d, names, wanted, n, a);
      }
    }
  }

  lemma AddressIsDesired(d: Device, names: set<string>, wanted: seq<(string, string)>, n: string, a: string)
    requires Exact(d, names, wanted) && n in names && n in StoredNames(d)
    ensures a in NameAddresses(d)[n] <==> a in Desired(names, wanted)[n]
  {
    if a in NameAddresses(d)[n] {
      var ip :| ip in d.ips && d.ips[ip].iface in d.ifaces && d.ifaces[d.ips[ip].iface] == n && d.ips[ip].address == a;
      var i :| 0 <= i < |wanted| && wanted[i] == (n, a);
      assert wanted[i].0 == n && wanted[i].1 == a;
    }
    if a in Desired(names, wanted)[n] {
      var i :| 0 <= i < |wanted| && wanted[i].0 == n && wanted[i].1 == a;
      assert wanted[i] in wanted;
      var ip :| ip in d.ips && d.ips[ip].address == a && d.ips[ip].iface in d.ifaces && d.ifaces[d.ips[ip].iface] == n;
    }
  }

  /** With a distinct report and one stored row per name, a run that succeeds settles the device. */
  lemma SuccessSettles(a: Attempt, d: Device, observed: Inventory, host: string, parse: AddressParser)
    requires Tried(a, d, observed, host, parse) && Finished(a, observed)
    requires Distinct(observed, parse) && StoredOnce(d, Names(observed))
    ensures Settled(Left(a, observed), observed, host, parse)
    ensures NameAddresses(Left(a, observed)) == Desired(Names(observed), Wanted(parse, observed))
  {
    ExactIff(a.c, a.current, observed, a.ids);
    PrimariesAndIds(a.c, a.current, observed, a.ids);
    ExactIsDesired(Left(a, observed), Names(observed), Wanted(parse, observed));
  }

  /**
    Any number of attempts that abort at any write, whether or not the failing
    write took effect, followed by one that succeeds, leaves the device showing
    exactly the report, and the same name-to-addresses state as a clean run.
   */
  lemma Converges(d0: Device, attempts: seq<Attempt>, d: Device, clean: Attempt, observed: Inventory,
                  host: string, parse: AddressParser)
    requires Sound(d0) && Distinct(observed, parse) && StoredOnce(d0, Names(observed))
    requires attempts != [] && Chain(d0, attempts, d, observed, host, parse)
    requires Finished(attempts[|attempts| - 1], observed)
    requires Tried(clean, d0, observed, host, parse) && Finished(clean, observed)
    ensures Settled(d, observed, host, parse)
    ensures NameAddresses(d) == NameAddresses(Left(clean, observed))
            == Desired(Names(observed), Wanted(parse, observed))
  {
    var last := attempts[|attempts| - 1];
    ChainKeeps(d0, attempts[..|attempts| - 1], last.c.base, observed, host, parse);
    SuccessSettles(last, last.c.base, observed, host, parse);
    SuccessSettles(clean, d0, observed, host, parse);
  }
}
