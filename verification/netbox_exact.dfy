/**
  When a successful `reconcile` leaves exactly the observed interfaces and
  addresses, with one row each: a condition on the stored rows and the report
  that is both sufficient and necessary.
 */
module NetboxExact {
  import opened NetboxModel
  import opened NetboxEnsure
  import opened NetboxRuns

  /** Some IP row with this address sits on an interface of this name. */
  ghost predicate HasRow(d: Device, pair: (string, string)) {
    exists ip :: ip in d.ips && d.ips[ip].address == pair.1 && d.ips[ip].iface in d.ifaces
                 && d.ifaces[d.ips[ip].iface] == pair.0
  }

  ghost predicate NamesUnique(d: Device) {
    forall r1, r2 | r1 in d.ifaces && r2 in d.ifaces && d.ifaces[r1] == d.ifaces[r2] :: r1 == r2
  }

  /** The device carries exactly the names and (name, address) pairs, one row each. */
  ghost predicate Exact(d: Device, names: set<string>, wanted: seq<(string, string)>) {
    && NamesUnique(d)
    && (forall r | r in d.ifaces :: d.ifaces[r] in names)
    && (forall n | n in names :: exists r :: r in d.ifaces && d.ifaces[r] == n)
    && (forall p, q | p in d.ips && q in d.ips && d.ips[p] == d.ips[q] :: p == q)
    && (forall ip | ip in d.ips ::
          d.ips[ip].iface in d.ifaces && (d.ifaces[d.ips[ip].iface], d.ips[ip].address) in wanted)
    && (forall pair | pair in wanted :: HasRow(d, pair))
  }

  ghost predicate StoredName(d: Device, name: string) {
    exists r :: r in d.ifaces && d.ifaces[r] == name
  }

  ghost predicate StoredAddress(d: Device, cidr: string) {
    exists ip :: ip in d.ips && d.ips[ip].address == cidr
  }

  /** None of the names has two stored rows. */
  ghost predicate StoredOnce(d: Device, names: set<string>) {
    forall r1, r2 | r1 in d.ifaces && r2 in d.ifaces && d.ifaces[r1] == d.ifaces[r2] && d.ifaces[r1] in names ::
      r1 == r2
  }

  /** Each observed name has one stored row, or none and is observed once. */
  ghost predicate OneRowPerName(d: Device, observed: Inventory) {
    && StoredOnce(d, Names(observed))
    && (forall i, j | 0 <= i < j < |observed| && observed[i].name == observed[j].name ::
          StoredName(d, observed[i].name))
  }

  /** An address wanted twice is wanted on one name if it is stored, and on different names if it is not. */
  ghost predicate OneRowPerAddress(d: Device, wanted: seq<(string, string)>) {
    forall i, j | 0 <= i < j < |wanted| && wanted[i].1 == wanted[j].1 ::
      StoredAddress(d, wanted[i].1) <==> wanted[i].0 == wanted[j].0
  }

  /** The ensured state of a completed run and the report it answers. */
  ghost predicate Answers(c: Context, e: State, observed: Inventory) {
    && Indexed(c) && c.desired == Names(observed) && Ensured(c, e)
    && RowNames(e.rows) == ObservedNames(observed) && Pairs(e.placed) == Wanted(c.parse, observed)
  }

  lemma StoredIsIndexed(c: Context, name: string, cidr: string)
    requires Indexed(c)
    ensures StoredName(c.base, name) <==> name in c.byName
    ensures StoredAddress(c.base, cidr) <==> cidr in c.existing
  {
    if name in c.byName {
      var r := c.byName[name];
      assert r in c.base.ifaces && c.base.ifaces[r] == name;
      assert StoredName(c.base, name);
    }
    if StoredName(c.base, name) {
      var r :| r in c.base.ifaces && c.base.ifaces[r] == name;
    }
    if cidr in c.existing {
      var ip := c.existing[cidr].0;
      assert ip in c.base.ips && c.base.ips[ip].address == cidr;
      assert StoredAddress(c.base, cidr);
    }
    if StoredAddress(c.base, cidr) {
      var ip :| ip in c.base.ips && c.base.ips[ip].address == cidr;
    }
  }

  lemma RowAt(c: Context, e: State, observed: Inventory, i: nat)
    requires Answers(c, e, observed) && i < |observed|
    ensures |e.rows| == |observed| && e.rows[i].0 == observed[i].name
    ensures e.rows[i].1 in e.dev.ifaces && e.dev.ifaces[e.rows[i].1] == observed[i].name
    ensures e.rows[i].1 in Outcome(c, e).ifaces && Outcome(c, e).ifaces[e.rows[i].1] == observed[i].name
    ensures observed[i].name in c.byName ==> e.rows[i].1 == c.byName[observed[i].name]
    ensures observed[i].name !in c.byName ==> e.rows[i].1 !in c.base.ifaces
  {
    assert RowNames(e.rows)[i] == ObservedNames(observed)[i];
  }

  lemma PlacedAt(c: Context, e: State, observed: Inventory, i: nat)
    requires Answers(c, e, observed) && i < |Wanted(c.parse, observed)|
    ensures |e.placed| == |Wanted(c.parse, observed)|
    ensures (e.placed[i].name, e.placed[i].cidr) == Wanted(c.parse, observed)[i]
    ensures e.placed[i].row in e.dev.ifaces && e.dev.ifaces[e.placed[i].row] == e.placed[i].name
    ensures e.placed[i].name in c.desired
    ensures e.placed[i].ip in Outcome(c, e).ips && Outcome(c, e).ips[e.placed[i].ip] == e.dev.ips[e.placed[i].ip]
  {
    assert Pairs(e.placed)[i] == Wanted(c.parse, observed)[i];
    var j :| 0 <= j < |e.rows| && e.rows[j] == (e.placed[i].name, e.placed[i].row);
    assert RowNames(e.rows)[j] == ObservedNames(observed)[j] == observed[j].name;
  }

  /** Where a kept IP came from. */
  lemma KeptFrom(c: Context, e: State, observed: Inventory, ip: RowId) returns (i: nat)
    requires Answers(c, e, observed) && ip in Outcome(c, e).ips
    ensures i < |e.placed| == |Wanted(c.parse, observed)|
    ensures e.placed[i].ip == ip && e.placed[i].row == e.dev.ips[ip].iface && e.placed[i].cidr == e.dev.ips[ip].address
  {
    i :| 0 <= i < |e.placed| && e.placed[i].ip == ip && e.placed[i].row == e.dev.ips[ip].iface;
    assert |Pairs(e.placed)| == |e.placed|;
  }

  // --- The condition suffices ---

  lemma NamesBecomeUnique(c: Context, e: State, observed: Inventory, r1: RowId, r2: RowId)
    requires Answers(c, e, observed) && OneRowPerName(c.base, observed)
    requires r1 in Outcome(c, e).ifaces && r2 in Outcome(c, e).ifaces
    requires Outcome(c, e).ifaces[r1] == Outcome(c, e).ifaces[r2]
    ensures r1 == r2
  {
    var n := e.dev.ifaces[r1];
    if r1 in c.base.ifaces && r2 in c.base.ifaces {
      assert c.base.ifaces[r1] == n && c.base.ifaces[r2] == n;
    } else if r1 !in c.base.ifaces && r2 !in c.base.ifaces {
      var i :| 0 <= i < |e.rows| && e.rows[i] == (n, r1);
      var j :| 0 <= j < |e.rows| && e.rows[j] == (n, r2);
      assert RowNames(e.rows)[i] == ObservedNames(observed)[i] && RowNames(e.rows)[j] == ObservedNames(observed)[j];
      StoredIsIndexed(c, n, "");
      RowAt(c, e, observed, i);
    }
  }

  lemma IpsBecomeUnique(c: Context, e: State, observed: Inventory, p: RowId, q: RowId)
    requires Answers(c, e, observed) && OneRowPerAddress(c.base, Wanted(c.parse, observed))
    requires p in Outcome(c, e).ips && q in Outcome(c, e).ips && Outcome(c, e).ips[p] == Outcome(c, e).ips[q]
    ensures p == q
  {
    var i := KeptFrom(c, e, observed, p);
    var j := KeptFrom(c, e, observed, q);
    PlacedAt(c, e, observed, i);
    PlacedAt(c, e, observed, j);
    StoredIsIndexed(c, "", e.placed[i].cidr);
  }

  lemma WantedGetsRow(c: Context, e: State, observed: Inventory, i: nat)
    requires Answers(c, e, observed) && OneRowPerAddress(c.base, Wanted(c.parse, observed))
    requires i < |Wanted(c.parse, observed)|
    ensures HasRow(Outcome(c, e), Wanted(c.parse, observed)[i])
  {
    PlacedAt(c, e, observed, i);
    var p := e.placed[i];
    var j := KeptFrom(c, e, observed, p.ip);
    PlacedAt(c, e, observed, j);
    StoredIsIndexed(c, "", p.cidr);
    assert e.placed[j].name == p.name by {
      if p.cidr !in c.existing {
        assert e.dev.ips[p.ip].iface == p.row;
      }
    }
    assert e.placed[j].row in Outcome(c, e).ifaces;
  }

  lemma OutcomeNames(c: Context, e: State, observed: Inventory, n: string)
    requires Answers(c, e, observed) && n in Names(observed)
    ensures exists r :: r in Outcome(c, e).ifaces && Outcome(c, e).ifaces[r] == n
  {
    var i :| 0 <= i < |observed| && observed[i].name == n;
    RowAt(c, e, observed, i);
  }

  lemma OutcomeIsWanted(c: Context, e: State, observed: Inventory, ip: RowId)
    requires Answers(c, e, observed) && ip in Outcome(c, e).ips
    ensures var d := Outcome(c, e);
      d.ips[ip].iface in d.ifaces && (d.ifaces[d.ips[ip].iface], d.ips[ip].address) in Wanted(c.parse, observed)
  {
    var i := KeptFrom(c, e, observed, ip);
    PlacedAt(c, e, observed, i);
  }

  lemma ConditionSuffices(c: Context, e: State, observed: Inventory)
    requires Answers(c, e, observed)
    requires OneRowPerName(c.base, observed) && OneRowPerAddress(c.base, Wanted(c.parse, observed))
    ensures Exact(Outcome(c, e), Names(observed), Wanted(c.parse, observed))
  {
    var d, wanted := Outcome(c, e), Wanted(c.parse, observed);
    forall r1, r2 | r1 in d.ifaces && r2 in d.ifaces && d.ifaces[r1] == d.ifaces[r2]
      ensures r1 == r2
    {
      NamesBecomeUnique(c, e, observed, r1, r2);
    }
    forall n | n in Names(observed)
      ensures exists r :: r in d.ifaces && d.ifaces[r] == n
    {
      OutcomeNames(c, e, observed, n);
    }
    forall p, q | p in d.ips && q in d.ips && d.ips[p] == d.ips[q]
      ensures p == q
    {
      IpsBecomeUnique(c, e, observed, p, q);
    }
    forall ip | ip in d.ips
      ensures d.ips[ip].iface in d.ifaces && (d.ifaces[d.ips[ip].iface], d.ips[ip].address) in wanted
    {
      OutcomeIsWanted(c, e, observed, ip);
    }
    forall pair | pair in wanted
      ensures HasRow(d, pair)
    {
      var i :| 0 <= i < |wanted| && wanted[i] == pair;
      WantedGetsRow(c, e, observed, i);
    }
  }

  // --- The condition is necessary ---

  lemma NameConditionNeeded(c: Context, e: State, observed: Inventory)
    requires Answers(c, e, observed) && NamesUnique(Outcome(c, e))
    ensures OneRowPerName(c.base, observed)
  {
    var d := Outcome(c, e);
    forall r1, r2 | r1 in c.base.ifaces && r2 in c.base.ifaces && c.base.ifaces[r1] == c.base.ifaces[r2]
                    && c.base.ifaces[r1] in Names(observed)
      ensures r1 == r2
    {
      assert r1 in d.ifaces && r2 in d.ifaces && d.ifaces[r1] == d.ifaces[r2];
    }
    forall i, j | 0 <= i < j < |observed| && observed[i].name == observed[j].name
      ensures StoredName(c.base, observed[i].name)
    {
      StoredIsIndexed(c, observed[i].name, "");
      RowAt(c, e, observed, i);
      RowAt(c, e, observed, j);
    }
  }

  lemma AddressConditionNeeded(c: Context, e: State, observed: Inventory, i: nat, j: nat)
    requires Answers(c, e, observed) && Exact(Outcome(c, e), Names(observed), Wanted(c.parse, observed))
    requires i < j < |Wanted(c.parse, observed)| && Wanted(c.parse, observed)[i].1 == Wanted(c.parse, observed)[j].1
    ensures StoredAddress(c.base, Wanted(c.parse, observed)[i].1)
            <==> Wanted(c.parse, observed)[i].0 == Wanted(c.parse, observed)[j].0
  {
    var d, wanted := Outcome(c, e), Wanted(c.parse, observed);
    var cidr := wanted[i].1;
    StoredIsIndexed(c, "", cidr);
    PlacedAt(c, e, observed, i);
    PlacedAt(c, e, observed, j);
    if cidr in c.existing {
      assert wanted[i] in wanted && wanted[j] in wanted;
      var p :| p in d.ips && d.ips[p].address == cidr && d.ips[p].iface in d.ifaces
        && d.ifaces[d.ips[p].iface] == wanted[i].0;
      var q :| q in d.ips && d.ips[q].address == cidr && d.ips[q].iface in d.ifaces
        && d.ifaces[d.ips[q].iface] == wanted[j].0;
      var a := KeptFrom(c, e, observed, p);
      var b := KeptFrom(c, e, observed, q);
      assert p == c.existing[cidr].0 && q == c.existing[cidr].0;
    }
  }

  /**
    A successful reconcile leaves exactly the observed state if and only if the
    stored rows and the report satisfy the two conditions above.
   */
  lemma ExactIff(c: Context, current: seq<NbInterface>, observed: Inventory, ids: seq<RowId>)
    requires Starts(c, current, observed)
    requires |ids| == |Script(current, observed)| && FreshRun(c, Script(current, observed), ids)
    ensures Exact(Run(c, Script(current, observed), ids).dev, Names(observed), Wanted(c.parse, observed))
            <==> OneRowPerName(c.base, observed) && OneRowPerAddress(c.base, Wanted(c.parse, observed))
  {
    var e := Completed(c, current, observed, ids);
    assert Answers(c, e, observed);
    if OneRowPerName(c.base, observed) && OneRowPerAddress(c.base, Wanted(c.parse, observed)) {
      ConditionSuffices(c, e, observed);
    }
    if Exact(Outcome(c, e), Names(observed), Wanted(c.parse, observed)) {
      NameConditionNeeded(c, e, observed);
      ConditionNeeded(c, e, observed);
    }
  }

  lemma ConditionNeeded(c: Context, e: State, observed: Inventory)
    requires Answers(c, e, observed) && Exact(Outcome(c, e), Names(observed), Wanted(c.parse, observed))
    ensures OneRowPerAddress(c.base, Wanted(c.parse, observed))
  {
    var wanted := Wanted(c.parse, observed);
    forall i, j | 0 <= i < j < |wanted| && wanted[i].1 == wanted[j].1
      ensures StoredAddress(c.base, wanted[i].1) <==> wanted[i].0 == wanted[j].0
    {
      AddressConditionNeeded(c, e, observed, i, j);
    }
  }
}
