/**
  What a reconciled device shows, said of its rows and of the report alone: which names,
  which address texts with which prefix length, one row each, and which primaries.
 */
module NetboxReport {
  import opened Wrappers
  import opened NetboxModel
  import opened NetboxEnsure
  import opened NetboxExact
  import opened NetboxConverge
  import opened NetboxAttempts

  /** The `j`-th address of the `i`-th interface. */
  predicate At(observed: Inventory, i: int, j: int) {
    0 <= i < |observed| && 0 <= j < |observed[i].addresses|
  }

  /** The text of the row an address asks for: a single host of its family. */
  ghost predicate RowText(parse: AddressParser, address: string, text: string) {
    || (parse(address) == Some(V4) && text == address + "/32")
    || (parse(address) == Some(V6) && text == address + "/128")
  }

  /** Some row with this text sits on an interface of this name. */
  ghost predicate RowOn(d: Device, name: string, text: string) {
    exists ip :: ip in d.ips && d.ips[ip].address == text && d.ips[ip].iface in d.ifaces
                 && d.ifaces[d.ips[ip].iface] == name
  }

  /** Some address of the report, on an interface of this name, asks for this text. */
  ghost predicate AskedFor(parse: AddressParser, observed: Inventory, name: string, text: string) {
    exists i, j :: At(observed, i, j) && observed[i].name == name && RowText(parse, observed[i].addresses[j], text)
  }

  ghost predicate NameOn(d: Device, name: string) {
    exists r :: r in d.ifaces && d.ifaces[r] == name
  }

  ghost predicate Observed(observed: Inventory, name: string) {
    exists i :: 0 <= i < |observed| && observed[i].name == name
  }

  /** Exactly the observed names, one row each. */
  ghost predicate NamesShown(d: Device, observed: Inventory) {
    && (forall r, q | r in d.ifaces && q in d.ifaces && d.ifaces[r] == d.ifaces[q] :: r == q)
    && (forall i | 0 <= i < |observed| :: NameOn(d, observed[i].name))
    && (forall r | r in d.ifaces :: Observed(observed, d.ifaces[r]))
  }

  /** For every address that parses as IPv4 a row with "/32" on its interface, as IPv6 one with "/128". */
  ghost predicate AddressesShown(d: Device, parse: AddressParser, observed: Inventory) {
    forall i, j | At(observed, i, j) ::
      && (parse(observed[i].addresses[j]) == Some(V4) ==> RowOn(d, observed[i].name, observed[i].addresses[j] + "/32"))
      && (parse(observed[i].addresses[j]) == Some(V6) ==> RowOn(d, observed[i].name, observed[i].addresses[j] + "/128"))
  }

  /** No row of any other text or place, and none twice. */
  ghost predicate NothingElse(d: Device, parse: AddressParser, observed: Inventory) {
    && (forall ip | ip in d.ips ::
          d.ips[ip].iface in d.ifaces && AskedFor(parse, observed, d.ifaces[d.ips[ip].iface], d.ips[ip].address))
    && (forall p, q | p in d.ips && q in d.ips && d.ips[p] == d.ips[q] :: p == q)
  }

  ghost predicate ShowsReport(d: Device, parse: AddressParser, observed: Inventory) {
    NamesShown(d, observed) && AddressesShown(d, parse, observed) && NothingElse(d, parse, observed)
  }

  // --- The wanted pairs, position by position ---

  /** Where the wanted pairs come from, in order. */
  ghost function AddressSpots(parse: AddressParser, i: nat, addresses: seq<string>): seq<(nat, nat)> {
    if addresses == [] then []
    else
      var n := |addresses| - 1;
      AddressSpots(parse, i, addresses[..n]) + (if parse(addresses[n]).Some? then [(i, n)] else [])
  }

  ghost function Spots(parse: AddressParser, observed: Inventory): seq<(nat, nat)> {
    if observed == [] then []
    else
      var n := |observed| - 1;
      Spots(parse, observed[..n]) + AddressSpots(parse, n, observed[n].addresses)
  }

  predicate Before(p: (nat, nat), q: (nat, nat)) {
    p.0 < q.0 || (p.0 == q.0 && p.1 < q.1)
  }

  lemma CidrIsText(parse: AddressParser, address: string)
    ensures ToCidr(parse, address).Some? <==> parse(address).Some?
    ensures parse(address).Some? ==> RowText(parse, address, ToCidr(parse, address).value)
    ensures forall text | RowText(parse, address, text) :: ToCidr(parse, address) == Some(text)
  {
  }

  /** One interface's spots and pairs: its parsable addresses. */
  ghost predicate SpotsMatch(parse: AddressParser, i: nat, addresses: seq<string>, spots: seq<(nat, nat)>,
                             pairs: seq<(string, string)>, name: string) {
    |spots| == |pairs|
    && forall k | 0 <= k < |spots| ::
         && spots[k].0 == i && spots[k].1 < |addresses|
         && pairs[k].0 == name && RowText(parse, addresses[spots[k].1], pairs[k].1)
  }

  ghost predicate SpotsRise(spots: seq<(nat, nat)>) {
    forall k, l | 0 <= k < l < |spots| :: spots[k].1 < spots[l].1
  }

  ghost predicate SpotsCover(parse: AddressParser, i: nat, addresses: seq<string>, spots: seq<(nat, nat)>) {
    forall j: nat | j < |addresses| && parse(addresses[j]).Some? :: (i, j) in spots
  }

  lemma MatchNext(parse: AddressParser, i: nat, addresses: seq<string>, spots: seq<(nat, nat)>,
                  pairs: seq<(string, string)>, name: string, text: string)
    requires addresses != [] && RowText(parse, addresses[|addresses| - 1], text)
    requires SpotsMatch(parse, i, addresses[..|addresses| - 1], spots, pairs, name) && SpotsRise(spots)
    ensures SpotsMatch(parse, i, addresses, spots + [(i, |addresses| - 1)], pairs + [(name, text)], name)
    ensures SpotsRise(spots + [(i, |addresses| - 1)])
  {
    hide RowText;
    var n := |addresses| - 1;
    assert forall k | 0 <= k < |spots| :: addresses[..n][spots[k].1] == addresses[spots[k].1];
  }

  lemma MatchStays(parse: AddressParser, i: nat, addresses: seq<string>, spots: seq<(nat, nat)>,
                   pairs: seq<(string, string)>, name: string)
    requires addresses != [] && SpotsMatch(parse, i, addresses[..|addresses| - 1], spots, pairs, name)
    ensures SpotsMatch(parse, i, addresses, spots, pairs, name)
  {
    hide RowText;
    var n := |addresses| - 1;
    assert forall k | 0 <= k < |spots| :: addresses[..n][spots[k].1] == addresses[spots[k].1];
  }

  lemma {:induction false} AddressSpotsMatch(parse: AddressParser, i: nat, addresses: seq<string>, name: string)
    ensures var spots := AddressSpots(parse, i, addresses);
      SpotsMatch(parse, i, addresses, spots, CidrsOf(parse, name, addresses), name) && SpotsRise(spots)
  {
    hide RowText, ToCidr, SpotsMatch, SpotsRise;
    if addresses == [] {
      NoneMatch(parse, i, name);
    } else {
      var n := |addresses| - 1;
      AddressSpotsMatch(parse, i, addresses[..n], name);
      CidrIsText(parse, addresses[n]);
      var spots, pairs := AddressSpots(parse, i, addresses[..n]), CidrsOf(parse, name, addresses[..n]);
      if parse(addresses[n]).Some? {
        MatchNext(parse, i, addresses, spots, pairs, name, ToCidr(parse, addresses[n]).value);
      } else {
        MatchStays(parse, i, addresses, spots, pairs, name);
        assert AddressSpots(parse, i, addresses) == spots && CidrsOf(parse, name, addresses) == pairs;
      }
    }
  }

  lemma NoneMatch(parse: AddressParser, i: nat, name: string)
    ensures SpotsMatch(parse, i, [], [], [], name) && SpotsRise([])
  {
  }

  lemma {:induction false} AddressSpotsCover(parse: AddressParser, i: nat, addresses: seq<string>)
    ensures SpotsCover(parse, i, addresses, AddressSpots(parse, i, addresses))
  {
    if addresses != [] {
      var n := |addresses| - 1;
      AddressSpotsCover(parse, i, addresses[..n]);
      var before, spots := AddressSpots(parse, i, addresses[..n]), AddressSpots(parse, i, addresses);
      forall j: nat | j < |addresses| && parse(addresses[j]).Some?
        ensures (i, j) in spots
      {
        if j < n {
          assert addresses[..n][j] == addresses[j] && (i, j) in before;
        } else {
          assert spots[|spots| - 1] == (i, j);
        }
      }
    }
  }

  /** Every spot is a parsable address, and its wanted pair is of that address. */
  ghost predicate AllMatch(parse: AddressParser, observed: Inventory, spots: seq<(nat, nat)>,
                           pairs: seq<(string, string)>) {
    |spots| == |pairs|
    && forall k | 0 <= k < |spots| ::
         && At(observed, spots[k].0, spots[k].1) && pairs[k].0 == observed[spots[k].0].name
         && RowText(parse, observed[spots[k].0].addresses[spots[k].1], pairs[k].1)
  }

  ghost predicate InOrder(spots: seq<(nat, nat)>) {
    forall k, l | 0 <= k < l < |spots| :: Before(spots[k], spots[l])
  }

  ghost predicate AllCovered(parse: AddressParser, observed: Inventory, spots: seq<(nat, nat)>) {
    forall i: nat, j: nat | At(observed, i, j) && parse(observed[i].addresses[j]).Some? :: (i, j) in spots
  }

  /** All parsable addresses, each once, in the report's order, with their pairs. */
  ghost predicate AllSpots(parse: AddressParser, observed: Inventory, spots: seq<(nat, nat)>,
                           pairs: seq<(string, string)>) {
    AllMatch(parse, observed, spots, pairs) && InOrder(spots) && AllCovered(parse, observed, spots)
  }

  lemma MatchJoin(parse: AddressParser, observed: Inventory, s: seq<(nat, nat)>, p: seq<(string, string)>,
                  t: seq<(nat, nat)>, q: seq<(string, string)>)
    requires observed != [] && AllMatch(parse, observed[..|observed| - 1], s, p) && InOrder(s) && SpotsRise(t)
    requires var n := |observed| - 1; SpotsMatch(parse, n, observed[n].addresses, t, q, observed[n].name)
    ensures AllMatch(parse, observed, s + t, p + q) && InOrder(s + t)
  {
    hide RowText;
    var n := |observed| - 1;
    assert forall k | 0 <= k < |s| :: At(observed[..n], s[k].0, s[k].1);
  }

  lemma CoverJoin(parse: AddressParser, observed: Inventory, s: seq<(nat, nat)>, t: seq<(nat, nat)>)
    requires observed != [] && AllCovered(parse, observed[..|observed| - 1], s)
    requires var n := |observed| - 1; SpotsCover(parse, n, observed[n].addresses, t)
    ensures AllCovered(parse, observed, s + t)
  {
    var n := |observed| - 1;
    forall i: nat, j: nat | At(observed, i, j) && parse(observed[i].addresses[j]).Some?
      ensures (i, j) in s + t
    {
      if i < n {
        assert At(observed[..n], i, j) && (i, j) in s;
      } else {
        assert (i, j) in t;
      }
    }
  }

  lemma {:induction false} SpotsAre(parse: AddressParser, observed: Inventory)
    ensures AllSpots(parse, observed, Spots(parse, observed), Wanted(parse, observed))
  {
    hide AllMatch, InOrder, AllCovered, SpotsMatch, SpotsRise, SpotsCover, CidrsOf, AddressSpots;
    if observed == [] {
      NoSpots(parse);
    } else {
      var n := |observed| - 1;
      SpotsAre(parse, observed[..n]);
      AddressSpotsMatch(parse, n, observed[n].addresses, observed[n].name);
      AddressSpotsCover(parse, n, observed[n].addresses);
      var s, t := Spots(parse, observed[..n]), AddressSpots(parse, n, observed[n].addresses);
      MatchJoin(parse, observed, s, Wanted(parse, observed[..n]), t,
                CidrsOf(parse, observed[n].name, observed[n].addresses));
      CoverJoin(parse, observed, s, t);
    }
  }

  lemma NoSpots(parse: AddressParser)
    ensures AllSpots(parse, [], [], [])
  {
  }

  lemma WantedIff(parse: AddressParser, observed: Inventory, name: string, text: string)
    ensures (name, text) in Wanted(parse, observed) <==> AskedFor(parse, observed, name, text)
  {
    hide Wanted, Spots, RowText;
    SpotsAre(parse, observed);
    var spots, wanted := Spots(parse, observed), Wanted(parse, observed);
    if (name, text) in wanted {
      var k :| 0 <= k < |wanted| && wanted[k] == (name, text);
      assert At(observed, spots[k].0, spots[k].1);
    }
    if AskedFor(parse, observed, name, text) {
      var i, j :| At(observed, i, j) && observed[i].name == name && RowText(parse, observed[i].addresses[j], text);
      TextParses(parse, observed[i].addresses[j], text);
      var k :| 0 <= k < |spots| && spots[k] == (i, j);
      SameText(parse, observed[i].addresses[j], text, wanted[k].1);
      assert wanted[k] == (name, text);
    }
  }

  lemma TextParses(parse: AddressParser, address: string, text: string)
    requires RowText(parse, address, text)
    ensures parse(address).Some?
  {
  }

  lemma SameText(parse: AddressParser, address: string, text: string, other: string)
    requires RowText(parse, address, text) && RowText(parse, address, other)
    ensures text == other
  {
  }

  lemma ExactIsShown(d: Device, parse: AddressParser, observed: Inventory)
    ensures Exact(d, Names(observed), Wanted(parse, observed)) <==> ShowsReport(d, parse, observed)
  {
    hide Wanted, AskedFor;
    forall name, text
      ensures (name, text) in Wanted(parse, observed) <==> AskedFor(parse, observed, name, text)
    {
      WantedIff(parse, observed, name, text);
    }
    if Exact(d, Names(observed), Wanted(parse, observed)) {
      ExactShows(d, parse, observed);
    }
    if ShowsReport(d, parse, observed) {
      ShowsExact(d, parse, observed);
    }
  }

  lemma Asks(parse: AddressParser, observed: Inventory, i: int, j: int, text: string)
    requires At(observed, i, j) && RowText(parse, observed[i].addresses[j], text)
    ensures (observed[i].name, text) in Wanted(parse, observed)
  {
    hide Wanted;
    WantedIff(parse, observed, observed[i].name, text);
    assert AskedFor(parse, observed, observed[i].name, text);
  }

  lemma ExactShows(d: Device, parse: AddressParser, observed: Inventory)
    requires Exact(d, Names(observed), Wanted(parse, observed))
    ensures ShowsReport(d, parse, observed)
  {
    hide Wanted, AskedFor, HasRow;
    ExactNames(d, Names(observed), Wanted(parse, observed), observed);
    ExactAddresses(d, parse, observed);
    forall ip | ip in d.ips
      ensures d.ips[ip].iface in d.ifaces && AskedFor(parse, observed, d.ifaces[d.ips[ip].iface], d.ips[ip].address)
    {
      WantedIff(parse, observed, d.ifaces[d.ips[ip].iface], d.ips[ip].address);
    }
  }

  lemma ExactNames(d: Device, names: set<string>, wanted: seq<(string, string)>, observed: Inventory)
    requires Exact(d, names, wanted) && names == Names(observed)
    ensures NamesShown(d, observed)
  {
    hide HasRow;
    forall i | 0 <= i < |observed|
      ensures NameOn(d, observed[i].name)
    {
      var n := observed[i].name;
      assert n in names;
      var r :| r in d.ifaces && d.ifaces[r] == n;
    }
    forall r | r in d.ifaces
      ensures Observed(observed, d.ifaces[r])
    {
      assert d.ifaces[r] in names;
    }
    assert forall r, q | r in d.ifaces && q in d.ifaces && d.ifaces[r] == d.ifaces[q] :: r == q;
  }

  lemma ExactAddresses(d: Device, parse: AddressParser, observed: Inventory)
    requires Exact(d, Names(observed), Wanted(parse, observed))
    ensures AddressesShown(d, parse, observed)
  {
    hide Wanted, AskedFor;
    forall i, j | At(observed, i, j)
      ensures var a := observed[i].addresses[j];
        && (parse(a) == Some(V4) ==> RowOn(d, observed[i].name, a + "/32"))
        && (parse(a) == Some(V6) ==> RowOn(d, observed[i].name, a + "/128"))
    {
      var a := observed[i].addresses[j];
      if parse(a) == Some(V4) {
        Asks(parse, observed, i, j, a + "/32");
        assert HasRow(d, (observed[i].name, a + "/32"));
      } else if parse(a) == Some(V6) {
        Asks(parse, observed, i, j, a + "/128");
        assert HasRow(d, (observed[i].name, a + "/128"));
      }
    }
  }

  lemma ShowsExact(d: Device, parse: AddressParser, observed: Inventory)
    requires ShowsReport(d, parse, observed)
    ensures Exact(d, Names(observed), Wanted(parse, observed))
  {
    hide Wanted;
    forall n | n in Names(observed)
      ensures exists r :: r in d.ifaces && d.ifaces[r] == n
    {
      var i :| 0 <= i < |observed| && observed[i].name == n;
    }
    forall ip | ip in d.ips
      ensures d.ips[ip].iface in d.ifaces && (d.ifaces[d.ips[ip].iface], d.ips[ip].address) in Wanted(parse, observed)
    {
      WantedIff(parse, observed, d.ifaces[d.ips[ip].iface], d.ips[ip].address);
    }
    forall pair | pair in Wanted(parse, observed)
      ensures HasRow(d, pair)
    {
      WantedIff(parse, observed, pair.0, pair.1);
      var i, j :| At(observed, i, j) && observed[i].name == pair.0
                  && RowText(parse, observed[i].addresses[j], pair.1);
      assert RowOn(d, pair.0, pair.1);
    }
  }

  // --- The condition, and the theorem ---

  /** A row with this text is stored. */
  ghost predicate TextStored(d: Device, text: string) {
    exists ip :: ip in d.ips && d.ips[ip].address == text
  }

  /** An address that is reported twice is reported on one name if it is stored, and on different names if it is not. */
  ghost predicate AddressesFit(d: Device, parse: AddressParser, observed: Inventory) {
    forall i, j, k, l, text: string | At(observed, i, j) && At(observed, k, l) && (i, j) != (k, l)
                                      && RowText(parse, observed[i].addresses[j], text)
                                      && RowText(parse, observed[k].addresses[l], text) ::
      TextStored(d, text) <==> observed[i].name == observed[k].name
  }

  lemma FitIff(d: Device, parse: AddressParser, observed: Inventory)
    ensures OneRowPerAddress(d, Wanted(parse, observed)) <==> AddressesFit(d, parse, observed)
  {
    hide Wanted, Spots, RowText;
    SpotsAre(parse, observed);
    if OneRowPerAddress(d, Wanted(parse, observed)) {
      WantedFits(d, parse, observed);
    }
    if AddressesFit(d, parse, observed) {
      FitsWanted(d, parse, observed);
    }
  }

  lemma WantedFits(d: Device, parse: AddressParser, observed: Inventory)
    requires OneRowPerAddress(d, Wanted(parse, observed))
    requires AllSpots(parse, observed, Spots(parse, observed), Wanted(parse, observed))
    ensures AddressesFit(d, parse, observed)
  {
    hide Wanted, Spots, RowText;
    var spots, wanted := Spots(parse, observed), Wanted(parse, observed);
    forall i, j, k, l, text: string | At(observed, i, j) && At(observed, k, l) && (i, j) != (k, l)
                                      && RowText(parse, observed[i].addresses[j], text)
                                      && RowText(parse, observed[k].addresses[l], text)
      ensures TextStored(d, text) <==> observed[i].name == observed[k].name
    {
      var a, b := observed[i].addresses[j], observed[k].addresses[l];
      TextParses(parse, a, text);
      TextParses(parse, b, text);
      var x :| 0 <= x < |spots| && spots[x] == (i, j);
      var y :| 0 <= y < |spots| && spots[y] == (k, l);
      SameText(parse, a, text, wanted[x].1);
      SameText(parse, b, text, wanted[y].1);
      assert StoredAddress(d, text) == TextStored(d, text);
      if x < y {
        assert StoredAddress(d, wanted[x].1) <==> wanted[x].0 == wanted[y].0;
      } else {
        assert StoredAddress(d, wanted[y].1) <==> wanted[y].0 == wanted[x].0;
      }
    }
  }

  lemma FitsWanted(d: Device, parse: AddressParser, observed: Inventory)
    requires AddressesFit(d, parse, observed)
    requires AllSpots(parse, observed, Spots(parse, observed), Wanted(parse, observed))
    ensures OneRowPerAddress(d, Wanted(parse, observed))
  {
    hide Wanted, Spots, RowText;
    var spots, wanted := Spots(parse, observed), Wanted(parse, observed);
    forall x, y | 0 <= x < y < |wanted| && wanted[x].1 == wanted[y].1
      ensures StoredAddress(d, wanted[x].1) <==> wanted[x].0 == wanted[y].0
    {
      assert Before(spots[x], spots[y]);
      assert StoredAddress(d, wanted[x].1) == TextStored(d, wanted[x].1);
    }
  }

  /**
    A completed run leaves exactly what the report says if and only if each observed name
    has one stored row, or none and is observed once, and addresses reported twice fit.
   */
  lemma ShowsReportIff(a: Attempt, d: Device, observed: Inventory, host: string, parse: AddressParser)
    requires Tried(a, d, observed, host, parse) && Finished(a, observed)
    ensures ShowsReport(Left(a, observed), parse, observed)
            <==> OneRowPerName(d, observed) && AddressesFit(d, parse, observed)
  {
    hide Run, FreshRun, Script, Starts, Wanted, Exact, ShowsReport, OneRowPerName, OneRowPerAddress, AddressesFit;
    ExactIff(a.c, a.current, observed, a.ids);
    ExactIsShown(Left(a, observed), parse, observed);
    FitIff(d, parse, observed);
  }

  // --- Primaries ---

  /** `primary` is the row of the first address of the report that parses as the family, with its prefix length. */
  ghost predicate ShowsPrimary(d: Device, parse: AddressParser, observed: Inventory, family: Family, suffix: string,
                               primary: Option<RowId>) {
    if forall i, j | At(observed, i, j) :: parse(observed[i].addresses[j]) != Some(family) then primary == None
    else
      && primary.Some? && primary.value in d.ips
      && exists i, j :: && At(observed, i, j) && parse(observed[i].addresses[j]) == Some(family)
                        && (forall k, l | At(observed, k, l) && (k < i || (k == i && l < j)) ::
                              parse(observed[k].addresses[l]) != Some(family))
                        && d.ips[primary.value].address == observed[i].addresses[j] + suffix
  }

  lemma TextFamily(parse: AddressParser, address: string, text: string)
    requires ParsesBareAddresses(parse) && RowText(parse, address, text)
    ensures IsIpv4Cidr(parse, text) <==> parse(address) == Some(V4)
    ensures parse(address) == Some(V6) <==> parse(address) != Some(V4)
  {
    CidrFamily(parse, address);
  }

  lemma PrimaryShown(d: Device, parse: AddressParser, observed: Inventory, v4: bool, primary: Option<RowId>)
    requires ParsesBareAddresses(parse) && PrimaryIsFirst(d, parse, Wanted(parse, observed), v4, primary)
    ensures ShowsPrimary(d, parse, observed, if v4 then V4 else V6, if v4 then "/32" else "/128", primary)
  {
    hide Wanted, Spots, IsIpv4Cidr, FirstWanted;
    SpotsAre(parse, observed);
    var spots, wanted := Spots(parse, observed), Wanted(parse, observed);
    var family := if v4 then V4 else V6;
    forall k | 0 <= k < |spots|
      ensures IsIpv4Cidr(parse, wanted[k].1) == v4
              <==> parse(observed[spots[k].0].addresses[spots[k].1]) == Some(family)
    {
      TextFamily(parse, observed[spots[k].0].addresses[spots[k].1], wanted[k].1);
    }
    var first := FirstWanted(parse, wanted, v4);
    forall i, j | At(observed, i, j) && parse(observed[i].addresses[j]) == Some(family)
      ensures first.Some? && !Before((i, j), spots[first.value])
    {
      var k :| 0 <= k < |spots| && spots[k] == (i, j);
    }
    if first.Some? {
      var (i, j) := spots[first.value];
      assert At(observed, i, j) && parse(observed[i].addresses[j]) == Some(family);
    }
  }

  /**
    After a completed run: the primaries are the first reported addresses of their families, and the
    stamp is the host.
   */
  lemma ShowsPrimaries(a: Attempt, d: Device, observed: Inventory, host: string, parse: AddressParser)
    requires Tried(a, d, observed, host, parse) && Finished(a, observed) && ParsesBareAddresses(parse)
    ensures var d' := Left(a, observed);
      && ShowsPrimary(d', parse, observed, V4, "/32", d'.primary4)
      && ShowsPrimary(d', parse, observed, V6, "/128", d'.primary6)
      && d'.stamp == host
  {
    hide Run, FreshRun, Script, Starts, Wanted, ShowsPrimary, PrimaryIsFirst, KeepsIds;
    PrimariesAndIds(a.c, a.current, observed, a.ids);
    var d' := Left(a, observed);
    PrimaryShown(d', parse, observed, true, d'.primary4);
    PrimaryShown(d', parse, observed, false, d'.primary6);
  }

  /** A settled device shows the report. */
  lemma SettledShows(d: Device, observed: Inventory, host: string, parse: AddressParser)
    requires Settled(d, observed, host, parse)
    ensures ShowsReport(d, parse, observed) && d.stamp == host
    ensures ParsesBareAddresses(parse) ==>
              && ShowsPrimary(d, parse, observed, V4, "/32", d.primary4)
              && ShowsPrimary(d, parse, observed, V6, "/128", d.primary6)
  {
    hide Wanted, ShowsReport, Exact, ShowsPrimary, PrimaryIsFirst;
    ExactIsShown(d, parse, observed);
    if ParsesBareAddresses(parse) {
      PrimaryShown(d, parse, observed, true, d.primary4);
      PrimaryShown(d, parse, observed, false, d.primary6);
    }
  }
}
