/** What `content_hash` hashes, and when that determines the report. */
module NetboxHash {
  import opened Bytes
  import opened NetboxModel

  /** The host language's string encoding: injective, and never producing 0xff. */
  type Encoder = string -> seq<byte>

  ghost predicate Utf8Like(utf8: Encoder) {
    && (forall s, t | utf8(s) == utf8(t) :: s == t)
    && (forall s :: 0xff !in utf8(s))
  }

  const SERIAL_END: byte := 0x02
  const RECORD: byte := 0xff
  const ADDRESS: byte := 0x00

  function AddressBytes(utf8: Encoder, addresses: seq<string>): seq<byte> {
    if addresses == [] then [] else [ADDRESS] + utf8(addresses[0]) + AddressBytes(utf8, addresses[1..])
  }

  function InterfaceBytes(utf8: Encoder, observed: Inventory): seq<byte> {
    if observed == [] then []
    else
      [RECORD] + utf8(observed[0].name) + AddressBytes(utf8, observed[0].addresses)
      + InterfaceBytes(utf8, observed[1..])
  }

  /** What `content_hash` hashes. */
  function Preimage(utf8: Encoder, serial: string, host: seq<byte>, observed: Inventory): seq<byte> {
    utf8(serial) + [SERIAL_END] + host + InterfaceBytes(utf8, observed)
  }

  method AppendAddresses(utf8: Encoder, addresses: seq<string>, start: seq<byte>) returns (buf: seq<byte>)
    ensures buf == start + AddressBytes(utf8, addresses)
  {
    buf := start;
    for j := 0 to |addresses|
      invariant buf + AddressBytes(utf8, addresses[j..]) == start + AddressBytes(utf8, addresses)
    {
      assert addresses[j..][1..] == addresses[j + 1..];
      buf := buf + [ADDRESS];
      buf := buf + utf8(addresses[j]);
    }
    assert addresses[|addresses|..] == [];
  }

  method ContentBuffer(utf8: Encoder, serial: string, host: seq<byte>, observed: Inventory) returns (buf: seq<byte>)
    ensures buf == Preimage(utf8, serial, host, observed)
  {
    hide AddressBytes;
    buf := utf8(serial);
    buf := buf + [SERIAL_END];
    buf := buf + host;
    for i := 0 to |observed|
      invariant buf + InterfaceBytes(utf8, observed[i..]) == Preimage(utf8, serial, host, observed)
    {
      assert observed[i..][1..] == observed[i + 1..];
      buf := buf + [RECORD];
      buf := buf + utf8(observed[i].name);
      buf := AppendAddresses(utf8, observed[i].addresses, buf);
    }
    assert observed[|observed|..] == [];
  }

  /**
    Byte for byte, for a report of one interface: the serial, 2, the host id, and then 255, the name
    and each address after a 0.
   */
  lemma PreimageLayout(utf8: Encoder, serial: string, host: seq<byte>, name: string, a: string, b: string)
    ensures Preimage(utf8, serial, host, [Interface(name, [a, b])])
            == utf8(serial) + [2] + host + [255] + utf8(name) + [0] + utf8(a) + [0] + utf8(b)
  {
    var i := Interface(name, [a, b]);
    assert [i][1..] == [] && [a, b][1..] == [b] && [b][1..] == [];
    assert AddressBytes(utf8, [b]) == [ADDRESS] + utf8(b) + [];
    assert AddressBytes(utf8, [a, b]) == [ADDRESS] + utf8(a) + AddressBytes(utf8, [b]);
    assert InterfaceBytes(utf8, [i]) == [RECORD] + utf8(name) + AddressBytes(utf8, [a, b]) + [];
  }

  /** No field of the report contains the byte that starts an address. */
  ghost predicate NulFree(utf8: Encoder, observed: Inventory) {
    forall i | 0 <= i < |observed| :: FieldsFree(utf8, observed[i])
  }

  ghost predicate FieldsFree(utf8: Encoder, i: Interface) {
    ADDRESS !in utf8(i.name) && forall j | 0 <= j < |i.addresses| :: ADDRESS !in utf8(i.addresses[j])
  }

  lemma {:induction false} AddressBytesShape(utf8: Encoder, addresses: seq<string>)
    requires Utf8Like(utf8)
    ensures Ends(ADDRESS, AddressBytes(utf8, addresses)) && RECORD !in AddressBytes(utf8, addresses)
  {
    if addresses != [] {
      AddressBytesShape(utf8, addresses[1..]);
    }
  }

  lemma {:induction false} AddressBytesInjective(utf8: Encoder, a: seq<string>, b: seq<string>)
    requires Utf8Like(utf8) && AddressBytes(utf8, a) == AddressBytes(utf8, b)
    requires forall i | 0 <= i < |a| :: ADDRESS !in utf8(a[i])
    requires forall i | 0 <= i < |b| :: ADDRESS !in utf8(b[i])
    ensures a == b
  {
    if a != [] && b != [] {
      var ra, rb := AddressBytes(utf8, a[1..]), AddressBytes(utf8, b[1..]);
      assert AddressBytes(utf8, a)[1..] == utf8(a[0]) + ra && AddressBytes(utf8, b)[1..] == utf8(b[0]) + rb;
      AddressBytesShape(utf8, a[1..]);
      AddressBytesShape(utf8, b[1..]);
      SeparatorSplit(ADDRESS, utf8(a[0]), ra, utf8(b[0]), rb);
      AddressBytesInjective(utf8, a[1..], b[1..]);
      assert a == [a[0]] + a[1..] && b == [b[0]] + b[1..];
    }
  }

  lemma RecordSplit(utf8: Encoder, a: Interface, x: seq<byte>, b: Interface, y: seq<byte>)
    requires Utf8Like(utf8) && FieldsFree(utf8, a) && FieldsFree(utf8, b) && Ends(RECORD, x) && Ends(RECORD, y)
    requires utf8(a.name) + AddressBytes(utf8, a.addresses) + x == utf8(b.name) + AddressBytes(utf8, b.addresses) + y
    ensures a == b && x == y
  {
    AddressBytesShape(utf8, a.addresses);
    AddressBytesShape(utf8, b.addresses);
    SeparatorSplit(RECORD, utf8(a.name) + AddressBytes(utf8, a.addresses), x,
                   utf8(b.name) + AddressBytes(utf8, b.addresses), y);
    SeparatorSplit(ADDRESS, utf8(a.name), AddressBytes(utf8, a.addresses), utf8(b.name),
                   AddressBytes(utf8, b.addresses));
    AddressBytesInjective(utf8, a.addresses, b.addresses);
  }

  lemma InterfaceBytesHead(utf8: Encoder, a: Inventory)
    requires a != []
    ensures InterfaceBytes(utf8, a)[1..]
            == utf8(a[0].name) + AddressBytes(utf8, a[0].addresses) + InterfaceBytes(utf8, a[1..])
    ensures Ends(RECORD, InterfaceBytes(utf8, a[1..]))
  {
  }

  lemma {:induction false} InterfaceBytesInjective(utf8: Encoder, a: Inventory, b: Inventory)
    requires Utf8Like(utf8) && InterfaceBytes(utf8, a) == InterfaceBytes(utf8, b)
    requires NulFree(utf8, a) && NulFree(utf8, b)
    ensures a == b
  {
    hide FieldsFree, Utf8Like;
    if a != [] && b != [] {
      InterfaceBytesHead(utf8, a);
      InterfaceBytesHead(utf8, b);
      RecordSplit(utf8, a[0], InterfaceBytes(utf8, a[1..]), b[0], InterfaceBytes(utf8, b[1..]));
      InterfaceBytesInjective(utf8, a[1..], b[1..]);
      assert a == [a[0]] + a[1..] && b == [b[0]] + b[1..];
    }
  }

  // --- The serial needs no condition ---

  /** A buffer that reads both ways has no record mark before its interfaces. */
  lemma {:induction false} NoMark(s: seq<byte>, w: seq<byte>, h: seq<byte>, x: seq<byte>, y: seq<byte>, j: nat)
    requires s == [SERIAL_END] + h + x == w + ([SERIAL_END] + h + y) && w != [] && RECORD !in w && j <= |w| + |h|
    ensures j < |s| && s[j] != RECORD
  {
    if j > |w| {
      var k := j - |w|;
      assert s[j] == ([SERIAL_END] + h + y)[k] == h[k - 1] == s[k];
      NoMark(s, w, h, x, y, k);
    } else if j < |w| {
      assert s[j] == w[j];
    } else {
      assert s[j] == ([SERIAL_END] + h + y)[0];
    }
  }

  /**
    The shorter serial cannot be a proper prefix of the longer: the record mark would fall inside it
    or the host id.
   */
  lemma SerialSplit(a: seq<byte>, x: seq<byte>, b: seq<byte>, y: seq<byte>, h: seq<byte>)
    requires a + ([SERIAL_END] + h + x) == b + ([SERIAL_END] + h + y) && |a| <= |b|
    requires RECORD !in b && Ends(RECORD, x)
    ensures a == b && x == y
  {
    var s := a + ([SERIAL_END] + h + x);
    assert a == s[..|a|] == b[..|a|];
    if |a| < |b| {
      var w := b[|a|..];
      assert s[|a|..] == [SERIAL_END] + h + x == w + ([SERIAL_END] + h + y);
      NoMark(s[|a|..], w, h, x, y, |h| + 1);
    } else {
      FixedSplit(a, [SERIAL_END] + h + x, b, [SERIAL_END] + h + y);
      FixedSplit([SERIAL_END] + h, x, [SERIAL_END] + h, y);
    }
  }

  /**
    Two reports of one host with equal hash inputs are equal, when no field contains a NUL; a serial
    may contain anything.
   */
  lemma PreimageInjective(utf8: Encoder, s1: string, o1: Inventory, s2: string, o2: Inventory, host: seq<byte>)
    requires Utf8Like(utf8) && NulFree(utf8, o1) && NulFree(utf8, o2)
    requires Preimage(utf8, s1, host, o1) == Preimage(utf8, s2, host, o2)
    ensures s1 == s2 && o1 == o2
  {
    hide InterfaceBytes;
    var x, y := InterfaceBytes(utf8, o1), InterfaceBytes(utf8, o2);
    assert Preimage(utf8, s1, host, o1) == utf8(s1) + ([SERIAL_END] + host + x);
    assert Preimage(utf8, s2, host, o2) == utf8(s2) + ([SERIAL_END] + host + y);
    InterfaceBytesEnds(utf8, o1);
    InterfaceBytesEnds(utf8, o2);
    if |utf8(s1)| <= |utf8(s2)| {
      SerialSplit(utf8(s1), x, utf8(s2), y, host);
    } else {
      SerialSplit(utf8(s2), y, utf8(s1), x, host);
    }
    InterfaceBytesInjective(utf8, o1, o2);
  }

  lemma InterfaceBytesEnds(utf8: Encoder, observed: Inventory)
    ensures Ends(RECORD, InterfaceBytes(utf8, observed))
  {
  }

  // --- The condition on fields is needed ---

  const NUL: char := '\0'

  /** A NUL is encoded as the byte 0, between the encodings of what is around it. */
  ghost predicate SplitsAtNul(utf8: Encoder) {
    forall x, y :: utf8(x + [NUL] + y) == utf8(x) + [ADDRESS] + utf8(y)
  }

  /** An interface one of whose fields contains a NUL, and how it reads when cut there. */
  predicate HasNul(i: Interface) {
    NUL in i.name || exists j | 0 <= j < |i.addresses| :: NUL in i.addresses[j]
  }

  function RecordBytes(utf8: Encoder, i: Interface): seq<byte> {
    utf8(i.name) + AddressBytes(utf8, i.addresses)
  }

  lemma CutName(utf8: Encoder, i: Interface) returns (other: Interface)
    requires SplitsAtNul(utf8) && NUL in i.name
    ensures other != i && RecordBytes(utf8, other) == RecordBytes(utf8, i)
  {
    var p :| 0 <= p < |i.name| && i.name[p] == NUL;
    var x, y := i.name[..p], i.name[p + 1..];
    assert i.name == x + [NUL] + y;
    other := Interface(x, [y] + i.addresses);
    assert ([y] + i.addresses)[1..] == i.addresses;
    assert |other.name| < |i.name|;
  }

  lemma CutAddress(utf8: Encoder, i: Interface, j: nat) returns (other: Interface)
    requires SplitsAtNul(utf8) && j < |i.addresses| && NUL in i.addresses[j]
    ensures other != i && RecordBytes(utf8, other) == RecordBytes(utf8, i)
  {
    var a := i.addresses[j];
    var p :| 0 <= p < |a| && a[p] == NUL;
    var x, y := a[..p], a[p + 1..];
    assert a == x + [NUL] + y;
    var before, after := i.addresses[..j], i.addresses[j + 1..];
    other := Interface(i.name, before + ([x, y] + after));
    assert i.addresses == before + ([a] + after);
    AddressBytesJoin(utf8, before, [a] + after);
    AddressBytesJoin(utf8, before, [x, y] + after);
    CutBytes(utf8, x, y, after);
    assert |other.addresses| == |i.addresses| + 1;
  }

  lemma CutBytes(utf8: Encoder, x: string, y: string, after: seq<string>)
    requires SplitsAtNul(utf8)
    ensures AddressBytes(utf8, [x + [NUL] + y] + after) == AddressBytes(utf8, [x, y] + after)
  {
    assert ([x + [NUL] + y] + after)[1..] == after;
    assert ([x, y] + after)[1..] == [y] + after && ([y] + after)[1..] == after;
  }

  lemma {:induction false} AddressBytesJoin(utf8: Encoder, a: seq<string>, b: seq<string>)
    ensures AddressBytes(utf8, a + b) == AddressBytes(utf8, a) + AddressBytes(utf8, b)
    decreases |a|
  {
    if a == [] {
      assert a + b == b;
    } else {
      assert (a + b)[0] == a[0] && (a + b)[1..] == a[1..] + b;
      AddressBytesJoin(utf8, a[1..], b);
    }
  }

  lemma {:induction false} SameRecord(utf8: Encoder, observed: Inventory, i: nat, other: Interface)
    requires i < |observed| && RecordBytes(utf8, other) == RecordBytes(utf8, observed[i])
    ensures InterfaceBytes(utf8, observed[i := other]) == InterfaceBytes(utf8, observed)
  {
    hide AddressBytes;
    var changed := observed[i := other];
    assert InterfaceBytes(utf8, changed)
           == [RECORD] + RecordBytes(utf8, changed[0]) + InterfaceBytes(utf8, changed[1..]);
    assert InterfaceBytes(utf8, observed)
           == [RECORD] + RecordBytes(utf8, observed[0]) + InterfaceBytes(utf8, observed[1..]);
    if i == 0 {
      assert changed[1..] == observed[1..];
    } else {
      assert changed[1..] == observed[1..][i - 1 := other];
      SameRecord(utf8, observed[1..], i - 1, other);
    }
  }

  /** Every report with a NUL in some field shares its hash input with a different report. */
  lemma PreimageCollides(utf8: Encoder, serial: string, host: seq<byte>, observed: Inventory, i: nat)
    returns (other: Inventory)
    requires SplitsAtNul(utf8) && i < |observed| && HasNul(observed[i])
    ensures other != observed && Preimage(utf8, serial, host, other) == Preimage(utf8, serial, host, observed)
  {
    hide RecordBytes, SplitsAtNul;
    var cut;
    if NUL in observed[i].name {
      cut := CutName(utf8, observed[i]);
    } else {
      var j :| 0 <= j < |observed[i].addresses| && NUL in observed[i].addresses[j];
      cut := CutAddress(utf8, observed[i], j);
    }
    SameRecord(utf8, observed, i, cut);
    other := observed[i := cut];
    assert other[i] != observed[i];
  }
}
