/** The audit hash chain: its record encoding, sealing and verification. */
module Audit {
  import opened Wrappers
  import opened Bytes
  import opened Framing

  type Hash = h: seq<byte> | |h| == 32 witness Zeros(32)

  const GENESIS_PREV: Hash := Zeros(32)

  function Zeros(n: nat): (z: seq<byte>)
    ensures |z| == n
  {
    if n == 0 then [] else [0] + Zeros(n - 1)
  }

  datatype Decision = Allow | Deny

  /** The token that is hashed into the chain. */
  function Token(d: Decision): (t: Blob)
    ensures |t| <= 5
  {
    match d
    case Allow => Ascii("allow")
    case Deny => Ascii("deny")
  }

  type I64 = n: int | -0x8000_0000_0000_0000 <= n < 0x8000_0000_0000_0000

  /** A record; its strings are the bytes of their UTF-8 form. */
  datatype AuditRecord = AuditRecord(ts: I64, subject: Blob, kind: Blob, target: Blob, runAs: Blob, decision: Decision)

  datatype AuditEntry = AuditEntry(seqno: U64Value, record: AuditRecord, prev: Hash, hash: Hash)

  type Hasher = seq<byte> -> Hash

  // --- The encoding ---

  function Strings(r: AuditRecord): seq<Blob> {
    [r.subject, r.kind, r.target, r.runAs, Token(r.decision)]
  }

  function Fields(fs: seq<Blob>): seq<byte> {
    if fs == [] then [] else Field(fs[0]) + Fields(fs[1..])
  }

  /** What is hashed: number, time, five length-prefixed strings, and the hash before. */
  function Encode(seqno: U64Value, r: AuditRecord, prev: Hash): seq<byte> {
    (U64(seqno) + U64(TwosComplement(r.ts, TWO_64))) + (Fields(Strings(r)) + prev)
  }

  method HashInput(seqno: U64Value, r: AuditRecord, prev: Hash) returns (buf: seq<byte>)
    ensures buf == Encode(seqno, r, prev)
  {
    hide Field, U64, Strings;
    buf := U64(seqno);
    buf := buf + U64(TwosComplement(r.ts, TWO_64));
    ghost var head := buf;
    var fs := Strings(r);
    for i := 0 to |fs|
      invariant buf + Fields(fs[i..]) == head + Fields(fs)
    {
      assert fs[i..][1..] == fs[i + 1..];
      buf := buf + Field(fs[i]);
    }
    assert fs[|fs|..] == [] && Fields(fs[|fs|..]) == [];
    assert buf == head + Fields(fs);
    buf := buf + prev;
  }

  /** Number, time in two's complement, the five texts behind their lengths, and the hash before. */
  lemma EncodeLayout(seqno: U64Value, r: AuditRecord, prev: Hash)
    ensures var decision := Ascii(if r.decision == Allow then "allow" else "deny");
      Encode(seqno, r, prev)
      == U64(seqno) + U64(if r.ts < 0 then r.ts + TWO_64 else r.ts)
         + U64(|r.subject|) + r.subject + U64(|r.kind|) + r.kind + U64(|r.target|) + r.target
         + U64(|r.runAs|) + r.runAs + U64(|decision|) + decision + prev
  {
    hide U64, Ascii;
    FiveFields(Strings(r));
  }

  lemma FiveFields(fs: seq<Blob>)
    requires |fs| == 5
    ensures Fields(fs) == U64(|fs[0]|) + fs[0] + U64(|fs[1]|) + fs[1] + U64(|fs[2]|) + fs[2]
                          + U64(|fs[3]|) + fs[3] + U64(|fs[4]|) + fs[4]
  {
    hide U64;
    assert fs[4..][1..] == [];
    assert Fields(fs[4..]) == Field(fs[4]) + [];
    assert fs[3..][1..] == fs[4..];
    assert Fields(fs[3..]) == Field(fs[3]) + Fields(fs[4..]);
    assert fs[2..][1..] == fs[3..];
    assert Fields(fs[2..]) == Field(fs[2]) + Fields(fs[3..]);
    assert fs[1..][1..] == fs[2..];
    assert Fields(fs[1..]) == Field(fs[1]) + Fields(fs[2..]);
  }

  lemma {:induction false} FieldsInjective(a: seq<Blob>, x: seq<byte>, b: seq<Blob>, y: seq<byte>)
    requires |a| == |b| && Fields(a) + x == Fields(b) + y
    ensures a == b && x == y
  {
    hide Field;
    if a == [] {
      assert x == Fields(a) + x && y == Fields(b) + y;
    } else {
      assert Fields(a) + x == Field(a[0]) + (Fields(a[1..]) + x);
      assert Fields(b) + y == Field(b[0]) + (Fields(b[1..]) + y);
      FieldSplit(a[0], Fields(a[1..]) + x, b[0], Fields(b[1..]) + y);
      FieldsInjective(a[1..], x, b[1..], y);
      assert a == [a[0]] + a[1..] && b == [b[0]] + b[1..];
    }
  }

  lemma TokenInjective(a: Decision, b: Decision)
    requires Token(a) == Token(b)
    ensures a == b
  {
    assert |Token(Allow)| == 5 && |Token(Deny)| == 4;
  }

  /** The encoding determines the number, the record and the hash before. */
  lemma EncodeInjective(n1: U64Value, r1: AuditRecord, p1: Hash, n2: U64Value, r2: AuditRecord, p2: Hash)
    requires Encode(n1, r1, p1) == Encode(n2, r2, p2)
    ensures n1 == n2 && r1 == r2 && p1 == p2
  {
    hide Field, U64, Fields, Token;
    var t1, t2 := TwosComplement(r1.ts, TWO_64), TwosComplement(r2.ts, TWO_64);
    FixedSplit(U64(n1) + U64(t1), Fields(Strings(r1)) + p1, U64(n2) + U64(t2), Fields(Strings(r2)) + p2);
    FixedSplit(U64(n1), U64(t1), U64(n2), U64(t2));
    U64Injective(n1, n2);
    U64Injective(t1, t2);
    FieldsInjective(Strings(r1), p1, Strings(r2), p2);
    assert forall i | 0 <= i < 5 :: Strings(r1)[i] == Strings(r2)[i];
    assert Strings(r1)[0] == r1.subject && Strings(r1)[1] == r1.kind && Strings(r1)[2] == r1.target
           && Strings(r1)[3] == r1.runAs;
    assert Strings(r2)[0] == r2.subject && Strings(r2)[1] == r2.kind && Strings(r2)[2] == r2.target
           && Strings(r2)[3] == r2.runAs;
    assert Strings(r1)[4] == Token(r1.decision) && Strings(r2)[4] == Token(r2.decision);
    TokenInjective(r1.decision, r2.decision);
  }

  // --- Chains ---

  function Seal(sha: Hasher, seqno: U64Value, r: AuditRecord, prev: Hash): AuditEntry {
    AuditEntry(seqno, r, prev, sha(Encode(seqno, r, prev)))
  }

  function Last(entries: seq<AuditEntry>): Hash {
    if entries == [] then GENESIS_PREV else entries[|entries| - 1].hash
  }

  ghost predicate Linked(sha: Hasher, entries: seq<AuditEntry>, i: nat)
    requires i < |entries|
  {
    && entries[i].seqno == i && entries[i].prev == Last(entries[..i])
    && entries[i].hash == sha(Encode(entries[i].seqno, entries[i].record, entries[i].prev))
  }

  ghost predicate Chained(sha: Hasher, entries: seq<AuditEntry>) {
    forall i | 0 <= i < |entries| :: Linked(sha, entries, i)
  }

  datatype AuditError =
    | OutOfOrder(index: nat, seqno: U64Value, expected: nat)
    | BrokenLink(seqno: U64Value)
    | Altered(seqno: U64Value)
    | Truncated
    | UnexpectedHead

  /** The answer for the first entry that breaks the chain. */
  ghost predicate Explains(sha: Hasher, entries: seq<AuditEntry>, i: nat, e: AuditError)
    requires i < |entries|
  {
    var x := entries[i];
    match e
    case OutOfOrder(index, seqno, expected) => index == expected == i && seqno == x.seqno != i
    case BrokenLink(seqno) => seqno == x.seqno == i && x.prev != Last(entries[..i])
    case Altered(seqno) =>
      seqno == x.seqno == i && x.prev == Last(entries[..i]) && x.hash != sha(Encode(x.seqno, x.record, x.prev))
    case _ => false
  }

  /** Accepts exactly the chains that end at the expected head, and otherwise names the first fault. */
  method Verify(sha: Hasher, entries: seq<AuditEntry>, expected: Option<Hash>) returns (r: Result<(), AuditError>)
    ensures r.Ok? <==> Chained(sha, entries) && (expected.Some? ==> entries != [] && Last(entries) == expected.value)
    ensures r == Err(Truncated) <==> Chained(sha, entries) && expected.Some? && entries == []
    ensures r == Err(UnexpectedHead)
            <==> Chained(sha, entries) && expected.Some? && entries != [] && Last(entries) != expected.value
    ensures r.Err? && !Chained(sha, entries) ==>
              exists i | 0 <= i < |entries| && Chained(sha, entries[..i]) :: Explains(sha, entries, i, r.error)
  {
    hide Encode;
    var prev := GENESIS_PREV;
    for i := 0 to |entries|
      invariant prev == Last(entries[..i])
      invariant forall j | 0 <= j < i :: Linked(sha, entries, j)
    {
      var e := entries[i];
      PrefixChained(sha, entries, i);
      if e.seqno != i {
        assert !Linked(sha, entries, i) && Explains(sha, entries, i, OutOfOrder(i, e.seqno, i));
        return Err(OutOfOrder(i, e.seqno, i));
      }
      if e.prev != prev {
        assert !Linked(sha, entries, i) && Explains(sha, entries, i, BrokenLink(e.seqno));
        return Err(BrokenLink(e.seqno));
      }
      var input := HashInput(e.seqno, e.record, e.prev);
      if sha(input) != e.hash {
        assert !Linked(sha, entries, i) && Explains(sha, entries, i, Altered(e.seqno));
        return Err(Altered(e.seqno));
      }
      prev := e.hash;
    }
    if expected.Some? {
      if entries == [] {
        return Err(Truncated);
      }
      if entries[|entries| - 1].hash != expected.value {
        return Err(UnexpectedHead);
      }
    }
    r := Ok(());
  }

  /** Dropping the tail leaves a chain: without an expected head truncation cannot be seen. */
  lemma PrefixChained(sha: Hasher, entries: seq<AuditEntry>, n: nat)
    requires n <= |entries| && forall j | 0 <= j < n :: Linked(sha, entries, j)
    ensures Chained(sha, entries[..n])
  {
    hide Encode;
    forall i | 0 <= i < n
      ensures Linked(sha, entries[..n], i)
    {
      assert Linked(sha, entries, i) && entries[..n][..i] == entries[..i];
    }
  }

  /** Two entries that break the hash. */
  ghost predicate Collide(sha: Hasher, a: AuditEntry, b: AuditEntry) {
    && Encode(a.seqno, a.record, a.prev) != Encode(b.seqno, b.record, b.prev)
    && sha(Encode(a.seqno, a.record, a.prev)) == sha(Encode(b.seqno, b.record, b.prev))
  }

  ghost predicate SomeCollide(sha: Hasher, a: seq<AuditEntry>, b: seq<AuditEntry>) {
    exists i, j | 0 <= i < |a| && 0 <= j < |b| :: Collide(sha, a[i], b[j])
  }

  lemma SameLast(sha: Hasher, a: seq<AuditEntry>, b: seq<AuditEntry>)
    requires Chained(sha, a) && Chained(sha, b) && a != [] && b != [] && Last(a) == Last(b)
    ensures SomeCollide(sha, a, b) || (|a| == |b| && a[|a| - 1] == b[|b| - 1])
  {
    hide Encode;
    var i, j := |a| - 1, |b| - 1;
    assert Linked(sha, a, i) && Linked(sha, b, j);
    if Encode(a[i].seqno, a[i].record, a[i].prev) == Encode(b[j].seqno, b[j].record, b[j].prev) {
      EncodeInjective(a[i].seqno, a[i].record, a[i].prev, b[j].seqno, b[j].record, b[j].prev);
    } else {
      assert Collide(sha, a[i], b[j]);
    }
  }

  lemma CollideWider(sha: Hasher, a: seq<AuditEntry>, b: seq<AuditEntry>, n: nat)
    requires n <= |a| && n <= |b|
    ensures SomeCollide(sha, a[..n], b[..n]) ==> SomeCollide(sha, a, b)
  {
    hide Collide;
    if SomeCollide(sha, a[..n], b[..n]) {
      var i, j :| 0 <= i < n && 0 <= j < n && Collide(sha, a[..n][i], b[..n][j]);
      assert Collide(sha, a[i], b[j]);
    }
  }

  /** Two chains that end at one head are equal, entry for entry, or contain two entries that break the hash. */
  lemma {:induction false} ChainBinding(sha: Hasher, a: seq<AuditEntry>, b: seq<AuditEntry>)
    requires Chained(sha, a) && Chained(sha, b) && a != [] && b != [] && Last(a) == Last(b)
    ensures a == b || SomeCollide(sha, a, b)
    decreases |a|
  {
    hide Encode, Collide;
    SameLast(sha, a, b);
    if !SomeCollide(sha, a, b) {
      var n := |a| - 1;
      assert Linked(sha, a, n) && Linked(sha, b, n);
      if n > 0 {
        PrefixChained(sha, a, n);
        PrefixChained(sha, b, n);
        ChainBinding(sha, a[..n], b[..n]);
        CollideWider(sha, a, b, n);
      }
      assert a == a[..n] + [a[n]] && b == b[..n] + [b[n]];
    }
  }

  /** Without an expected head too, an entry removed from the middle is seen: what is left is no chain. */
  lemma RemovalIsSeen(sha: Hasher, entries: seq<AuditEntry>, i: nat)
    requires Chained(sha, entries) && i < |entries| - 1
    ensures !Chained(sha, entries[..i] + entries[i + 1..])
  {
    hide Encode;
    var rest := entries[..i] + entries[i + 1..];
    assert rest[i] == entries[i + 1] && Linked(sha, entries, i + 1);
    assert !Linked(sha, rest, i);
  }

  /** And an entry altered in the middle is seen, unless the hash collides on it: what is left is no chain. */
  lemma AlterationIsSeen(sha: Hasher, entries: seq<AuditEntry>, i: nat, x: AuditEntry)
    requires Chained(sha, entries) && i < |entries| - 1 && x != entries[i]
    ensures !Chained(sha, entries[i := x]) || Collide(sha, entries[i], x)
  {
    hide Encode;
    var altered := entries[i := x];
    assert Linked(sha, entries, i) && Linked(sha, entries, i + 1);
    assert entries[..i + 1][i] == entries[i] && altered[..i + 1][i] == x && altered[..i] == entries[..i];
    if Chained(sha, altered) {
      assert Linked(sha, altered, i) && Linked(sha, altered, i + 1);
      if Encode(x.seqno, x.record, x.prev) == Encode(entries[i].seqno, entries[i].record, entries[i].prev) {
        EncodeInjective(x.seqno, x.record, x.prev, entries[i].seqno, entries[i].record, entries[i].prev);
      }
    }
  }

  /** The first entry follows 32 zero bytes. */
  lemma GenesisIsZero(i: nat)
    requires i < 32
    ensures |GENESIS_PREV| == 32 && GENESIS_PREV[i] == 0
  {
    ZerosAre(32, i);
  }

  lemma {:induction false} ZerosAre(n: nat, i: nat)
    requires i < n
    ensures Zeros(n)[i] == 0
  {
    if i > 0 {
      ZerosAre(n - 1, i - 1);
    }
  }

  /** Appending a sealed entry to a chain gives a chain. */
  lemma SealExtends(sha: Hasher, entries: seq<AuditEntry>, r: AuditRecord)
    requires Chained(sha, entries) && |entries| < TWO_64
    ensures Chained(sha, entries + [Seal(sha, |entries|, r, Last(entries))])
  {
    hide Encode;
    var longer := entries + [Seal(sha, |entries|, r, Last(entries))];
    forall i | 0 <= i < |longer|
      ensures Linked(sha, longer, i)
    {
      assert longer[..i] == entries[..i];
      if i < |entries| {
        assert Linked(sha, entries, i);
      } else {
        assert entries[..i] == entries;
      }
    }
  }
}
