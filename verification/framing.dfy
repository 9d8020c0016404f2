/** The byte strings that are signed, hashed into keys and authenticated: each determines its fields. */
module Framing {
  import opened Bytes

  function Ascii(s: string): (r: seq<byte>)
    requires forall i | 0 <= i < |s| :: s[i] as int < 128
    ensures |r| == |s|
  {
    seq(|s|, i requires 0 <= i < |s| => s[i] as int)
  }

  const CLIENT_CTX: seq<byte> := Ascii("osa/v1 hs c2s")
  const SERVER_CTX: seq<byte> := Ascii("osa/v1 hs s2c")
  const LABEL_C2A: seq<byte> := Ascii("osa/v1 c2a")
  const LABEL_A2C: seq<byte> := Ascii("osa/v1 a2c")
  const LABEL_STREAM: seq<byte> := Ascii("osa/v1 stream ")

  /** An X25519 public key. */
  type Point = s: seq<byte> | |s| == 32 witness seq(32, i => 0)

  type U64Value = n: nat | n < TWO_64

  /** What the agent signs. */
  function ClientTranscript(sid: Blob, epoch: U64Value, eph: Point): seq<byte> {
    CLIENT_CTX + (Field(sid) + (U64(epoch) + Field(eph)))
  }

  /** What the coordinator signs. */
  function ServerTranscript(sid: Blob, client: Point, server: Point): seq<byte> {
    SERVER_CTX + (Field(sid) + (Field(client) + Field(server)))
  }

  /** What the session keys are bound to. */
  function SessionBinding(sid: Blob, client: Point, server: Point, cert: Blob): seq<byte> {
    Field(sid) + (Field(client) + (Field(server) + Field(cert)))
  }

  type I32 = n: int | -0x8000_0000 <= n < 0x8000_0000

  /** The authenticated routing header of an envelope. */
  function Aad(host: Blob, sid: Blob, seqno: U64Value, kind: I32): seq<byte> {
    Field(host) + (Field(sid) + (U64(seqno) + BigEndian(TwosComplement(kind, 0x1_0000_0000), 4)))
  }

  /** The 96-bit GCM nonce. */
  function Nonce(seqno: U64Value): (n: seq<byte>)
    ensures |n| == 12
  {
    [0, 0, 0, 0] + U64(seqno)
  }

  /** The HKDF info of a per-stream subkey. */
  function StreamInfo(id: seq<byte>): seq<byte> {
    LABEL_STREAM + id
  }

  // --- Byte for byte ---

  /** Context, then session id, epoch and ephemeral; lengths and numbers are eight bytes that spell them. */
  lemma ClientTranscriptLayout(sid: Blob, epoch: U64Value, eph: Point)
    ensures exists l, e, m ::
              && |l| == |e| == |m| == 8 && Spelled(l) == |sid| && Spelled(e) == epoch && Spelled(m) == 32
              && ClientTranscript(sid, epoch, eph) == Ascii("osa/v1 hs c2s") + l + sid + e + m + eph
  {
    hide U64, Spelled;
    U64Spells(|sid|);
    U64Spells(epoch);
    U64Spells(32);
    assert ClientTranscript(sid, epoch, eph)
           == Ascii("osa/v1 hs c2s") + U64(|sid|) + sid + U64(epoch) + U64(32) + eph;
  }

  /** Context, then session id, the client's ephemeral and the server's. */
  lemma ServerTranscriptLayout(sid: Blob, client: Point, server: Point)
    ensures exists l, m ::
              && |l| == |m| == 8 && Spelled(l) == |sid| && Spelled(m) == 32
              && ServerTranscript(sid, client, server) == Ascii("osa/v1 hs s2c") + l + sid + m + client + m + server
  {
    hide U64, Spelled;
    U64Spells(|sid|);
    U64Spells(32);
    assert ServerTranscript(sid, client, server)
           == Ascii("osa/v1 hs s2c") + U64(|sid|) + sid + U64(32) + client + U64(32) + server;
  }

  /** Session id, both ephemerals and the certificate. */
  lemma SessionBindingLayout(sid: Blob, client: Point, server: Point, cert: Blob)
    ensures exists l, m, n ::
              && |l| == |m| == |n| == 8 && Spelled(l) == |sid| && Spelled(m) == 32 && Spelled(n) == |cert|
              && SessionBinding(sid, client, server, cert) == l + sid + m + client + m + server + n + cert
  {
    hide U64, Spelled;
    U64Spells(|sid|);
    U64Spells(32);
    U64Spells(|cert|);
    assert SessionBinding(sid, client, server, cert)
           == U64(|sid|) + sid + U64(32) + client + U64(32) + server + U64(|cert|) + cert;
  }

  /** Host, session id, number and kind, the last two as eight and four bytes. */
  lemma AadLayout(host: Blob, sid: Blob, seqno: U64Value, kind: I32)
    ensures exists h, l, n, k ::
              && |h| == |l| == |n| == 8 && Spelled(h) == |host| && Spelled(l) == |sid| && Spelled(n) == seqno
              && |k| == 4 && Spelled(k) == (if kind < 0 then kind + 0x1_0000_0000 else kind)
              && Aad(host, sid, seqno, kind) == h + host + l + sid + n + k
  {
    hide U64, Spelled, BigEndian;
    U64Spells(|host|);
    U64Spells(|sid|);
    U64Spells(seqno);
    Pow256Of8();
    var k := TwosComplement(kind, 0x1_0000_0000);
    BigEndianSpells(k, 4);
    assert Aad(host, sid, seqno, kind) == U64(|host|) + host + U64(|sid|) + sid + U64(seqno) + BigEndian(k, 4);
  }

  /** Four zero bytes and the number. */
  lemma NonceLayout(seqno: U64Value)
    ensures Nonce(seqno)[..4] == [0, 0, 0, 0] && Spelled(Nonce(seqno)[4..]) == seqno
  {
    hide Spelled;
    U64Spells(seqno);
    assert Nonce(seqno)[4..] == U64(seqno);
  }

  // --- Each determines its fields ---

  lemma LastField(a: Blob, b: Blob)
    requires Field(a) == Field(b)
    ensures a == b
  {
    assert Field(a) + [] == Field(a) && Field(b) + [] == Field(b);
    FieldSplit(a, [], b, []);
  }

  lemma ClientTranscriptInjective(s1: Blob, e1: U64Value, p1: Point, s2: Blob, e2: U64Value, p2: Point)
    requires ClientTranscript(s1, e1, p1) == ClientTranscript(s2, e2, p2)
    ensures s1 == s2 && e1 == e2 && p1 == p2
  {
    hide Field, U64;
    FixedSplit(CLIENT_CTX, Field(s1) + (U64(e1) + Field(p1)), CLIENT_CTX, Field(s2) + (U64(e2) + Field(p2)));
    FieldSplit(s1, U64(e1) + Field(p1), s2, U64(e2) + Field(p2));
    FixedSplit(U64(e1), Field(p1), U64(e2), Field(p2));
    U64Injective(e1, e2);
    LastField(p1, p2);
  }

  lemma ServerTranscriptInjective(s1: Blob, c1: Point, p1: Point, s2: Blob, c2: Point, p2: Point)
    requires ServerTranscript(s1, c1, p1) == ServerTranscript(s2, c2, p2)
    ensures s1 == s2 && c1 == c2 && p1 == p2
  {
    hide Field;
    FixedSplit(SERVER_CTX, Field(s1) + (Field(c1) + Field(p1)), SERVER_CTX, Field(s2) + (Field(c2) + Field(p2)));
    FieldSplit(s1, Field(c1) + Field(p1), s2, Field(c2) + Field(p2));
    FieldSplit(c1, Field(p1), c2, Field(p2));
    LastField(p1, p2);
  }

  /** A signature over one role's transcript never verifies as the other's. */
  lemma RolesDiffer(s1: Blob, e1: U64Value, p1: Point, s2: Blob, c2: Point, p2: Point)
    ensures ClientTranscript(s1, e1, p1) != ServerTranscript(s2, c2, p2)
  {
    hide Field, U64;
    assert CLIENT_CTX[10] != SERVER_CTX[10];
    assert ClientTranscript(s1, e1, p1)[10] == CLIENT_CTX[10];
    assert ServerTranscript(s2, c2, p2)[10] == SERVER_CTX[10];
  }

  /** The binding is followed by the 64 bytes of the two ephemerals when it becomes the salt. */
  lemma SaltDetermines(s1: Blob, c1: Point, p1: Point, d1: Blob, t1: seq<byte>,
                       s2: Blob, c2: Point, p2: Point, d2: Blob, t2: seq<byte>)
    requires SessionBinding(s1, c1, p1, d1) + t1 == SessionBinding(s2, c2, p2, d2) + t2
    ensures s1 == s2 && c1 == c2 && p1 == p2 && d1 == d2 && t1 == t2
  {
    hide Field;
    BindingTail(s1, c1, p1, d1, t1);
    BindingTail(s2, c2, p2, d2, t2);
    FieldSplit(s1, Field(c1) + (Field(p1) + (Field(d1) + t1)), s2, Field(c2) + (Field(p2) + (Field(d2) + t2)));
    FieldSplit(c1, Field(p1) + (Field(d1) + t1), c2, Field(p2) + (Field(d2) + t2));
    FieldSplit(p1, Field(d1) + t1, p2, Field(d2) + t2);
    FieldSplit(d1, t1, d2, t2);
  }

  lemma BindingTail(s: Blob, c: Point, p: Point, d: Blob, t: seq<byte>)
    ensures SessionBinding(s, c, p, d) + t == Field(s) + (Field(c) + (Field(p) + (Field(d) + t)))
  {
    hide Field;
    var a, b, e := Field(c), Field(p), Field(d);
    assert (Field(s) + (a + (b + e))) + t == Field(s) + ((a + (b + e)) + t);
    assert (a + (b + e)) + t == a + ((b + e) + t);
    assert (b + e) + t == b + (e + t);
  }

  lemma AadInjective(h1: Blob, s1: Blob, n1: U64Value, k1: I32, h2: Blob, s2: Blob, n2: U64Value, k2: I32)
    requires Aad(h1, s1, n1, k1) == Aad(h2, s2, n2, k2)
    ensures h1 == h2 && s1 == s2 && n1 == n2 && k1 == k2
  {
    hide Field, U64, BigEndian;
    var x1, x2 := TwosComplement(k1, 0x1_0000_0000), TwosComplement(k2, 0x1_0000_0000);
    FieldSplit(h1, Field(s1) + (U64(n1) + BigEndian(x1, 4)), h2, Field(s2) + (U64(n2) + BigEndian(x2, 4)));
    FieldSplit(s1, U64(n1) + BigEndian(x1, 4), s2, U64(n2) + BigEndian(x2, 4));
    FixedSplit(U64(n1), BigEndian(x1, 4), U64(n2), BigEndian(x2, 4));
    U64Injective(n1, n2);
    Pow256Of8();
    BigEndianInjective(x1, x2, 4);
  }

  lemma NonceInjective(m: U64Value, n: U64Value)
    requires Nonce(m) == Nonce(n)
    ensures m == n
  {
    FixedSplit([0, 0, 0, 0], U64(m), [0, 0, 0, 0], U64(n));
    U64Injective(m, n);
  }

  lemma StreamInfoInjective(a: seq<byte>, b: seq<byte>)
    requires StreamInfo(a) == StreamInfo(b)
    ensures a == b
  {
    FixedSplit(LABEL_STREAM, a, LABEL_STREAM, b);
  }
}
