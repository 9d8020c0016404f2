/**
  Byte strings and the framings built from them: big-endian integers,
  length-prefixed fields and separator-delimited records.  Each framing is shown
  to be uniquely decodable, which is what every signature, key and hash over one
  of them relies on.
 */
module Bytes {
  type byte = b: int | 0 <= b < 256

  const TWO_64 := 0x1_0000_0000_0000_0000

  /** A buffer the host language can hold: its length fits the 64-bit prefix. */
  type Blob = s: seq<byte> | |s| < TWO_64

  function Pow256(k: nat): (p: nat)
    ensures p > 0
  {
    if k == 0 then 1 else 256 * Pow256(k - 1)
  }

  /** The k low bytes of n, most significant first. */
  function BigEndian(n: nat, k: nat): (s: seq<byte>)
    ensures |s| == k
  {
    if k == 0 then [] else BigEndian(n / 256, k - 1) + [n % 256]
  }

  lemma {:induction false} BigEndianInjective(m: nat, n: nat, k: nat)
    requires m < Pow256(k) && n < Pow256(k) && BigEndian(m, k) == BigEndian(n, k)
    ensures m == n
    decreases k
  {
    if k > 0 {
      var a, b := BigEndian(m, k), BigEndian(n, k);
      assert a[..k - 1] == BigEndian(m / 256, k - 1) && b[..k - 1] == BigEndian(n / 256, k - 1);
      assert a[k - 1] == m % 256 && b[k - 1] == n % 256;
      BigEndianInjective(m / 256, n / 256, k - 1);
    }
  }

  /** The number that bytes spell, most significant first. */
  function Spelled(s: seq<byte>): nat {
    if s == [] then 0 else s[0] * Pow256(|s| - 1) + Spelled(s[1..])
  }

  lemma {:induction false} SpelledNext(s: seq<byte>, b: byte)
    ensures Spelled(s + [b]) == 256 * Spelled(s) + b
  {
    if s == [] {
      assert s + [b] == [b] && [b][1..] == [];
      assert Pow256(0) == 1;
    } else {
      assert (s + [b])[1..] == s[1..] + [b];
      SpelledNext(s[1..], b);
      ShiftTerm(s[0], |s|);
    }
  }

  lemma ShiftTerm(b: byte, n: nat)
    requires n > 0
    ensures b * Pow256(n) == 256 * (b * Pow256(n - 1))
  {
    assert Pow256(n) == 256 * Pow256(n - 1);
  }

  /** The encoding spells its number. */
  lemma {:induction false} BigEndianSpells(n: nat, k: nat)
    requires n < Pow256(k)
    ensures Spelled(BigEndian(n, k)) == n
    decreases k
  {
    if k > 0 {
      BigEndianSpells(n / 256, k - 1);
      SpelledNext(BigEndian(n / 256, k - 1), n % 256);
    }
  }

  function U64(n: nat): (s: seq<byte>)
    ensures |s| == 8
  {
    BigEndian(n, 8)
  }

  lemma Pow256Of8()
    ensures Pow256(8) == TWO_64 && Pow256(4) == 0x1_0000_0000
  {
    assert Pow256(2) == 0x1_0000;
    assert Pow256(4) == 0x1_0000_0000 by { assert Pow256(3) == 0x100_0000; }
    assert Pow256(6) == 0x1_0000_0000_0000 by { assert Pow256(5) == 0x100_0000_0000; }
    assert Pow256(8) == TWO_64 by { assert Pow256(7) == 0x100_0000_0000_0000; }
  }

  lemma U64Spells(n: nat)
    requires n < TWO_64
    ensures |U64(n)| == 8 && Spelled(U64(n)) == n
  {
    Pow256Of8();
    BigEndianSpells(n, 8);
  }

  lemma U64Injective(m: nat, n: nat)
    requires m < TWO_64 && n < TWO_64 && U64(m) == U64(n)
    ensures m == n
  {
    Pow256Of8();
    BigEndianInjective(m, n, 8);
  }

  /** Two's complement, for the signed integers that are framed. */
  function TwosComplement(n: int, modulus: nat): (r: nat)
    requires 0 < modulus && -(modulus as int) <= 2 * n < modulus
    ensures r < modulus
  {
    if n < 0 then n + modulus else n
  }

  // --- Unique decoding ---

  lemma FixedSplit(a: seq<byte>, x: seq<byte>, b: seq<byte>, y: seq<byte>)
    requires |a| == |b| && a + x == b + y
    ensures a == b && x == y
  {
    assert (a + x)[..|a|] == a && (b + y)[..|b|] == b;
    assert (a + x)[|a|..] == x && (b + y)[|b|..] == y;
  }

  /** A field behind its 64-bit length. */
  function Field(f: Blob): (s: seq<byte>)
    ensures |s| == 8 + |f|
  {
    U64(|f|) + f
  }

  lemma FieldSplit(a: Blob, x: seq<byte>, b: Blob, y: seq<byte>)
    requires Field(a) + x == Field(b) + y
    ensures a == b && x == y
  {
    assert U64(|a|) + (a + x) == Field(a) + x;
    assert U64(|b|) + (b + y) == Field(b) + y;
    FixedSplit(U64(|a|), a + x, U64(|b|), b + y);
    U64Injective(|a|, |b|);
    FixedSplit(a, x, b, y);
  }

  /** A record ends at the first separator or at the end of the buffer. */
  ghost predicate Ends(sep: byte, s: seq<byte>) {
    s == [] || s[0] == sep
  }

  lemma {:induction false} SeparatorSplit(sep: byte, a: seq<byte>, x: seq<byte>, b: seq<byte>, y: seq<byte>)
    requires sep !in a && sep !in b && Ends(sep, x) && Ends(sep, y) && a + x == b + y
    ensures a == b && x == y
  {
    if a != [] && b != [] {
      assert (a + x)[0] == a[0] && (b + y)[0] == b[0];
      assert (a + x)[1..] == a[1..] + x && (b + y)[1..] == b[1..] + y;
      SeparatorSplit(sep, a[1..], x, b[1..], y);
      assert a == [a[0]] + a[1..] && b == [b[0]] + b[1..];
    } else {
      assert a == [] ==> a + x == x;
      assert b == [] ==> b + y == y;
    }
  }
}
