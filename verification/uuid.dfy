/** Host identities: 16 bytes, and the hyphenated lower-case text NetBox is stamped with. */
module Uuid {
  import opened Bytes

  type HostId = h: seq<byte> | |h| == 16 witness seq(16, i => 0)

  function HexDigit(n: nat): char
    requires n < 16
  {
    "0123456789abcdef"[n]
  }

  /** Two lower-case digits a byte. */
  function Hex(s: seq<byte>): (t: string)
    ensures |t| == 2 * |s|
  {
    if s == [] then [] else [HexDigit(s[0] / 16), HexDigit(s[0] % 16)] + Hex(s[1..])
  }

  lemma HexDigitInjective(m: nat, n: nat)
    requires m < 16 && n < 16 && HexDigit(m) == HexDigit(n)
    ensures m == n
  {
  }

  lemma {:induction false} HexInjective(a: seq<byte>, b: seq<byte>)
    requires Hex(a) == Hex(b)
    ensures a == b
  {
    if a != [] && b != [] {
      assert Hex(a)[0] == HexDigit(a[0] / 16) && Hex(b)[0] == HexDigit(b[0] / 16);
      assert Hex(a)[1] == HexDigit(a[0] % 16) && Hex(b)[1] == HexDigit(b[0] % 16);
      HexDigitInjective(a[0] / 16, b[0] / 16);
      HexDigitInjective(a[0] % 16, b[0] % 16);
      assert Hex(a)[2..] == Hex(a[1..]) && Hex(b)[2..] == Hex(b[1..]);
      HexInjective(a[1..], b[1..]);
      assert a == [a[0]] + a[1..] && b == [b[0]] + b[1..];
    }
  }

  lemma HexCut(a: seq<byte>, x: string, b: seq<byte>, y: string)
    requires |a| == |b| && Hex(a) + x == Hex(b) + y
    ensures a == b && x == y
  {
    assert (Hex(a) + x)[..2 * |a|] == Hex(a) && (Hex(b) + y)[..2 * |b|] == Hex(b);
    assert (Hex(a) + x)[2 * |a|..] == x && (Hex(b) + y)[2 * |b|..] == y;
    HexInjective(a, b);
  }

  /** The groups of the text, separated by hyphens. */
  function Groups(gs: seq<seq<byte>>): string
    decreases |gs|, 0
  {
    if gs == [] then [] else Hex(gs[0]) + Rest(gs[1..])
  }

  function Rest(gs: seq<seq<byte>>): string
    decreases |gs|, 1
  {
    if gs == [] then [] else "-" + Groups(gs)
  }

  lemma {:induction false} GroupsInjective(a: seq<seq<byte>>, b: seq<seq<byte>>)
    requires |a| == |b| && (forall i | 0 <= i < |a| :: |a[i]| == |b[i]|) && Groups(a) == Groups(b)
    ensures a == b
  {
    hide Hex;
    if a != [] {
      HexCut(a[0], Rest(a[1..]), b[0], Rest(b[1..]));
      if |a| > 1 {
        assert Rest(a[1..])[1..] == Groups(a[1..]) && Rest(b[1..])[1..] == Groups(b[1..]);
        GroupsInjective(a[1..], b[1..]);
      }
      assert a == [a[0]] + a[1..] && b == [b[0]] + b[1..];
    }
  }

  function Text(h: HostId): (t: string)
    ensures t != ""
  {
    var t := Groups([h[..4], h[4..6], h[6..8], h[8..10], h[10..]]);
    assert t[0] == Hex(h[..4])[0];
    t
  }

  /** Digit by digit: byte i of a hexadecimal text is its two digits, high one first. */
  lemma {:induction false} HexAt(s: seq<byte>, i: nat)
    requires i < |s|
    ensures Hex(s)[2 * i] == "0123456789abcdef"[s[i] / 16] && Hex(s)[2 * i + 1] == "0123456789abcdef"[s[i] % 16]
  {
    if i > 0 {
      HexAt(s[1..], i - 1);
      assert Hex(s)[2..] == Hex(s[1..]);
    }
  }

  /** The text of a host id: groups of 8, 4, 4, 4 and 12 digits, with hyphens between them. */
  lemma TextLayout(h: HostId)
    ensures Text(h) == Hex(h[..4]) + "-" + Hex(h[4..6]) + "-" + Hex(h[6..8]) + "-" + Hex(h[8..10]) + "-" + Hex(h[10..])
  {
    hide Hex;
    var a, b, c, d, e := h[..4], h[4..6], h[6..8], h[8..10], h[10..];
    assert Rest([e][1..]) == "" && Groups([e]) == Hex(e) + "";
    assert [d, e][1..] == [e] && Groups([d, e]) == Hex(d) + Rest([e]) && Rest([e]) == "-" + Groups([e]);
    assert [c, d, e][1..] == [d, e] && Groups([c, d, e]) == Hex(c) + Rest([d, e])
           && Rest([d, e]) == "-" + Groups([d, e]);
    assert [b, c, d, e][1..] == [c, d, e] && Groups([b, c, d, e]) == Hex(b) + Rest([c, d, e]);
    assert Rest([c, d, e]) == "-" + Groups([c, d, e]);
    assert [a, b, c, d, e][1..] == [b, c, d, e] && Groups([a, b, c, d, e]) == Hex(a) + Rest([b, c, d, e]);
    assert Rest([b, c, d, e]) == "-" + Groups([b, c, d, e]);
  }

  lemma TextInjective(a: HostId, b: HostId)
    requires Text(a) == Text(b)
    ensures a == b
  {
    GroupsInjective([a[..4], a[4..6], a[6..8], a[8..10], a[10..]], [b[..4], b[4..6], b[6..8], b[8..10], b[10..]]);
    assert a == a[..4] + a[4..6] + a[6..8] + a[8..10] + a[10..];
    assert b == b[..4] + b[4..6] + b[6..8] + b[8..10] + b[10..];
  }
}
