/** The canonical wire primitives: variable-length integers and length-prefixed octets. */
module Wire {
  import opened Arith
  import opened Bytes

  const MAX_VARINT: nat := 0x3fff_ffff_ffff_ffff

  function VarintLength(v: nat): (n: nat)
    requires v <= MAX_VARINT
    ensures n in {1, 2, 4, 8}
  {
    if v <= 63 then 1 else if v <= 16383 then 2 else if v <= 1073741823 then 4 else 8
  }

  /** The two bits that announce the width, in place above the value. */
  function WidthMark(width: nat): nat
    requires width in {1, 2, 4, 8}
  {
    if width == 1 then 0
    else if width == 2 then 0x4000
    else if width == 4 then 0x8000_0000
    else 0xc000_0000_0000_0000
  }

  function Varint(v: nat): (s: Octets)
    requires v <= MAX_VARINT
    ensures |s| == VarintLength(v)
  {
    EncodeBE(v + WidthMark(VarintLength(v)), VarintLength(v))
  }

  datatype Decoded = Decoded(value: nat, rest: Octets)

  /** The width that the two leading bits announce. */
  function AnnouncedWidth(first: byte): (n: nat)
    ensures n in {1, 2, 4, 8}
  {
    if first < 64 then 1 else if first < 128 then 2 else if first < 192 then 4 else 8
  }

  /** Reads one varint; short, and non-minimal encodings are refused. */
  function DecodeVarint(s: Octets): (r: Option<Decoded>) {
    if s == [] then None
    else
      var width := AnnouncedWidth(s[0]);
      if |s| < width then None
      else
        var v := DecodeBE(s[..width]) - WidthMark(width);
        if v < 0 || v > MAX_VARINT || VarintLength(v) != width then None
        else Some(Decoded(v, s[width..]))
  }

  lemma Widths()
    ensures Pow256(1) == 0x100 && Pow256(2) == 0x1_0000 && Pow256(4) == 0x1_0000_0000
    ensures Pow256(3) == 0x100_0000 && Pow256(7) == 0x100_0000_0000_0000 && Pow256(8) == 0x1_0000_0000_0000_0000
  {
    assert Pow256(3) == 256 * Pow256(2);
    assert Pow256(4) == 256 * Pow256(3);
    assert Pow256(5) == 256 * Pow256(4);
    assert Pow256(6) == 256 * Pow256(5);
    assert Pow256(7) == 256 * Pow256(6);
  }

  /** The first octet is the value divided by the weight of the others. */
  lemma {:induction false} LeadingOctet(n: nat, width: nat)
    requires width > 0 && n < Pow256(width)
    ensures EncodeBE(n, width)[0] == n / Pow256(width - 1)
  {
    if width > 1 {
      LeadingOctet(n / 256, width - 1);
      DivideTwice(n, Pow256(width - 2));
    }
  }

  lemma VarintLead(v: nat)
    requires v <= MAX_VARINT
    ensures var w := VarintLength(v);
            v + WidthMark(w) < Pow256(w) && AnnouncedWidth(Varint(v)[0]) == w
  {
    Widths();
    var w := VarintLength(v);
    LeadingOctet(v + WidthMark(w), w);
  }

  /** Every varint is read back, whatever follows it. */
  lemma VarintRoundTrip(v: nat, rest: Octets)
    requires v <= MAX_VARINT
    ensures DecodeVarint(Varint(v) + rest) == Some(Decoded(v, rest))
  {
    VarintLead(v);
    DecodeEncodeBE(v + WidthMark(VarintLength(v)), VarintLength(v));
    DecodesTo(Varint(v), rest, VarintLength(v), v);
  }

  lemma DecodesTo(head: Octets, rest: Octets, w: nat, v: nat)
    requires v <= MAX_VARINT && w == VarintLength(v) == |head| && AnnouncedWidth(head[0]) == w
    requires DecodeBE(head) == v + WidthMark(w)
    ensures DecodeVarint(head + rest) == Some(Decoded(v, rest))
  {
    var s := head + rest;
    assert s[0] == head[0];
    assert s[..w] == head && s[w..] == rest;
  }

  /** Two varints that start the same text are the same. */
  lemma VarintPrefixFree(a: nat, x: Octets, b: nat, y: Octets)
    requires a <= MAX_VARINT && b <= MAX_VARINT
    requires Varint(a) + x == Varint(b) + y
    ensures a == b && x == y
  {
    VarintRoundTrip(a, x);
    VarintRoundTrip(b, y);
  }

  function Opaque16(s: Octets): (r: Octets)
    requires |s| <= 0xffff
    ensures |r| == 2 + |s|
  {
    EncodeBE(|s|, 2) + s
  }

  lemma Opaque16PrefixFree(a: Octets, x: Octets, b: Octets, y: Octets)
    requires |a| <= 0xffff && |b| <= 0xffff
    requires Opaque16(a) + x == Opaque16(b) + y
    ensures a == b && x == y
  {
    var s := Opaque16(a) + x;
    Widths();
    assert s[..2] == EncodeBE(|a|, 2);
    assert s[..2] == EncodeBE(|b|, 2);
    DecodeEncodeBE(|a|, 2);
    DecodeEncodeBE(|b|, 2);
    assert s[2..2 + |a|] == a && s[2 + |a|..] == x;
    assert s[2..2 + |b|] == b && s[2 + |b|..] == y;
  }

  /** Fields of known width split a text in one way only. */
  lemma FixedPrefix(a: Octets, x: Octets, b: Octets, y: Octets)
    requires |a| == |b| && a + x == b + y
    ensures a == b && x == y
  {
    assert (a + x)[..|a|] == a && (b + y)[..|b|] == b;
    assert (a + x)[|a|..] == x && (b + y)[|b|..] == y;
  }
}
