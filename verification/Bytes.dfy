/** Octets, fixed-width integers and their big-endian encodings, shared by every other module. */
module Bytes {

  type byte = x: int | 0 <= x < 256
  type Octets = seq<byte>

  const MAX_U64: nat := 0xffff_ffff_ffff_ffff
  type uint64 = x: int | 0 <= x <= 0xffff_ffff_ffff_ffff

  datatype Option<+T> = None | Some(value: T)

  function Min(a: int, b: int): int {
    if a < b then a else b
  }

  /** The octets of a label written in ASCII. */
  function Ascii(text: string): Octets {
    seq(|text|, i requires 0 <= i < |text| => (text[i] as int) % 256)
  }

  /** Big-endian encoding of `n` on `width` octets; higher octets of `n` are dropped. */
  function EncodeBE(n: nat, width: nat): (r: Octets)
    ensures |r| == width
  {
    if width == 0 then [] else EncodeBE(n / 256, width - 1) + [n % 256]
  }

  function DecodeBE(s: Octets): (n: nat) {
    if s == [] then 0 else DecodeBE(s[..|s| - 1]) * 256 + s[|s| - 1]
  }

  function Pow256(width: nat): (p: nat)
    ensures p > 0
  {
    if width == 0 then 1 else 256 * Pow256(width - 1)
  }

  /** Decoding undoes encoding for every value that fits the width. */
  lemma {:induction false} DecodeEncodeBE(n: nat, width: nat)
    requires n < Pow256(width)
    ensures DecodeBE(EncodeBE(n, width)) == n
  {
    if width > 0 {
      var r := EncodeBE(n, width);
      assert r[..|r| - 1] == EncodeBE(n / 256, width - 1);
      DecodeEncodeBE(n / 256, width - 1);
    }
  }

  /** Encoding undoes decoding, so the big-endian form of a value is unique. */
  lemma {:induction false} EncodeDecodeBE(s: Octets)
    ensures DecodeBE(s) < Pow256(|s|)
    ensures EncodeBE(DecodeBE(s), |s|) == s
  {
    if s != [] {
      EncodeDecodeBE(s[..|s| - 1]);
      var hi := DecodeBE(s[..|s| - 1]);
      assert DecodeBE(s) / 256 == hi && DecodeBE(s) % 256 == s[|s| - 1];
      assert s == s[..|s| - 1] + [s[|s| - 1]];
    }
  }
}
