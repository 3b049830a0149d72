/** The Internet checksum (section 1 of RFC 1071) as the packet adapter computes it. */
module Checksum {
  import opened Bytes

  /** The sum of the big-endian 16-bit words; an odd last octet is padded with zero. */
  function WordSum(s: Octets): nat {
    if s == [] then 0
    else if |s| == 1 then s[0] * 256
    else s[0] * 256 + s[1] + WordSum(s[2..])
  }

  /** Adds the carries back in until the sum fits 16 bits. */
  function Fold(sum: nat): nat {
    if sum < 65536 then sum else Fold(sum % 65536 + sum / 65536)
  }

  function Sum(s: Octets): (c: nat)
    ensures c < 65536
  {
    FoldMeaning(WordSum(s));
    65535 - Fold(WordSum(s))
  }

  /** Folding keeps the value modulo 65535, ends below 65536, and is zero for zero only. */
  lemma {:induction false} FoldMeaning(sum: nat)
    ensures Fold(sum) < 65536 && Fold(sum) % 65535 == sum % 65535 && (Fold(sum) == 0 <==> sum == 0)
    decreases sum
  {
    if sum >= 65536 {
      var next := sum % 65536 + sum / 65536;
      OneFold(sum, next, sum / 65536, sum % 65536);
      FoldMeaning(next);
    }
  }

  lemma OneFold(sum: nat, next: nat, high: nat, low: nat)
    requires sum == 65536 * high + low && next == low + high && high > 0
    ensures 0 < next < sum && next % 65535 == sum % 65535
  {
    assert sum == next + 65535 * high;
    AddMultiple(next, high);
  }

  lemma AddMultiple(a: nat, k: nat)
    ensures (a + 65535 * k) % 65535 == a % 65535
  {
    var q, r := a / 65535, a % 65535;
    assert a + 65535 * k == 65535 * (q + k) + r;
    RemainderOf(a + 65535 * k, q + k, r);
  }

  lemma RemainderOf(a: nat, q: nat, r: nat)
    requires a == 65535 * q + r && r < 65535
    ensures a % 65535 == r
  {
  }

  /** A text verifies exactly when its word sum is a positive multiple of 65535. */
  lemma VerifiesIff(s: Octets)
    ensures Sum(s) == 0 <==> WordSum(s) > 0 && WordSum(s) % 65535 == 0
  {
    FoldMeaning(WordSum(s));
  }

  lemma {:induction false} WordSumConcat(a: Octets, b: Octets)
    requires |a| % 2 == 0
    ensures WordSum(a + b) == WordSum(a) + WordSum(b)
  {
    if a == [] {
      assert a + b == b;
    } else {
      assert (a + b)[2..] == a[2..] + b;
      WordSumConcat(a[2..], b);
    }
  }

  lemma {:induction false} WordSumAppend(a: Octets, v: byte)
    ensures WordSum(a + [v]) == WordSum(a) + (if |a| % 2 == 0 then v * 256 else v)
    decreases |a|
  {
    if |a| >= 2 {
      assert (a + [v])[2..] == a[2..] + [v];
      WordSumAppend(a[2..], v);
    }
  }

  lemma {:induction false} WordSumBounded(s: Octets)
    ensures 2 * WordSum(s) <= 65535 * (|s| + 1)
  {
    if |s| >= 2 {
      WordSumBounded(s[2..]);
    }
  }

  /** Writing a 16-bit value into an even, zeroed field adds it to the word sum. */
  lemma FieldAdds(before: Octets, value: nat, after: Octets)
    requires |before| % 2 == 0 && value < 65536
    ensures WordSum(before + EncodeBE(value, 2) + after) == WordSum(before + [0, 0] + after) + value
  {
    var field := EncodeBE(value, 2);
    WordSumConcat(before + field, after);
    WordSumConcat(before + [0, 0], after);
    WordSumConcat(before, field);
    WordSumConcat(before, [0, 0]);
    assert EncodeBE(value, 2) == [(value / 256) % 256, value % 256];
    assert WordSum(field[2..]) == 0;
  }

  lemma ComplementCancels(s: nat)
    ensures var c := 65535 - Fold(s); c >= 0 && s + c > 0 && (s + c) % 65535 == 0
  {
    FoldMeaning(s);
    var f := Fold(s);
    assert s == 65535 * (s / 65535) + s % 65535;
    assert f == 65535 * (f / 65535) + f % 65535;
    assert s + (65535 - f) == 65535 * (s / 65535 - f / 65535 + 1);
  }

  /** The checksum of the text with a zeroed field, written into that field, makes the text verify. */
  lemma InsertedChecksumVerifies(before: Octets, after: Octets)
    requires |before| % 2 == 0
    ensures var c := Sum(before + [0, 0] + after); Sum(before + EncodeBE(c, 2) + after) == 0
  {
    var c := Sum(before + [0, 0] + after);
    ComplementCancels(WordSum(before + [0, 0] + after));
    FieldAdds(before, c, after);
    VerifiesIff(before + EncodeBE(c, 2) + after);
  }

  /** So does 65535 in place of a computed zero, which UDP must not transmit. */
  lemma InsertedOnesVerify(before: Octets, after: Octets)
    requires |before| % 2 == 0 && Sum(before + [0, 0] + after) == 0
    ensures Sum(before + EncodeBE(65535, 2) + after) == 0
  {
    ValueVerifies(before, 65535, after);
  }

  lemma ValueVerifies(before: Octets, value: nat, after: Octets)
    requires |before| % 2 == 0 && Sum(before + [0, 0] + after) == 0 && value == 65535
    ensures Sum(before + EncodeBE(value, 2) + after) == 0
  {
    VerifiesIff(before + [0, 0] + after);
    FieldAdds(before, value, after);
    AddMultiple(WordSum(before + [0, 0] + after), 1);
    VerifiesIff(before + EncodeBE(value, 2) + after);
  }

  // ---------- the loop ----------

  function Flatten(parts: seq<Octets>): Octets {
    if parts == [] then [] else Flatten(parts[..|parts| - 1]) + parts[|parts| - 1]
  }

  /** What the accumulator stands for: whole words summed so far, and a pending odd octet. */
  ghost predicate Accumulates(text: Octets, sum: nat, odd: byte, hasOdd: bool) {
    hasOdd == (|text| % 2 == 1) && WordSum(text) == sum + (if hasOdd then odd * 256 else 0)
  }

  lemma AccumulateStep(text: Octets, sum: nat, odd: byte, hasOdd: bool, v: byte)
    requires Accumulates(text, sum, odd, hasOdd)
    ensures if hasOdd then Accumulates(text + [v], sum + (odd * 256 + v), odd, false)
            else Accumulates(text + [v], sum, v, true)
  {
    WordSumAppend(text, v);
  }

  /** Adds one part to the 32-bit accumulator. */
  method AddPart(ghost text: Octets, part: Octets, sum0: nat, odd0: byte, hasOdd0: bool)
    returns (sum: nat, odd: byte, hasOdd: bool)
    requires sum0 < 0x1_0000_0000
    ensures sum < 0x1_0000_0000
    ensures |text + part| <= 131070 && Accumulates(text, sum0, odd0, hasOdd0)
            ==> Accumulates(text + part, sum, odd, hasOdd)
  {
    sum, odd, hasOdd := sum0, odd0, hasOdd0;
    ghost var fits := |text + part| <= 131070 && Accumulates(text, sum0, odd0, hasOdd0);
    assert text + part[..0] == text;
    for j := 0 to |part|
      invariant sum < 0x1_0000_0000
      invariant fits ==> Accumulates(text + part[..j], sum, odd, hasOdd)
    {
      ghost var next := text + part[..j + 1];
      assert next == (text + part[..j]) + [part[j]];
      if fits {
        AccumulateStep(text + part[..j], sum, odd, hasOdd, part[j]);
        WordSumBounded(next);
      }
      if !hasOdd {
        odd, hasOdd := part[j], true;
      } else {
        sum := (sum + (odd * 256 + part[j])) % 0x1_0000_0000;
        hasOdd := false;
      }
    }
    assert part[..|part|] == part;
  }

  /** Folds the carries of the accumulator. */
  method FoldCarries(sum0: nat) returns (sum: nat)
    ensures sum == Fold(sum0)
  {
    sum := sum0;
    while sum / 65536 != 0
      invariant Fold(sum) == Fold(sum0)
      decreases sum
    {
      sum := sum % 65536 + sum / 65536;
    }
  }

  /**
   * Octets are paired across the parts. The 32-bit accumulator never wraps for texts up to 131070
   * octets, so the result is the checksum of the concatenated parts.
   */
  method PacketAdapterChecksum(parts: seq<Octets>) returns (c: nat)
    ensures |Flatten(parts)| <= 131070 ==> c == Sum(Flatten(parts))
  {
    var sum: nat, odd: byte, hasOdd := 0, 0, false;
    ghost var fits := |Flatten(parts)| <= 131070;
    for i := 0 to |parts|
      invariant sum < 0x1_0000_0000
      invariant fits ==> Accumulates(Flatten(parts[..i]), sum, odd, hasOdd)
    {
      PrefixShorter(parts, i);
      assert parts[..i + 1][..i] == parts[..i];
      sum, odd, hasOdd := AddPart(Flatten(parts[..i]), parts[i], sum, odd, hasOdd);
    }
    assert parts[..|parts|] == parts;
    c := Finish(Flatten(parts), sum, odd, hasOdd);
  }

  /** Pads a pending octet, folds the carries and complements. */
  method Finish(ghost text: Octets, sum: nat, odd: byte, hasOdd: bool) returns (c: nat)
    requires sum < 0x1_0000_0000
    ensures |text| <= 131070 && Accumulates(text, sum, odd, hasOdd) ==> c == Sum(text)
  {
    var total := if hasOdd then (sum + odd * 256) % 0x1_0000_0000 else sum;
    TotalIsWordSum(text, sum, odd, hasOdd);
    FoldMeaning(total);
    var folded := FoldCarries(total);
    c := 65535 - folded;
  }

  /** The padded accumulator does not wrap. */
  lemma TotalIsWordSum(text: Octets, sum: nat, odd: byte, hasOdd: bool)
    requires sum < 0x1_0000_0000
    ensures |text| <= 131070 && Accumulates(text, sum, odd, hasOdd) ==>
              WordSum(text) == if hasOdd then (sum + odd * 256) % 0x1_0000_0000 else sum
  {
    WordSumBounded(text);
  }

  lemma {:induction false} PrefixShorter(parts: seq<Octets>, i: nat)
    requires i < |parts|
    ensures |Flatten(parts[..i])| + |parts[i]| <= |Flatten(parts)|
    decreases |parts|
  {
    var n := |parts| - 1;
    if i < n {
      assert parts[..n][..i] == parts[..i] && parts[..n][i] == parts[i];
      PrefixShorter(parts[..n], i);
    }
  }
}
