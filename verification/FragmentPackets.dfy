/** Fragments on the wire: parsing them, cutting a packet into them, and the packet's return. */
module FragmentPackets {
  import opened Bytes
  import opened Checksum
  import opened Reassembly
  import opened Fragments
  import opened FragmentRuns

  /** `Dropped` packets are well formed but ask for handling the tunnel does not give. */
  datatype FragmentParse = NotFragment | BadFragment | Dropped | IsFragment(f: Fragment)

  // ---------- IPv4 ----------

  function HeaderV4(s: Octets): nat
    requires s != []
  {
    (s[0] % 16) * 4
  }

  function KeyV4(s: Octets): Key
    requires |s| >= 20
  {
    Key(s[9], s[12..16], s[16..20], DecodeBE(s[4..6]))
  }

  /** A whole IPv4 packet whose header is sound. */
  predicate SoundV4(s: Octets) {
    && |s| >= 20 && s[0] / 16 == 4 && s[0] % 16 >= 5 && HeaderV4(s) <= |s|
    && DecodeBE(s[2..4]) == |s| && Sum(s[..HeaderV4(s)]) == 0 && s[8] != 0
  }

  function ParseFragmentV4(s: Octets, maximum: nat): (r: FragmentParse)
    ensures r.IsFragment? ==> ValidFragment(Ip4, r.f)
  {
    if s == [] || s[0] / 16 != 4 then NotFragment
    else if |s| > maximum || !SoundV4(s) then BadFragment
    else FragmentV4(s, maximum, DecodeBE(s[6..8]))
  }

  function FragmentV4(s: Octets, maximum: nat, flags: nat): (r: FragmentParse)
    requires SoundV4(s)
    ensures r.IsFragment? ==> ValidFragment(Ip4, r.f)
  {
    var more := flags / 0x2000 % 2 == 1;
    var offset := flags % 0x2000 * 8;
    var payload := s[HeaderV4(s)..];
    if flags / 0x8000 % 2 == 1 then BadFragment
    else if flags / 0x4000 % 2 == 1 && (more || offset != 0) then BadFragment
    else if !more && offset == 0 then NotFragment
    else if payload == [] || (more && |payload| % 8 != 0) || offset + |payload| > maximum - 20 then BadFragment
    else
      IsFragment(Fragment(KeyV4(s), if offset == 0 then s[..HeaderV4(s)] else [], Link(0, 0), Piece(offset, payload),
                          more))
  }

  // ---------- rewriting an IPv4 header ----------

  function BeforeSum(header: Octets, length: nat, flags: nat): (r: Octets)
    requires |header| >= 20
    ensures |r| == 10
  {
    header[..2] + EncodeBE(length, 2) + header[4..6] + EncodeBE(flags, 2) + header[8..10]
  }

  /** New length and flags, and a checksum to match. */
  function Rewrite(header: Octets, length: nat, flags: nat): (r: Octets)
    requires |header| >= 20
    ensures |r| == |header|
  {
    var before := BeforeSum(header, length, flags);
    before + EncodeBE(Sum(before + [0, 0] + header[12..]), 2) + header[12..]
  }

  lemma RewriteVerifies(header: Octets, length: nat, flags: nat)
    requires |header| >= 20
    ensures Sum(Rewrite(header, length, flags)) == 0
  {
    InsertedChecksumVerifies(BeforeSum(header, length, flags), header[12..]);
  }

  lemma BeforeSumFields(header: Octets, length: nat, flags: nat)
    requires |header| >= 20
    ensures var b := BeforeSum(header, length, flags);
            && b[..2] == header[..2] && b[2..4] == EncodeBE(length, 2) && b[4..6] == header[4..6]
            && b[6..8] == EncodeBE(flags, 2) && b[8..10] == header[8..10]
  {
  }

  lemma RewriteFields(header: Octets, length: nat, flags: nat)
    requires |header| >= 20
    ensures var r := Rewrite(header, length, flags);
            && r[..2] == header[..2] && r[2..4] == EncodeBE(length, 2) && r[4..6] == header[4..6]
            && r[6..8] == EncodeBE(flags, 2) && r[8..10] == header[8..10] && r[12..] == header[12..]
  {
    var b := BeforeSum(header, length, flags);
    var r := Rewrite(header, length, flags);
    BeforeSumFields(header, length, flags);
    assert r[..10] == b;
    assert r[..2] == r[..10][..2] && r[2..4] == r[..10][2..4] && r[4..6] == r[..10][4..6];
    assert r[6..8] == r[..10][6..8] && r[8..10] == r[..10][8..10];
  }

  /** The last rewriting is the one that shows. */
  lemma RewriteTwice(header: Octets, length1: nat, flags1: nat, length2: nat, flags2: nat)
    requires |header| >= 20
    ensures Rewrite(Rewrite(header, length1, flags1), length2, flags2) == Rewrite(header, length2, flags2)
  {
    RewriteFields(header, length1, flags1);
  }

  /** A verifying checksum other than 65535 is the one the adapter would compute. */
  lemma ChecksumIsCanonical(before: Octets, c: Octets, after: Octets)
    requires |before| % 2 == 0 && |c| == 2 && DecodeBE(c) != 65535
    requires Sum(before + c + after) == 0 && WordSum(before + [0, 0] + after) > 0
    ensures c == EncodeBE(Sum(before + [0, 0] + after), 2)
  {
    var value := DecodeBE(c);
    EncodeDecodeBE(c);
    assert Pow256(2) == 65536;
    var s := WordSum(before + [0, 0] + after);
    FieldAdds(before, value, after);
    VerifiesIff(before + c + after);
    ComplementCancels(s);
    FoldMeaning(s);
    SameModulo(s, value, 65535 - Fold(s));
  }

  lemma SameModulo(s: nat, a: nat, b: nat)
    requires (s + a) % 65535 == 0 && (s + b) % 65535 == 0 && a < 65535 && b < 65535
    ensures a == b
  {
  }

  lemma PositiveWord(s: Octets)
    requires |s| >= 2 && s[0] > 0
    ensures WordSum(s) > 0
  {
  }

  /** The checksum field of the header says zero as 0, not as 65535. */
  predicate Canonical(header: Octets) {
    |header| >= 20 && DecodeBE(header[10..12]) != 65535
  }

  /** Rewriting a sound header with its own length and flags changes nothing, unless its checksum field is 65535. */
  lemma RewriteSelfIff(header: Octets, length: nat, flags: nat)
    requires |header| >= 20 && header[0] > 0 && Sum(header) == 0
    requires header[2..4] == EncodeBE(length, 2) && header[6..8] == EncodeBE(flags, 2)
    ensures Rewrite(header, length, flags) == header <==> Canonical(header)
  {
    OwnFields(header, length, flags);
    PositiveWord(header[..10] + [0, 0] + header[12..]);
    FieldIsComputedIff(header[..10], header[10..12], header[12..]);
  }

  lemma OwnFields(header: Octets, length: nat, flags: nat)
    requires |header| >= 20 && header[2..4] == EncodeBE(length, 2) && header[6..8] == EncodeBE(flags, 2)
    ensures BeforeSum(header, length, flags) == header[..10]
    ensures header == header[..10] + header[10..12] + header[12..]
  {
    assert header[..10] == header[..2] + header[2..4] + header[4..6] + header[6..8] + header[8..10];
  }

  /** The computed checksum is the one that stands there exactly when that is not 65535. */
  lemma FieldIsComputedIff(before: Octets, c: Octets, after: Octets)
    requires |before| % 2 == 0 && |c| == 2 && Sum(before + c + after) == 0 && WordSum(before + [0, 0] + after) > 0
    ensures var sum := Sum(before + [0, 0] + after);
            before + EncodeBE(sum, 2) + after == before + c + after <==> DecodeBE(c) != 65535
  {
    var sum := Sum(before + [0, 0] + after);
    SameMiddle(before, EncodeBE(sum, 2), c, after);
    if DecodeBE(c) != 65535 {
      ChecksumIsCanonical(before, c, after);
    } else {
      ComputedIsNotOnes(before + [0, 0] + after);
      ReadTwo(sum);
    }
  }

  lemma SameMiddle(before: Octets, x: Octets, y: Octets, after: Octets)
    requires |x| == |y|
    ensures before + x + after == before + y + after <==> x == y
  {
    assert (before + x + after)[|before|..|before| + |x|] == x;
    assert (before + y + after)[|before|..|before| + |x|] == y;
  }

  lemma ComputedIsNotOnes(s: Octets)
    requires WordSum(s) > 0
    ensures Sum(s) != 65535
  {
    FoldMeaning(WordSum(s));
  }

  lemma PatchIsRewrite(header: Octets, total: nat)
    requires |header| >= 20 && header[6] / 64 % 2 == 0
    ensures PatchV4(header, total) == Rewrite(header, |header| + total, 0)
  {
  }

  // ---------- cutting an IPv4 packet ----------

  /** An unfragmented packet that may be cut. */
  predicate Cuttable(p: Octets) {
    SoundV4(p) && |p| <= 65535 && p[6..8] == [0, 0] && HeaderV4(p) < |p|
  }

  function DataV4(p: Octets): Octets
    requires SoundV4(p)
  {
    p[HeaderV4(p)..]
  }

  predicate CutPoints(p: Octets, a: nat, b: nat)
    requires SoundV4(p)
  {
    var n := |DataV4(p)|;
    a < b <= n && b - a < n && a % 8 == 0 && (b < n ==> b % 8 == 0)
  }

  function FlagsFor(a: nat, more: bool): nat {
    a / 8 + if more then 0x2000 else 0
  }

  /** The fragment that carries payload octets `a` to `b` (section 2.3 of RFC 791). */
  function CutV4(p: Octets, a: nat, b: nat): Octets
    requires SoundV4(p) && CutPoints(p, a, b)
  {
    var h := HeaderV4(p);
    Rewrite(p[..h], h + b - a, FlagsFor(a, b < |DataV4(p)|)) + DataV4(p)[a..b]
  }

  function FragmentFor(p: Octets, a: nat, b: nat): Fragment
    requires SoundV4(p) && CutPoints(p, a, b)
  {
    var h := HeaderV4(p);
    var n := |DataV4(p)|;
    Fragment(KeyV4(p), if a == 0 then Rewrite(p[..h], h + b - a, FlagsFor(a, b < n)) else [], Link(0, 0),
             Piece(a, DataV4(p)[a..b]), b < n)
  }

  lemma ReadTwo(n: nat)
    requires n < 65536
    ensures DecodeBE(EncodeBE(n, 2)) == n
  {
    assert Pow256(2) == 65536;
    DecodeEncodeBE(n, 2);
  }

  lemma FlagsReadBack(a: nat, more: bool)
    requires a < 65536 && a % 8 == 0
    ensures var flags := FlagsFor(a, more);
            && flags < 0x4000 && flags / 0x2000 % 2 == (if more then 1 else 0) && flags % 0x2000 * 8 == a
            && flags / 0x4000 % 2 == 0 && flags / 0x8000 % 2 == 0
  {
  }

  lemma PrefixFields(r: Octets, tail: Octets)
    requires |r| >= 20
    ensures var s := r + tail;
            && s[..|r|] == r && s[|r|..] == tail
            && s[..2] == r[..2] && s[2..4] == r[2..4] && s[4..6] == r[4..6] && s[6..8] == r[6..8]
            && s[8..10] == r[8..10]
            && s[12..20] == r[12..20]
  {
  }

  /** A rewritten header differs from the original in its length, flags and checksum only. */
  lemma RewrittenFields(header: Octets, rest: Octets, tail: Octets, length: nat, flags: nat)
    requires |header| >= 20
    ensures var p := header + rest; var s := Rewrite(header, length, flags) + tail;
            && s[..|header|] == Rewrite(header, length, flags) && s[|header|..] == tail
            && s[..2] == p[..2] && s[2..4] == EncodeBE(length, 2) && s[6..8] == EncodeBE(flags, 2)
            && s[8..10] == p[8..10] && s[12..20] == p[12..20] && s[4..6] == p[4..6]
  {
    var r := Rewrite(header, length, flags);
    RewriteFields(header, length, flags);
    PrefixFields(r, tail);
    PrefixFields(header, rest);
    assert r[12..20] == r[12..][..8] && header[12..20] == header[12..][..8];
  }

  lemma CutPrefix(p: Octets, a: nat, b: nat)
    requires Cuttable(p) && CutPoints(p, a, b)
    ensures var h := HeaderV4(p); var s := CutV4(p, a, b);
            && s[..h] == Rewrite(p[..h], h + b - a, FlagsFor(a, b < |DataV4(p)|)) && s[h..] == DataV4(p)[a..b]
            && s[..2] == p[..2] && s[2..4] == EncodeBE(|s|, 2) && s[6..8] == EncodeBE(FlagsFor(a, b < |DataV4(p)|), 2)
            && s[8..10] == p[8..10] && s[12..20] == p[12..20] && s[4..6] == p[4..6]
  {
    var h := HeaderV4(p);
    assert p[..h] + p[h..] == p;
    RewrittenFields(p[..h], p[h..], DataV4(p)[a..b], h + b - a, FlagsFor(a, b < |DataV4(p)|));
  }

  lemma CutIsSound(p: Octets, a: nat, b: nat)
    requires Cuttable(p) && CutPoints(p, a, b)
    ensures SoundV4(CutV4(p, a, b)) && HeaderV4(CutV4(p, a, b)) == HeaderV4(p) && KeyV4(CutV4(p, a, b)) == KeyV4(p)
  {
    var h := HeaderV4(p);
    var s := CutV4(p, a, b);
    CutPrefix(p, a, b);
    assert s[0] == s[..2][0] == p[0] && s[8] == s[8..10][0] == p[8] && s[9] == s[8..10][1] == p[9];
    assert s[12..16] == s[12..20][..4] && s[16..20] == s[12..20][4..];
    assert p[12..16] == p[12..20][..4] && p[16..20] == p[12..20][4..];
    ReadTwo(|s|);
    RewriteVerifies(p[..h], h + b - a, FlagsFor(a, b < |DataV4(p)|));
  }

  lemma CutFragment(p: Octets, a: nat, b: nat, maximum: nat)
    requires Cuttable(p) && CutPoints(p, a, b) && |p| <= maximum && SoundV4(CutV4(p, a, b))
    requires HeaderV4(CutV4(p, a, b)) == HeaderV4(p) && KeyV4(CutV4(p, a, b)) == KeyV4(p)
    ensures FragmentV4(CutV4(p, a, b), maximum, FlagsFor(a, b < |DataV4(p)|)) == IsFragment(FragmentFor(p, a, b))
  {
    var h, s := HeaderV4(p), CutV4(p, a, b);
    assert s[h..] == DataV4(p)[a..b];
    assert s[..h] == Rewrite(p[..h], h + b - a, FlagsFor(a, b < |DataV4(p)|));
    FlagsReadBack(a, b < |DataV4(p)|);
    assert b < |DataV4(p)| ==> (b - a) % 8 == 0;
  }

  /** The adapter reads a cut fragment as exactly the payload range it carries. */
  lemma CutParses(p: Octets, a: nat, b: nat, maximum: nat)
    requires Cuttable(p) && CutPoints(p, a, b) && |p| <= maximum
    ensures ParseFragmentV4(CutV4(p, a, b), maximum) == IsFragment(FragmentFor(p, a, b))
  {
    CutIsSound(p, a, b);
    CutFragment(p, a, b, maximum);
    var s := CutV4(p, a, b);
    var flags := FlagsFor(a, b < |DataV4(p)|);
    assert DecodeBE(s[6..8]) == flags by {
      CutPrefix(p, a, b);
      FlagsReadBack(a, b < |DataV4(p)|);
      ReadTwo(flags);
    }
  }

  lemma RewrittenPatch(header: Octets, original: Octets, length: nat, flags: nat, total: nat)
    requires IsRewriteOf(header, original, length, flags)
    ensures |header| == |original| && PatchV4(header, total) == Rewrite(original, |original| + total, 0)
  {
    RewriteFields(original, length, flags);
    assert header[6] == EncodeBE(flags, 2)[0] by {
      assert header[6..8][0] == header[6];
    }
    HighFlag(flags);
    PatchIsRewrite(header, total);
    RewriteTwice(original, length, flags, |original| + total, 0);
  }

  lemma OwnHeader(p: Octets)
    requires Cuttable(p)
    ensures var h := HeaderV4(p); Rewrite(p[..h], |p|, 0) == p[..h] <==> Canonical(p)
  {
    var h := HeaderV4(p);
    assert p[..h][2..4] == p[2..4] && p[..h][6..8] == p[6..8] && p[..h][10..12] == p[10..12];
    EncodeDecodeBE(p[2..4]);
    assert EncodeBE(0, 2) == [0, 0];
    RewriteSelfIff(p[..h], |p|, 0);
  }

  /** The header that the first fragment carries rewrites to the packet's own. */
  lemma PatchRestores(p: Octets, header: Octets)
    requires Cuttable(p)
    requires exists length, flags :: IsRewriteOf(header, p[..HeaderV4(p)], length, flags)
    ensures |header| == HeaderV4(p) && (PatchV4(header, |DataV4(p)|) + DataV4(p) == p <==> Canonical(p))
  {
    var h := HeaderV4(p);
    var length, flags :| IsRewriteOf(header, p[..h], length, flags);
    RewrittenPatch(header, p[..h], length, flags, |DataV4(p)|);
    OwnHeader(p);
    SameFront(PatchV4(header, |DataV4(p)|), p, h);
  }

  lemma SameFront(front: Octets, p: Octets, h: nat)
    requires |front| == h <= |p|
    ensures front + p[h..] == p <==> front == p[..h]
  {
    assert p == p[..h] + p[h..];
    assert (front + p[h..])[..h] == front;
  }

  predicate IsRewriteOf(header: Octets, original: Octets, length: nat, flags: nat) {
    |original| >= 20 && flags < 0x4000 && header == Rewrite(original, length, flags)
  }

  lemma HighFlag(flags: nat)
    requires flags < 0x4000
    ensures EncodeBE(flags, 2)[0] / 64 % 2 == 0
  {
    assert EncodeBE(flags, 2) == [flags / 256 % 256, flags % 256];
  }

  // ---------- the packet's return ----------

  datatype Cut = Cut(from: nat, to: nat)

  /** Ranges of the payload, in arrival order, that do not overlap and leave nothing out. */
  predicate IsCutting(p: Octets, cuts: seq<Cut>)
    requires SoundV4(p)
  {
    && 0 < |cuts| <= MAX_PIECES
    && (forall i :: 0 <= i < |cuts| ==> CutPoints(p, cuts[i].from, cuts[i].to))
    && Disjoint(PiecesOf(FragmentsOf(p, cuts))) && Total(PiecesOf(FragmentsOf(p, cuts))) == |DataV4(p)|
  }

  function FragmentsOf(p: Octets, cuts: seq<Cut>): seq<Fragment>
    requires SoundV4(p) && forall i :: 0 <= i < |cuts| ==> CutPoints(p, cuts[i].from, cuts[i].to)
  {
    seq(|cuts|, i requires 0 <= i < |cuts| => FragmentFor(p, cuts[i].from, cuts[i].to))
  }

  lemma FragmentIsPart(p: Octets, cut: Cut, header: Octets)
    requires SoundV4(p) && CutPoints(p, cut.from, cut.to)
    requires cut.from == 0 ==> FragmentFor(p, cut.from, cut.to).header == header
    ensures PartOf(Ip4, Original(KeyV4(p), header, Link(0, 0), DataV4(p)), FragmentFor(p, cut.from, cut.to))
  {
  }

  lemma OneStarts(p: Octets, cuts: seq<Cut>, i: nat, j: nat)
    requires SoundV4(p) && IsCutting(p, cuts) && i < |cuts| && j < |cuts| && cuts[i].from == 0 && cuts[j].from == 0
    ensures i == j
  {
    var pieces := PiecesOf(FragmentsOf(p, cuts));
    assert CutPoints(p, cuts[i].from, cuts[i].to) && CutPoints(p, cuts[j].from, cuts[j].to);
    assert CoveredBy(pieces, 0, i) && CoveredBy(pieces, 0, j);
  }

  /** The header at offset zero, and what it says of the packet's own. */
  lemma FirstHeader(p: Octets, cuts: seq<Cut>) returns (header: Octets)
    requires Cuttable(p) && IsCutting(p, cuts)
    ensures |header| == HeaderV4(p) && (PatchV4(header, |DataV4(p)|) + DataV4(p) == p <==> Canonical(p))
    ensures forall i :: 0 <= i < |cuts| && cuts[i].from == 0 ==> FragmentsOf(p, cuts)[i].header == header
  {
    var first := StartingCut(p, cuts);
    header := FragmentsOf(p, cuts)[first].header;
    forall i | 0 <= i < |cuts| && cuts[i].from == 0 ensures FragmentsOf(p, cuts)[i].header == header {
      OneStarts(p, cuts, first, i);
    }
    assert CutPoints(p, cuts[first].from, cuts[first].to);
    StartingHeader(p, cuts[first].to, header);
  }

  /** Some fragment carries the first octet. */
  lemma StartingCut(p: Octets, cuts: seq<Cut>) returns (first: nat)
    requires Cuttable(p) && IsCutting(p, cuts)
    ensures first < |cuts| && cuts[first].from == 0
  {
    var pieces := PiecesOf(FragmentsOf(p, cuts));
    forall i | 0 <= i < |pieces| ensures End(pieces[i]) <= |DataV4(p)| {
      assert CutPoints(p, cuts[i].from, cuts[i].to);
    }
    first := CoveringPiece(pieces, |DataV4(p)|, 0);
    assert pieces[first].offset == cuts[first].from;
  }

  lemma StartingHeader(p: Octets, to: nat, header: Octets)
    requires Cuttable(p) && CutPoints(p, 0, to) && header == FragmentFor(p, 0, to).header
    ensures |header| == HeaderV4(p) && (PatchV4(header, |DataV4(p)|) + DataV4(p) == p <==> Canonical(p))
  {
    var h, n := HeaderV4(p), |DataV4(p)|;
    FlagsReadBack(0, to < n);
    assert IsRewriteOf(header, p[..h], h + to, FlagsFor(0, to < n));
    PatchRestores(p, header);
  }

  /** The fragments of a cutting, seen as parts of the original packet. */
  lemma CuttingIsCut(l: Limits, p: Octets, cuts: seq<Cut>) returns (o: Original)
    requires l.family.Ip4? && Cuttable(p) && |p| <= l.maximumPacket && IsCutting(p, cuts)
    ensures o.key == KeyV4(p) && IsCut(l, o, FragmentsOf(p, cuts)) && (Rebuilt(Ip4, o) == p <==> Canonical(p))
  {
    var fs := FragmentsOf(p, cuts);
    var header := FirstHeader(p, cuts);
    o := Original(KeyV4(p), header, Link(0, 0), DataV4(p));
    forall i | 0 <= i < |fs| ensures PartOf(Ip4, o, fs[i]) {
      assert CutPoints(p, cuts[i].from, cuts[i].to);
      FragmentIsPart(p, cuts[i], header);
    }
  }

  /**
   * Fragmentation is invisible: cut a packet anywhere the standard allows, let its fragments arrive in any order
   * among any others, and the last one to arrive gives back the very same octets. The one exception is a packet
   * whose header checksum was sent as 65535: it comes back with the equivalent 0.
   */
  lemma CutPacketReturns(l: Limits, p: Octets, cuts: seq<Cut>, t: Table, events: seq<Event>, n: nat)
    requires l.family.Ip4? && Cuttable(p) && |p| <= l.maximumPacket && IsCutting(p, cuts)
    requires InTime(l, t, events, KeyV4(p)) && Mine(events, KeyV4(p)) == FragmentsOf(p, cuts)
    requires n < |events| && events[n].f.key == KeyV4(p)
    ensures |Mine(events[..n + 1], KeyV4(p))| < |cuts| ==> Answer(l, t, events, n) == Waiting
    ensures |Mine(events[..n + 1], KeyV4(p))| == |cuts| ==>
      Answer(l, t, events, n).Whole? && (Answer(l, t, events, n) == Whole(p) <==> Canonical(p))
  {
    var o := CuttingIsCut(l, p, cuts);
    EveryOrderReassembles(l, o, FragmentsOf(p, cuts), t, events, n);
  }

  // ---------- a packet that comes back changed ----------

  /** The header of a 36-octet packet whose words, the checksum field of 65535 left out, add up to 65535. */
  predicate OddHeader(h: Octets) {
    && |h| == 20
    && h[0] == 0x45 && h[1] == 0 && h[2] == 0 && h[3] == 36 && h[4] == 0 && h[5] == 0 && h[6] == 0 && h[7] == 0
    && h[8] == 64 && h[9] == 17 && h[10] == 0xff && h[11] == 0xff
    && h[12] == 10 && h[13] == 0 && h[14] == 0 && h[15] == 1 && h[16] == 10 && h[17] == 0 && h[18] == 0x66
    && h[19] == 0xc9
  }

  const TWO_CUTS := [Cut(0, 8), Cut(8, 16)]

  function WordAt(s: Octets, i: nat): nat
    requires i + 2 <= |s|
  {
    (s[i] as nat) * 256 + s[i + 1] as nat
  }

  lemma FirstWord(s: Octets, i: nat)
    requires i + 2 <= |s|
    ensures WordSum(s[i..]) == WordAt(s, i) + WordSum(s[i + 2..])
  {
    assert s[i..][2..] == s[i + 2..];
  }

  lemma TenWords(s: Octets)
    requires |s| == 20
    ensures WordSum(s) == WordAt(s, 0) + WordAt(s, 2) + WordAt(s, 4) + WordAt(s, 6) + WordAt(s, 8) + WordAt(s, 10)
                          + WordAt(s, 12) + WordAt(s, 14) + WordAt(s, 16) + WordAt(s, 18)
  {
    assert s[0..] == s && s[20..] == [];
    FirstWord(s, 0);
    FirstWord(s, 2);
    FirstWord(s, 4);
    FirstWord(s, 6);
    FirstWord(s, 8);
    FirstWord(s, 10);
    FirstWord(s, 12);
    FirstWord(s, 14);
    FirstWord(s, 16);
    FirstWord(s, 18);
  }

  lemma OddHeaderVerifies(header: Octets)
    requires OddHeader(header)
    ensures Sum(header) == 0
  {
    TenWords(header);
    VerifiesIff(header);
  }

  lemma TwoOctets(s: Octets, i: nat, n: nat)
    requires i + 2 <= |s| && n < 65536 && s[i] == n / 256 && s[i + 1] == n % 256
    ensures s[i..i + 2] == EncodeBE(n, 2) && DecodeBE(s[i..i + 2]) == n
  {
    assert EncodeBE(n, 2) == [n / 256 % 256, n % 256];
    ReadTwo(n);
  }

  lemma OddPacketIsCuttable(p: Octets, header: Octets, payload: Octets)
    requires OddHeader(header) && |payload| == 16 && p == header + payload
    ensures Cuttable(p) && !Canonical(p) && DataV4(p) == payload
  {
    OddHeaderVerifies(header);
    assert p[..20] == header && p[20..] == payload;
    assert forall i :: 0 <= i < 20 ==> p[i] == header[i];
    TwoOctets(p, 2, 36);
    TwoOctets(p, 10, 65535);
    assert p[6..8] == [0, 0];
  }

  lemma TwoCutsCut(p: Octets, cuts: seq<Cut>)
    requires SoundV4(p) && |DataV4(p)| == 16 && cuts == TWO_CUTS
    ensures IsCutting(p, cuts)
  {
    assert cuts[0] == Cut(0, 8) && cuts[1] == Cut(8, 16);
    assert CutPoints(p, 0, 8) && CutPoints(p, 8, 16);
    var pieces := PiecesOf(FragmentsOf(p, cuts));
    assert |pieces| == 2 && pieces[0].offset == 0 && pieces[1].offset == 8;
    assert |pieces[0].payload| == 8 && |pieces[1].payload| == 8;
    assert pieces[..1][..0] == [] && pieces[..1][0] == pieces[0];
    assert Total(pieces[..1]) == 8;
  }

  /** There is such a packet; cut in two, in whatever order its halves arrive, it does not come back as it was sent. */
  lemma OddPacketComesBackChanged(l: Limits, header: Octets, payload: Octets, p: Octets, t: Table, events: seq<Event>,
                                  n: nat)
    requires OddHeader(header) && |payload| == 16 && p == header + payload && l.family.Ip4? && |p| <= l.maximumPacket
    ensures Cuttable(p) && IsCutting(p, TWO_CUTS)
    ensures InTime(l, t, events, KeyV4(p)) && Mine(events, KeyV4(p)) == FragmentsOf(p, TWO_CUTS)
            && n < |events| && events[n].f.key == KeyV4(p) && |Mine(events[..n + 1], KeyV4(p))| == 2
            ==> Answer(l, t, events, n).Whole? && Answer(l, t, events, n) != Whole(p)
  {
    OddPacketIsCuttable(p, header, payload);
    TwoCutsCut(p, TWO_CUTS);
    if InTime(l, t, events, KeyV4(p)) && Mine(events, KeyV4(p)) == FragmentsOf(p, TWO_CUTS)
       && n < |events| && events[n].f.key == KeyV4(p) {
      CutPacketReturns(l, p, TWO_CUTS, t, events, n);
    }
  }
}
