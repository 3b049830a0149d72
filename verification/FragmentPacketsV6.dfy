/** IPv6 fragments on the wire: the walk to the fragment header, cutting, and the packet's return. */
module FragmentPacketsV6 {
  import opened Bytes
  import opened Reassembly
  import opened Fragments
  import opened FragmentRuns
  import opened FragmentPackets
  import opened IpPacket

  predicate SoundV6(s: Octets) {
    |s| >= 40 && s[0] / 16 == 6 && DecodeBE(s[4..6]) == |s| - 40 && s[7] != 0
  }

  function ParseFragmentV6(s: Octets, maximum: nat): (r: FragmentParse)
    ensures r.IsFragment? ==> ValidFragment(Ip6, r.f)
  {
    if s == [] || s[0] / 16 != 6 then NotFragment
    else if |s| > maximum || !SoundV6(s) then BadFragment
    else Walk(s, maximum, s[6], 6, 40, 0, false)
  }

  /** Walks the extension headers to the fragment header, remembering where each next-header octet sits. */
  function Walk(s: Octets, maximum: nat, next: byte, at: nat, offset: nat, count: nat,
                seenDestination: bool): (r: FragmentParse)
    requires |s| >= 40 && 40 <= offset && at < offset && count <= 2
    ensures r.IsFragment? ==> ValidFragment(Ip6, r.f)
    decreases 3 - count
  {
    if next == TCP || next == UDP then NotFragment
    else if next == FRAGMENT then
      if count >= 2 || offset + 8 > |s| || s[offset + 1] != 0 then BadFragment
      else FragmentAt(s, maximum, at, offset, seenDestination, DecodeBE(s[offset + 2..offset + 4]))
    else if next != HOP_BY_HOP && next != DESTINATION then NotFragment
    else if (next == HOP_BY_HOP && count != 0) || (next == DESTINATION && seenDestination)
      || count >= 2 then BadFragment
    else if offset + 2 > |s| || UnitLength(s[offset + 1]) > |s| - offset then BadFragment
    else
      var length := UnitLength(s[offset + 1]);
      var options := SkipOptions(s[offset + 2..offset + length]);
      if options.BadOption? then if options.why.Unsupported? then Dropped else BadFragment
      else Walk(s, maximum, s[offset], offset, offset + length, count + 1, seenDestination || next == DESTINATION)
  }

  function FragmentAt(s: Octets, maximum: nat, at: nat, offset: nat, seenDestination: bool,
                      flags: nat): (r: FragmentParse)
    requires at < offset && 40 <= offset && offset + 8 <= |s|
    ensures r.IsFragment? ==> ValidFragment(Ip6, r.f)
  {
    var next := s[offset];
    var from := flags / 8 * 8;
    var more := flags % 2 == 1;
    var payload := s[offset + 8..];
    if flags / 2 % 4 != 0 then BadFragment
    else if (next != TCP && next != UDP && next != DESTINATION)
      || (next == DESTINATION && seenDestination) then BadFragment
    else if from == 0 && !more then NotFragment
    else if payload == [] || (more && |payload| % 8 != 0) || from + |payload| > maximum - 40 then BadFragment
    else
      IsFragment(Fragment(Key(0, s[8..24], s[24..40], DecodeBE(s[offset + 4..offset + 8])),
                          s[..4] + [0, 0] + s[6..offset], Link(at, next), Piece(from, payload), more))
  }

  // ---------- where a packet may be cut ----------

  /**
   * From here the extension headers lead to `u`, the end of the part that every fragment repeats; `link` is the octet
   * that names what follows it.
   */
  predicate Chain(p: Octets, at: nat, offset: nat, count: nat, seenDestination: bool, u: nat, link: nat)
    requires at < |p| && count <= 2
    decreases 3 - count
  {
    var next := p[at];
    if offset == u then
      at == link && count < 2 && (next == TCP || next == UDP || (next == DESTINATION && !seenDestination))
    else
      && count < 2 && ((next == HOP_BY_HOP && count == 0) || (next == DESTINATION && !seenDestination))
      && offset + 2 <= u <= |p| && offset + UnitLength(p[offset + 1]) <= u
      && SkipOptions(p[offset + 2..offset + UnitLength(p[offset + 1])]).Skipped?
      && Chain(p, offset, offset + UnitLength(p[offset + 1]), count + 1, seenDestination || next == DESTINATION, u,
               link)
  }

  predicate CuttableV6(p: Octets, u: nat, link: nat) {
    SoundV6(p) && 40 <= u < |p| <= 65535 && Chain(p, 6, 40, 0, false, u, link)
  }

  /** The link octet is the first octet of the last header before `u`, or octet 6 when there is none. */
  lemma {:induction false} ChainLink(p: Octets, at: nat, offset: nat, count: nat, seenDestination: bool, u: nat,
                                     link: nat)
    requires at < |p| && count <= 2 && at < offset <= u && Chain(p, at, offset, count, seenDestination, u, link)
    ensures if offset == u then link == at
            else offset <= link < u && (link == offset || link >= offset + UnitLength(p[offset + 1]))
    decreases 3 - count
  {
    if offset < u {
      ChainLink(p, offset, offset + UnitLength(p[offset + 1]), count + 1, seenDestination || p[at] == DESTINATION, u,
                link);
    }
  }

  // ---------- cutting ----------

  predicate CutPointsV6(p: Octets, u: nat, maximum: nat, a: nat, b: nat)
    requires u <= |p|
  {
    var n := |p| - u;
    a < b <= n && b - a < n && a % 8 == 0 && (b < n ==> b % 8 == 0) && u + 8 + (b - a) <= maximum
  }

  function FlagsV6(a: nat, more: bool): nat {
    a + if more then 1 else 0
  }

  function FragmentHeader(next: byte, a: nat, more: bool, id: uint32): (r: Octets)
    ensures |r| == 8
  {
    [next, 0] + EncodeBE(FlagsV6(a, more), 2) + EncodeBE(id, 4)
  }

  /** The part that every fragment repeats, leading to a fragment header. */
  function Repeated(p: Octets, u: nat, link: nat, length: nat): (r: Octets)
    requires 40 <= u <= |p| && link < u
    ensures |r| == u
  {
    (p[..4] + EncodeBE(length, 2) + p[6..u])[link := FRAGMENT]
  }

  /** The fragment that carries payload octets `a` to `b` (section 4.5 of RFC 8200). */
  function CutV6(p: Octets, u: nat, link: nat, id: uint32, a: nat, b: nat): Octets
    requires 40 <= u <= |p| && link < u && a <= b <= |p| - u
  {
    Repeated(p, u, link, u - 40 + 8 + (b - a)) + FragmentHeader(p[link], a, b < |p| - u, id) + p[u..][a..b]
  }

  function KeyV6(p: Octets, id: uint32): Key
    requires |p| >= 40
  {
    Key(0, p[8..24], p[24..40], id)
  }

  function FragmentForV6(p: Octets, u: nat, link: nat, id: uint32, a: nat, b: nat): Fragment
    requires 40 <= u <= |p| && link < u && a <= b <= |p| - u
  {
    Fragment(KeyV6(p, id), Repeated(p, u, link, 0), Link(link, p[link]), Piece(a, p[u..][a..b]), b < |p| - u)
  }

  // ---------- reading a cut fragment ----------

  /** The octets a walk looks at are those of the original, except the link. */
  predicate Follows(s: Octets, p: Octets, u: nat, link: nat) {
    && 40 <= u <= |p| && u + 8 <= |s| && link < u && s[link] == FRAGMENT
    && forall i :: 40 <= i < u && i != link ==> s[i] == p[i]
  }

  lemma SameOptions(s: Octets, p: Octets, u: nat, link: nat, from: nat, to: nat)
    requires Follows(s, p, u, link) && 40 <= from <= to <= u && (link < from || to <= link)
    ensures s[from..to] == p[from..to]
  {
  }

  /** The walk over a cut fragment arrives at its fragment header. */
  lemma {:induction false} WalkArrives(s: Octets, p: Octets, maximum: nat, at: nat, offset: nat, count: nat,
                                       seenDestination: bool, u: nat, link: nat)
    requires Follows(s, p, u, link) && at < offset && 40 <= offset <= u && count <= 2
    requires Chain(p, at, offset, count, seenDestination, u, link) && s[u + 1] == 0 && s[u] == p[link]
    ensures Walk(s, maximum, if at == link then FRAGMENT else p[at], at, offset, count, seenDestination)
            == FragmentAt(s, maximum, link, u, false, DecodeBE(s[u + 2..u + 4]))
    decreases 3 - count
  {
    ChainLink(p, at, offset, count, seenDestination, u, link);
    if offset < u {
      var length := UnitLength(p[offset + 1]);
      assert s[offset + 1] == p[offset + 1];
      SameOptions(s, p, u, link, offset + 2, offset + length);
      assert s[offset] == FRAGMENT;
      WalkArrives(s, p, maximum, offset, offset + length, count + 1, seenDestination || p[at] == DESTINATION, u, link);
    }
  }

  lemma RepeatedFields(p: Octets, u: nat, link: nat, length: nat)
    requires 40 <= u <= |p| && (link == 6 || 40 <= link < u)
    ensures var h := Repeated(p, u, link, length);
            && h[0] == p[0] && h[4..6] == EncodeBE(length, 2) && h[7] == p[7] && h[link] == FRAGMENT
            && h[8..24] == p[8..24] && h[24..40] == p[24..40] && (link != 6 ==> h[6] == p[6])
            && (forall i :: 40 <= i < u && i != link ==> h[i] == p[i])
            && h[..4] + [0, 0] + h[6..u] == Repeated(p, u, link, 0)
  {
    assert EncodeBE(0, 2) == [0, 0];
    LinkedFields(p, u, link, EncodeBE(length, 2));
    ZeroedLength(p, u, link, EncodeBE(length, 2));
  }

  lemma LinkedFields(p: Octets, u: nat, link: nat, length: Octets)
    requires 40 <= u <= |p| && (link == 6 || 40 <= link < u) && |length| == 2
    ensures var h := (p[..4] + length + p[6..u])[link := FRAGMENT];
            && h[0] == p[0] && h[4..6] == length && h[7] == p[7] && h[link] == FRAGMENT
            && h[8..24] == p[8..24] && h[24..40] == p[24..40] && (link != 6 ==> h[6] == p[6])
            && (forall i :: 40 <= i < u && i != link ==> h[i] == p[i])
  {
    var plain := p[..4] + length + p[6..u];
    assert forall i :: 6 <= i < u ==> plain[i] == p[i];
  }

  lemma ZeroedLength(p: Octets, u: nat, link: nat, length: Octets)
    requires 40 <= u <= |p| && 6 <= link < u && |length| == 2
    ensures var h := (p[..4] + length + p[6..u])[link := FRAGMENT];
            h[..4] + [0, 0] + h[6..u] == (p[..4] + [0, 0] + p[6..u])[link := FRAGMENT]
  {
    var plain, zero := p[..4] + length + p[6..u], p[..4] + [0, 0] + p[6..u];
    var h := plain[link := FRAGMENT];
    assert h[..4] == p[..4];
    assert forall i :: 6 <= i < u ==> plain[i] == p[i] && zero[i] == p[i];
  }

  lemma CutSlices(h: Octets, f: Octets, data: Octets)
    requires |h| >= 40 && |f| == 8
    ensures var u := |h|; var s := h + f + data;
            && (forall i :: 0 <= i < u ==> s[i] == h[i]) && (forall i :: 0 <= i < 8 ==> s[u + i] == f[i])
            && s[4..6] == h[4..6] && s[8..24] == h[8..24] && s[24..40] == h[24..40]
            && s[..4] + [0, 0] + s[6..u] == h[..4] + [0, 0] + h[6..u]
            && s[u + 2..u + 4] == f[2..4] && s[u + 4..u + 8] == f[4..8] && s[u + 8..] == data
  {
  }

  lemma FragmentHeaderFields(next: byte, a: nat, more: bool, id: uint32)
    requires a < 65536 && a % 8 == 0
    ensures var f := FragmentHeader(next, a, more, id);
            f[0] == next && f[1] == 0 && DecodeBE(f[2..4]) == FlagsV6(a, more) && DecodeBE(f[4..8]) == id
  {
    var f := FragmentHeader(next, a, more, id);
    assert f[2..4] == EncodeBE(FlagsV6(a, more), 2) && f[4..8] == EncodeBE(id, 4);
    ReadBack(FlagsV6(a, more), 2);
    ReadBack(id, 4);
  }

  lemma FlagsReadBackV6(a: nat, more: bool)
    requires a < 65536 && a % 8 == 0
    ensures var flags := FlagsV6(a, more); flags / 8 * 8 == a && flags / 2 % 4 == 0 && (flags % 2 == 1 <==> more)
  {
    Eighths(FlagsV6(a, more), a / 8, if more then 1 else 0);
  }

  lemma Eighths(flags: nat, q: nat, bit: nat)
    requires flags == 8 * q + bit && bit < 2
    ensures flags / 8 == q && flags / 2 % 4 == 0 && flags % 2 == bit
  {
    assert flags / 2 == 4 * q;
  }

  /** The fields of a cut fragment, in terms of the packet it was cut from. */
  predicate Carries(s: Octets, p: Octets, u: nat, link: nat, id: uint32, a: nat, b: nat)
    requires 40 <= u <= |p| && link < u && a <= b <= |p| - u
  {
    && |s| == u + 8 + (b - a)
    && DecodeBE(s[u + 2..u + 4]) == FlagsV6(a, b < |p| - u) && s[u] == p[link] && s[u + 1] == 0
    && s[..4] + [0, 0] + s[6..u] == Repeated(p, u, link, 0) && DecodeBE(s[u + 4..u + 8]) == id
    && s[8..24] == p[8..24] && s[24..40] == p[24..40] && s[u + 8..] == p[u..][a..b]
  }

  lemma JoinedCarries(h: Octets, f: Octets, p: Octets, u: nat, link: nat, id: uint32, a: nat, b: nat)
    requires 40 <= u <= |p| && link < u && a <= b <= |p| - u && |h| == u && |f| == 8
    requires h[..4] + [0, 0] + h[6..u] == Repeated(p, u, link, 0) && h[8..24] == p[8..24] && h[24..40] == p[24..40]
    requires f[0] == p[link] && f[1] == 0 && DecodeBE(f[2..4]) == FlagsV6(a, b < |p| - u) && DecodeBE(f[4..8]) == id
    ensures Carries(h + f + p[u..][a..b], p, u, link, id, a, b)
  {
    CutSlices(h, f, p[u..][a..b]);
    var s := h + f + p[u..][a..b];
    assert s[u + 0] == f[0] && s[u + 1] == f[1];
  }

  lemma CutCarries(p: Octets, u: nat, link: nat, id: uint32, a: nat, b: nat)
    requires 40 <= u < |p| <= 65535 && (link == 6 || 40 <= link < u) && a <= b <= |p| - u && a % 8 == 0
    ensures Carries(CutV6(p, u, link, id, a, b), p, u, link, id, a, b)
  {
    var h, f := Repeated(p, u, link, u - 40 + 8 + (b - a)), FragmentHeader(p[link], a, b < |p| - u, id);
    RepeatedFields(p, u, link, u - 40 + 8 + (b - a));
    FragmentHeaderFields(p[link], a, b < |p| - u, id);
    JoinedCarries(h, f, p, u, link, id, a, b);
  }

  /** What the walk finds at the fragment header of a cut. */
  lemma CutFragmentV6(s: Octets, p: Octets, u: nat, link: nat, id: uint32, a: nat, b: nat, maximum: nat)
    requires 40 <= u < |p| <= 65535 && link < u && CutPointsV6(p, u, maximum, a, b) && |p| <= maximum
    requires Carries(s, p, u, link, id, a, b) && (p[link] == TCP || p[link] == UDP || p[link] == DESTINATION)
    ensures FragmentAt(s, maximum, link, u, false, FlagsV6(a, b < |p| - u))
            == IsFragment(FragmentForV6(p, u, link, id, a, b))
  {
    FlagsReadBackV6(a, b < |p| - u);
    assert b < |p| - u ==> (b - a) % 8 == 0;
  }

  lemma CutIsSoundV6(p: Octets, u: nat, link: nat, id: uint32, a: nat, b: nat, maximum: nat)
    requires SoundV6(p) && 40 <= u < |p| <= 65535 && (link == 6 || 40 <= link < u) && CutPointsV6(p, u, maximum, a, b)
    requires |p| <= maximum
    ensures var s := CutV6(p, u, link, id, a, b);
            && SoundV6(s) && |s| <= maximum && Follows(s, p, u, link) && s[6] == if link == 6 then FRAGMENT else p[6]
  {
    var h, f := Repeated(p, u, link, u - 40 + 8 + (b - a)), FragmentHeader(p[link], a, b < |p| - u, id);
    LengthReadsBack(u, b - a, |p|, maximum);
    LinkedIsSound(h, EncodeBE(u - 40 + 8 + (b - a), 2), f, p[u..][a..b], p, u, link);
  }

  lemma LinkedIsSound(h: Octets, length: Octets, f: Octets, data: Octets, p: Octets, u: nat, link: nat)
    requires SoundV6(p) && 40 <= u <= |p| && (link == 6 || 40 <= link < u) && |length| == 2 && |f| == 8
    requires h == (p[..4] + length + p[6..u])[link := FRAGMENT] && DecodeBE(length) == u - 40 + 8 + |data|
    ensures var s := h + f + data;
            SoundV6(s) && Follows(s, p, u, link) && s[6] == if link == 6 then FRAGMENT else p[6]
  {
    LinkedFields(p, u, link, length);
    JoinedIsSound(h, f, data, p, u, link);
  }

  lemma JoinedIsSound(h: Octets, f: Octets, data: Octets, p: Octets, u: nat, link: nat)
    requires SoundV6(p) && 40 <= u <= |p| && (link == 6 || 40 <= link < u) && |h| == u && |f| == 8
    requires h[0] == p[0] && h[7] == p[7] && DecodeBE(h[4..6]) == u - 40 + 8 + |data| && h[link] == FRAGMENT
    requires (link != 6 ==> h[6] == p[6]) && forall i :: 40 <= i < u && i != link ==> h[i] == p[i]
    ensures var s := h + f + data;
            SoundV6(s) && Follows(s, p, u, link) && s[6] == if link == 6 then FRAGMENT else p[6]
  {
    var s := h + f + data;
    assert s[4..6] == h[4..6];
    assert forall i :: 0 <= i < u ==> s[i] == h[i];
  }

  lemma LengthReadsBack(u: nat, octets: nat, whole: nat, maximum: nat)
    requires 40 <= u && u + 8 + octets <= maximum && u + octets < whole <= 65535
    ensures DecodeBE(EncodeBE(u - 40 + 8 + octets, 2)) == u - 40 + 8 + octets
  {
    ReadBack(u - 40 + 8 + octets, 2);
  }

  lemma {:induction false} ChainEnd(p: Octets, at: nat, offset: nat, count: nat, seenDestination: bool, u: nat,
                                    link: nat)
    requires at < |p| && count <= 2 && at < offset <= u <= |p| && Chain(p, at, offset, count, seenDestination, u, link)
    ensures link < |p| && (p[link] == TCP || p[link] == UDP || p[link] == DESTINATION)
    decreases 3 - count
  {
    if offset < u {
      ChainEnd(p, offset, offset + UnitLength(p[offset + 1]), count + 1, seenDestination || p[at] == DESTINATION, u,
               link);
    }
  }

  /** The adapter reads a cut fragment as exactly the payload range it carries, behind whatever headers it repeats. */
  lemma CutParsesV6(p: Octets, u: nat, link: nat, id: uint32, a: nat, b: nat, maximum: nat)
    requires CuttableV6(p, u, link) && link < u && CutPointsV6(p, u, maximum, a, b) && |p| <= maximum
    ensures ParseFragmentV6(CutV6(p, u, link, id, a, b), maximum) == IsFragment(FragmentForV6(p, u, link, id, a, b))
  {
    ChainLink(p, 6, 40, 0, false, u, link);
    ChainEnd(p, 6, 40, 0, false, u, link);
    CutIsSoundV6(p, u, link, id, a, b, maximum);
    CutCarries(p, u, link, id, a, b);
    CutFragmentV6(CutV6(p, u, link, id, a, b), p, u, link, id, a, b, maximum);
    WalkArrives(CutV6(p, u, link, id, a, b), p, maximum, 6, 40, 0, false, u, link);
  }

  // ---------- the packet's return ----------

  predicate IsCuttingV6(p: Octets, u: nat, link: nat, maximum: nat, id: uint32, cuts: seq<Cut>)
    requires 40 <= u <= |p| && link < u
  {
    && 0 < |cuts| <= MAX_PIECES
    && (forall i :: 0 <= i < |cuts| ==> CutPointsV6(p, u, maximum, cuts[i].from, cuts[i].to))
    && Disjoint(PiecesOf(FragmentsOfV6(p, u, link, maximum, id, cuts)))
    && Total(PiecesOf(FragmentsOfV6(p, u, link, maximum, id, cuts))) == |p| - u
  }

  function FragmentsOfV6(p: Octets, u: nat, link: nat, maximum: nat, id: uint32, cuts: seq<Cut>): seq<Fragment>
    requires 40 <= u <= |p| && link < u
    requires forall i :: 0 <= i < |cuts| ==> CutPointsV6(p, u, maximum, cuts[i].from, cuts[i].to)
  {
    seq(|cuts|, i requires 0 <= i < |cuts| && CutPointsV6(p, u, maximum, cuts[i].from, cuts[i].to) =>
        FragmentForV6(p, u, link, id, cuts[i].from, cuts[i].to))
  }

  function OriginalV6(p: Octets, u: nat, link: nat, id: uint32): Original
    requires 40 <= u <= |p| && link < u
  {
    Original(KeyV6(p, id), Repeated(p, u, link, 0), Link(link, p[link]), p[u..])
  }

  /** Unlinking the fragment header restores the original. */
  lemma PatchRestoresV6(p: Octets, u: nat, link: nat)
    requires SoundV6(p) && 40 <= u <= |p| <= 65535 && (link == 6 || 40 <= link < u)
    ensures PatchV6(Repeated(p, u, link, 0), Link(link, p[link]), |p| - u) + p[u..] == p
  {
    RepeatedKeeps(p, u, link);
    PatchRelinks(Repeated(p, u, link, 0), p, u, link);
  }

  lemma PatchRelinks(h: Octets, p: Octets, u: nat, link: nat)
    requires SoundV6(p) && 40 <= u <= |p| && |h| == u && 6 <= link < u
    requires h[..4] == p[..4] && forall i :: 6 <= i < u && i != link ==> h[i] == p[i]
    ensures PatchV6(h, Link(link, p[link]), |p| - u) + p[u..] == p
  {
    EncodeDecodeBE(p[4..6]);
    Relink(h, p, u, link);
    assert p[..u] + p[u..] == p;
  }

  lemma RepeatedKeeps(p: Octets, u: nat, link: nat)
    requires 40 <= u <= |p| && (link == 6 || 40 <= link < u)
    ensures var h := Repeated(p, u, link, 0);
            h[..4] == p[..4] && forall i :: 6 <= i < u && i != link ==> h[i] == p[i]
  {
    var plain := p[..4] + EncodeBE(0, 2) + p[6..u];
    assert forall i :: 6 <= i < u ==> plain[i] == p[i];
  }

  lemma Relink(h: Octets, p: Octets, u: nat, link: nat)
    requires 40 <= u <= |p| && |h| == u && 6 <= link < u
    requires h[..4] == p[..4] && forall i :: 6 <= i < u && i != link ==> h[i] == p[i]
    ensures (h[..4] + p[4..6] + h[6..])[link := p[link]] == p[..u]
  {
    var r := h[..4] + p[4..6] + h[6..];
    assert forall i :: 6 <= i < u ==> r[i] == h[i];
  }

  lemma CuttingIsCutV6(l: Limits, p: Octets, u: nat, link: nat, id: uint32, cuts: seq<Cut>)
    requires l.family.Ip6? && SoundV6(p) && 40 <= u <= |p| <= 65535 && (link == 6 || 40 <= link < u)
    requires |p| <= l.maximumPacket && IsCuttingV6(p, u, link, l.maximumPacket, id, cuts)
    ensures IsCut(l, OriginalV6(p, u, link, id), FragmentsOfV6(p, u, link, l.maximumPacket, id, cuts))
    ensures Rebuilt(Ip6, OriginalV6(p, u, link, id)) == p
  {
    var fs := FragmentsOfV6(p, u, link, l.maximumPacket, id, cuts);
    forall i | 0 <= i < |fs| ensures PartOf(Ip6, OriginalV6(p, u, link, id), fs[i]) {
      FragmentIsPartV6(p, u, link, id, cuts[i].from, cuts[i].to, l.maximumPacket);
    }
    PatchRestoresV6(p, u, link);
  }

  lemma FragmentIsPartV6(p: Octets, u: nat, link: nat, id: uint32, a: nat, b: nat, maximum: nat)
    requires 40 <= u <= |p| && link < u && CutPointsV6(p, u, maximum, a, b)
    ensures PartOf(Ip6, OriginalV6(p, u, link, id), FragmentForV6(p, u, link, id, a, b))
  {
  }

  /**
   * Cut behind any extension headers the adapter accepts, shuffled and interleaved with any other fragments, an IPv6
   * packet comes back octet for octet.
   */
  lemma CutPacketReturnsV6(l: Limits, p: Octets, u: nat, link: nat, id: uint32, cuts: seq<Cut>, t: Table,
                           events: seq<Event>, n: nat)
    requires l.family.Ip6? && CuttableV6(p, u, link) && link < u && |p| <= l.maximumPacket
    requires IsCuttingV6(p, u, link, l.maximumPacket, id, cuts)
    requires InTime(l, t, events, KeyV6(p, id))
    requires Mine(events, KeyV6(p, id)) == FragmentsOfV6(p, u, link, l.maximumPacket, id, cuts)
    requires n < |events| && events[n].f.key == KeyV6(p, id)
    ensures Answer(l, t, events, n)
            == if |Mine(events[..n + 1], KeyV6(p, id))| == |cuts| then Whole(p) else Waiting
  {
    ChainLink(p, 6, 40, 0, false, u, link);
    CuttingIsCutV6(l, p, u, link, id, cuts);
    EveryOrderReassembles(l, OriginalV6(p, u, link, id), FragmentsOfV6(p, u, link, l.maximumPacket, id, cuts), t,
                          events, n);
  }
}
