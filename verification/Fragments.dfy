/** The bounded tables in which fragmented packets are put back together. */
module Fragments {
  import opened Arith
  import opened Bytes
  import opened Checksum
  import opened Reassembly

  const LIFETIME: int := 15_000_000_000
  const MAX_SETS: nat := 32

  datatype Family = Ip4 | Ip6

  datatype Key = Key(protocol: byte, source: Octets, target: Octets, id: nat)

  /** Where an IPv6 header chain names what follows the fragment header, and what to write there. */
  datatype Link = Link(at: nat, next: byte)

  datatype Fragment = Fragment(key: Key, header: Octets, link: Link, piece: Piece, more: bool)

  datatype Set = Set(header: Option<Octets>, link: Link, pieces: seq<Piece>, total: Option<nat>, octets: nat,
                     expiresAt: int)

  type Table = map<Key, Set>

  datatype Outcome = Waiting | Refused | Whole(packet: Octets)

  datatype Limits = Limits(family: Family, maximumPacket: nat, maximumFlows: nat)

  function Reserve(family: Family): nat {
    if family.Ip4? then 20 else 40
  }

  function SetLimit(l: Limits): nat {
    Min(l.maximumFlows, MAX_SETS)
  }

  /** What the fragment parsers promise. */
  predicate ValidHeader(family: Family, header: Octets, link: Link) {
    |header| >= Reserve(family) && (family.Ip6? ==> link.at < |header|)
  }

  predicate ValidFragment(family: Family, f: Fragment) {
    f.piece.payload != [] && (family.Ip6? || f.piece.offset == 0 ==> ValidHeader(family, f.header, f.link))
  }

  // ---------- one set ----------

  function Create(family: Family, f: Fragment, now: int): Set {
    Set(if family.Ip6? then Some(f.header) else None, f.link, [], None, 0, now + LIFETIME)
  }

  /** IPv6 fragments of one packet repeat its unfragmentable part. */
  predicate Consistent(family: Family, s: Set, f: Fragment) {
    family.Ip4? || (s.header == Some(f.header) && s.link == f.link)
  }

  predicate PastEnd(pieces: seq<Piece>, end: nat) {
    exists i :: 0 <= i < |pieces| && End(pieces[i]) > end
  }

  predicate Overlaps(pieces: seq<Piece>, p: Piece) {
    exists i :: 0 <= i < |pieces| && Overlap(p, pieces[i])
  }

  predicate BadEnd(s: Set, f: Fragment, maximumPacket: nat) {
    var end := End(f.piece);
    || (s.total.Some? && end > s.total.value)
    || (!f.more && ((s.total.Some? && s.total.value != end)
                    || PastEnd(s.pieces, end)
                    || (s.header.Some? && |s.header.value| + end > maximumPacket)))
  }

  function NewTotal(s: Set, f: Fragment): Option<nat> {
    if f.more then s.total else Some(End(f.piece))
  }

  /** Only IPv4 takes its header from the fragment at offset zero. */
  function NewHeader(family: Family, s: Set, f: Fragment): Option<Octets> {
    if family.Ip4? && f.piece.offset == 0 then Some(f.header) else s.header
  }

  /** The set with one more piece, or nothing when the piece contradicts the set or its limits. */
  function Admit(l: Limits, s: Set, f: Fragment): Option<Set> {
    var total := NewTotal(s, f);
    var header := NewHeader(l.family, s, f);
    if BadEnd(s, f, l.maximumPacket) then None
    else if |s.pieces| >= MAX_PIECES || s.octets + |f.piece.payload| > l.maximumPacket - Reserve(l.family) then None
    else if Overlaps(s.pieces, f.piece) then None
    else if l.family.Ip4? && f.piece.offset == 0 && total.Some? && |f.header| + total.value > l.maximumPacket then None
    else Some(s.(header := header, pieces := s.pieces + [f.piece], total := total,
                 octets := s.octets + |f.piece.payload|))
  }

  predicate Finished(s: Set) {
    s.header.Some? && s.total.Some? && s.octets == s.total.value
  }

  // ---------- the reassembled packet ----------

  /** Total length and flags rewritten, Don't Fragment kept, header checksum recomputed. */
  function PatchV4(header: Octets, total: nat): (r: Octets)
    requires |header| >= 20
    ensures |r| == |header|
  {
    var flags := if header[6] / 64 % 2 == 1 then 0x4000 else 0;
    var before := header[..2] + EncodeBE(|header| + total, 2) + header[4..6] + EncodeBE(flags, 2) + header[8..10];
    before + EncodeBE(Sum(before + [0, 0] + header[12..]), 2) + header[12..]
  }

  /** Payload length rewritten and the fragment header unlinked. */
  function PatchV6(header: Octets, link: Link, total: nat): (r: Octets)
    requires |header| >= 40 && link.at < |header|
    ensures |r| == |header|
  {
    (header[..4] + EncodeBE(|header| + total - 40, 2) + header[6..])[link.at := link.next]
  }

  function Patch(family: Family, header: Octets, link: Link, total: nat): (r: Octets)
    requires ValidHeader(family, header, link)
    ensures |r| == |header|
  {
    if family.Ip4? then PatchV4(header, total) else PatchV6(header, link, total)
  }

  predicate SetInv(l: Limits, s: Set) {
    && Disjoint(s.pieces) && Nonempty(s.pieces) && |s.pieces| <= MAX_PIECES
    && s.octets == Total(s.pieces) && s.octets + Reserve(l.family) <= l.maximumPacket
    && (s.total.Some? ==> Within(s.pieces, s.total.value))
    && HeaderInv(l, s)
  }

  predicate HeaderInv(l: Limits, s: Set) {
    && (s.header.Some? ==> ValidHeader(l.family, s.header.value, s.link))
    && (s.header.Some? && s.total.Some? ==> |s.header.value| + s.total.value <= l.maximumPacket)
    && (l.family.Ip6? ==> s.header.Some?)
  }

  function Join(family: Family, s: Set): Octets
    requires s.header.Some? && s.total.Some? && ValidHeader(family, s.header.value, s.link)
             && Within(s.pieces, s.total.value)
  {
    Patch(family, s.header.value, s.link, s.total.value) + Assembled(s.pieces, s.total.value)
  }

  // ---------- the table ----------

  function Expire(t: Table, now: int): Table {
    map k | k in t && now < t[k].expiresAt :: t[k]
  }

  predicate TableInv(l: Limits, t: Table) {
    forall k :: k in t ==> SetInv(l, t[k])
  }

  /** The set a fragment goes to: its packet's, or a new one while there is room for it. */
  function SetFor(l: Limits, t: Table, f: Fragment, now: int): Option<Set> {
    if f.key in t then Some(t[f.key])
    else if |t| >= SetLimit(l) then None
    else Some(Create(l.family, f, now))
  }

  function Grown(l: Limits, s: Set, f: Fragment): Option<Set> {
    if Consistent(l.family, s, f) then Admit(l, s, f) else None
  }

  function Settle(l: Limits, t: Table, key: Key, s: Set): (Table, Outcome) {
    if Finished(s) && HeaderInv(l, s) && Within(s.pieces, s.total.value) then (t - {key}, Whole(Join(l.family, s)))
    else (t[key := s], Waiting)
  }

  /** One fragment: refused for lack of room, discarded with its set, kept, or the last one missing. */
  function Ingress(l: Limits, t: Table, f: Fragment, now: int): (Table, Outcome) {
    var s := SetFor(l, t, f, now);
    if s.None? then (t, Refused)
    else
      var grown := Grown(l, s.value, f);
      if grown.None? then (t - {f.key}, Refused) else Settle(l, t, f.key, grown.value)
  }

  // ---------- the invariant ----------

  lemma AdmitKeepsPieces(l: Limits, s: Set, f: Fragment)
    requires SetInv(l, s) && ValidFragment(l.family, f) && Admit(l, s, f).Some?
    ensures var n := Admit(l, s, f).value;
            && Disjoint(n.pieces) && Nonempty(n.pieces) && |n.pieces| <= MAX_PIECES
            && n.octets == Total(n.pieces) && n.octets + Reserve(l.family) <= l.maximumPacket
            && (n.total.Some? ==> Within(n.pieces, n.total.value))
  {
    var n := Admit(l, s, f).value;
    var last := |s.pieces|;
    assert n.pieces[..last] == s.pieces;
    forall i | 0 <= i < last ensures !Overlap(n.pieces[i], n.pieces[last]) {
      assert !Overlap(f.piece, s.pieces[i]);
    }
    if n.total.Some? {
      forall i | 0 <= i < |n.pieces| ensures End(n.pieces[i]) <= n.total.value {
        if i < last {
          assert n.pieces[i] == s.pieces[i];
        }
      }
    }
  }

  lemma AdmitKeepsInv(l: Limits, s: Set, f: Fragment)
    requires SetInv(l, s) && ValidFragment(l.family, f) && Consistent(l.family, s, f) && Admit(l, s, f).Some?
    ensures SetInv(l, Admit(l, s, f).value)
  {
    AdmitKeepsPieces(l, s, f);
    var n := Admit(l, s, f).value;
    assert HeaderInv(l, n);
  }

  lemma CreateIsValid(l: Limits, f: Fragment, now: int)
    requires ValidFragment(l.family, f) && l.maximumPacket >= 40
    ensures SetInv(l, Create(l.family, f, now))
  {
  }

  lemma GrownIsValid(l: Limits, t: Table, f: Fragment, now: int)
    requires TableInv(l, t) && ValidFragment(l.family, f) && l.maximumPacket >= 40
    requires SetFor(l, t, f, now).Some? && Grown(l, SetFor(l, t, f, now).value, f).Some?
    ensures SetInv(l, Grown(l, SetFor(l, t, f, now).value, f).value)
  {
    CreateIsValid(l, f, now);
    AdmitKeepsInv(l, SetFor(l, t, f, now).value, f);
  }

  lemma SettleKeepsInv(l: Limits, t: Table, key: Key, s: Set)
    requires TableInv(l, t) && SetInv(l, s)
    ensures TableInv(l, Settle(l, t, key, s).0)
    ensures Settle(l, t, key, s).0.Keys <= t.Keys + {key}
    ensures Settle(l, t, key, s) == if Finished(s) then (t - {key}, Whole(Join(l.family, s)))
            else (t[key := s], Waiting)
  {
  }

  lemma IngressKeepsInv(l: Limits, t: Table, f: Fragment, now: int)
    requires TableInv(l, t) && ValidFragment(l.family, f) && l.maximumPacket >= 40
    ensures TableInv(l, Ingress(l, t, f, now).0)
    ensures |t| <= SetLimit(l) ==> |Ingress(l, t, f, now).0| <= SetLimit(l)
  {
    var s := SetFor(l, t, f, now);
    if s.Some? {
      var grown := Grown(l, s.value, f);
      if grown.Some? {
        GrownIsValid(l, t, f, now);
        SettleKeepsInv(l, t, f.key, grown.value);
      }
      SubsetSize(Ingress(l, t, f, now).0.Keys, t.Keys + {f.key});
      assert f.key in t ==> t.Keys + {f.key} == t.Keys;
    }
  }

  /**
   * A reassembled packet is the rewritten header followed by a payload in which each octet comes from exactly
   * one accepted fragment, at that fragment's offset, and it fits the packet limit.
   */
  lemma WholeMeans(l: Limits, s: Set, k: nat) returns (i: nat)
    requires SetInv(l, s) && Finished(s) && k < s.total.value
    ensures |Join(l.family, s)| == |s.header.value| + s.total.value <= l.maximumPacket
    ensures CoveredBy(s.pieces, k, i)
    ensures Join(l.family, s)[|s.header.value| + k] == s.pieces[i].payload[k - s.pieces[i].offset]
    ensures forall j :: CoveredBy(s.pieces, k, j) ==> j == i
  {
    i := CoveringPiece(s.pieces, s.total.value, k);
    OverlayAt(Zeros(s.total.value), s.pieces, i, k);
  }

  /** A finished set is never kept waiting, and a set that misses an octet is never joined. */
  lemma FinishedIffCovered(l: Limits, s: Set)
    requires SetInv(l, s) && s.header.Some? && s.total.Some?
    ensures Finished(s) <==> Positions(s.pieces) == Range(0, s.total.value)
  {
    CoversIff(s.pieces, s.total.value);
  }
}
