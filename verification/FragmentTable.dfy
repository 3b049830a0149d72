/** The fragment table as the adapter keeps it, proved against the table it stands for. */
module FragmentTable {
  import opened Arith
  import opened Bytes
  import opened Reassembly
  import opened Fragments

  // ---------- sorting and the contiguity test ----------

  predicate SortedBy(pieces: seq<Piece>) {
    forall i, j :: 0 <= i < j < |pieces| ==> pieces[i].offset <= pieces[j].offset
  }

  /** The same pieces in another order. */
  ghost predicate Reordered(a: seq<Piece>, b: seq<Piece>) {
    |a| == |b| && Total(a) == Total(b) && (forall p :: p in a <==> p in b)
  }

  lemma {:induction false} TotalWithout(b: seq<Piece>, j: nat)
    requires j < |b|
    ensures Total(b) == Total(b[..j] + b[j + 1..]) + |b[j].payload|
    decreases |b|
  {
    var last := |b| - 1;
    if j < last {
      TotalWithout(b[..last], j);
      var rest := b[..j] + b[j + 1..];
      assert rest[..|rest| - 1] == b[..last][..j] + b[..last][j + 1..];
    } else {
      assert b[..j] + b[j + 1..] == b[..last];
    }
  }

  function Inserted(s: seq<Piece>, p: Piece, i: nat): (r: seq<Piece>)
    requires i <= |s|
    ensures |r| == |s| + 1
    ensures forall k :: 0 <= k < |r| ==> r[k] == if k < i then s[k] else if k == i then p else s[k - 1]
  {
    s[..i] + [p] + s[i..]
  }

  lemma InsertedReorders(s: seq<Piece>, p: Piece, i: nat)
    requires i <= |s|
    ensures Reordered(s + [p], Inserted(s, p, i))
  {
    var r, t := Inserted(s, p, i), s + [p];
    TotalWithout(r, i);
    assert r[..i] + r[i + 1..] == s && t[..|s|] == s;
    forall q ensures q in t <==> q in r {
      if q in s {
        var k :| 0 <= k < |s| && s[k] == q;
        assert r[if k < i then k else k + 1] == q;
      }
      assert r[i] == p && t[|s|] == p;
    }
  }

  lemma InsertedDisjoint(s: seq<Piece>, p: Piece, i: nat)
    requires i <= |s| && Disjoint(s) && p.payload != [] && Nonempty(s) && forall j :: 0 <= j < |s| ==> !Overlap(s[j], p)
    ensures Disjoint(Inserted(s, p, i)) && Nonempty(Inserted(s, p, i))
  {
  }

  method InsertSorted(sorted: seq<Piece>, p: Piece) returns (r: seq<Piece>)
    requires SortedBy(sorted) && Disjoint(sorted) && Nonempty(sorted) && p.payload != []
    requires forall j :: 0 <= j < |sorted| ==> !Overlap(sorted[j], p)
    ensures SortedBy(r) && Disjoint(r) && Nonempty(r) && Reordered(sorted + [p], r)
  {
    var i := |sorted|;
    while i > 0 && sorted[i - 1].offset > p.offset
      invariant 0 <= i <= |sorted|
      invariant forall j :: i <= j < |sorted| ==> sorted[j].offset > p.offset
    {
      i := i - 1;
    }
    InsertedReorders(sorted, p, i);
    InsertedDisjoint(sorted, p, i);
    InsertedSorted(sorted, p, i);
    r := Inserted(sorted, p, i);
  }

  lemma InsertedSorted(s: seq<Piece>, p: Piece, i: nat)
    requires SortedBy(s) && i <= |s| && (i > 0 ==> s[i - 1].offset <= p.offset)
    requires forall j :: i <= j < |s| ==> s[j].offset > p.offset
    ensures SortedBy(Inserted(s, p, i))
  {
  }

  method SortPieces(pieces: seq<Piece>) returns (r: seq<Piece>)
    requires Disjoint(pieces) && Nonempty(pieces)
    ensures SortedBy(r) && Disjoint(r) && Nonempty(r) && Reordered(pieces, r)
  {
    r := [];
    for i := 0 to |pieces|
      invariant SortedBy(r) && Disjoint(r) && Nonempty(r) && Reordered(pieces[..i], r)
    {
      NextInserts(pieces, i, r);
      r := InsertSorted(r, pieces[i]);
    }
    assert pieces[..|pieces|] == pieces;
  }

  lemma NextInserts(pieces: seq<Piece>, i: nat, r: seq<Piece>)
    requires Disjoint(pieces) && i < |pieces| && Reordered(pieces[..i], r)
    ensures forall j :: 0 <= j < |r| ==> !Overlap(r[j], pieces[i])
    ensures Reordered(pieces[..i + 1], r + [pieces[i]])
  {
    forall j | 0 <= j < |r| ensures !Overlap(r[j], pieces[i]) {
      assert r[j] in pieces[..i];
      var k :| 0 <= k < i && pieces[k] == r[j];
    }
    assert pieces[..i + 1] == pieces[..i] + [pieces[i]];
    ReorderedAppend(pieces[..i], r, pieces[i]);
  }

  /** Outside pieces that fill everything before `next`, there is room only from `next` on. */
  lemma StartsAfter(pieces: seq<Piece>, next: nat, p: Piece)
    requires Disjoint(pieces) && Within(pieces, next) && Total(pieces) == next
    requires p.payload != [] && forall j :: 0 <= j < |pieces| ==> !Overlap(pieces[j], p)
    ensures p.offset >= next
  {
    if p.offset < next {
      var j := CoveringPiece(pieces, next, p.offset);
    }
  }

  lemma PrefixOfDisjoint(pieces: seq<Piece>, i: nat)
    requires Disjoint(pieces) && i < |pieces|
    ensures Disjoint(pieces[..i]) && forall j :: 0 <= j < i ==> !Overlap(pieces[..i][j], pieces[i])
  {
  }

  lemma NoneCovers(sorted: seq<Piece>, i: nat, next: nat)
    requires SortedBy(sorted) && i < |sorted| && Within(sorted[..i], next) && sorted[i].offset > next
    ensures forall j :: 0 <= j < |sorted| ==> !CoveredBy(sorted, next, j)
  {
    forall j | 0 <= j < |sorted| ensures !CoveredBy(sorted, next, j) {
      if j < i {
        assert sorted[..i][j] == sorted[j];
      }
    }
  }

  /** A piece that does not start where the ones before it end leaves an octet out. */
  lemma GapMeansIncomplete(sorted: seq<Piece>, i: nat, next: nat, total: nat)
    requires SortedBy(sorted) && Disjoint(sorted) && Nonempty(sorted) && Within(sorted, total)
    requires i < |sorted| && Within(sorted[..i], next) && Total(sorted[..i]) == next
    requires sorted[i].offset != next
    ensures Total(sorted) != total
  {
    assert next < total by {
      PrefixOfDisjoint(sorted, i);
      StartsAfter(sorted[..i], next, sorted[i]);
    }
    assert next !in Positions(sorted) by {
      PrefixOfDisjoint(sorted, i);
      StartsAfter(sorted[..i], next, sorted[i]);
      NoneCovers(sorted, i, next);
      NotHeld(sorted, next);
    }
    CoversIff(sorted, total);
  }

  lemma NotHeld(pieces: seq<Piece>, k: int)
    requires forall j :: 0 <= j < |pieces| ==> !CoveredBy(pieces, k, j)
    ensures k !in Positions(pieces)
  {
    if k in Positions(pieces) {
      var j := HeldBy(pieces, k);
    }
  }

  /** Whether the sorted pieces follow one another from zero, and where they end. */
  method FollowOn(sorted: seq<Piece>, ghost total: nat) returns (contiguous: bool, next: nat)
    requires SortedBy(sorted) && Disjoint(sorted) && Nonempty(sorted) && Within(sorted, total)
    ensures contiguous ==> next == Total(sorted)
    ensures !contiguous ==> Total(sorted) != total
  {
    next := 0;
    for i := 0 to |sorted|
      invariant next == Total(sorted[..i]) && Within(sorted[..i], next)
    {
      if sorted[i].offset != next {
        GapMeansIncomplete(sorted, i, next, total);
        return false, next;
      }
      assert sorted[..i + 1][..i] == sorted[..i];
      next := next + |sorted[i].payload|;
      assert forall j :: 0 <= j < i ==> sorted[..i + 1][j] == sorted[..i][j];
    }
    assert sorted[..|sorted|] == sorted;
    contiguous := true;
  }

  method CopyPieces(pieces: seq<Piece>, total: nat) returns (r: Octets)
    requires Within(pieces, total)
    ensures r == Assembled(pieces, total)
  {
    r := Zeros(total);
    assert pieces[..0] == [];
    for i := 0 to |pieces|
      invariant |r| == total && Within(pieces[..i], total)
      invariant r == Overlay(Zeros(total), pieces[..i])
    {
      assert pieces[..i + 1][..i] == pieces[..i];
      r := Write(r, pieces[i]);
    }
    assert pieces[..|pieces|] == pieces;
  }

  // ---------- order does not matter ----------

  ghost predicate SameSet(a: Set, b: Set) {
    && a.header == b.header && a.link == b.link && a.total == b.total && a.octets == b.octets
    && a.expiresAt == b.expiresAt && Reordered(a.pieces, b.pieces)
  }

  /** Tables whose sets hold the same pieces, perhaps in another order. */
  ghost predicate SameTable(a: Table, b: Table) {
    a.Keys == b.Keys && forall k :: k in a ==> SameSet(a[k], b[k])
  }

  lemma SameItself(t: Table)
    ensures SameTable(t, t)
  {
  }

  /** Copying the same pieces in another order gives the same payload. */
  lemma SameAssembled(a: seq<Piece>, b: seq<Piece>, total: nat)
    requires Disjoint(a) && Disjoint(b) && Reordered(a, b) && Within(a, total) && Total(a) == total
    ensures Within(b, total) && Assembled(a, total) == Assembled(b, total)
  {
    var data := Assembled(a, total);
    OverlayHolds(Zeros(total), a);
    forall i | 0 <= i < |b| ensures Holds(data, b[i]) {
      assert b[i] in a;
    }
    CoverDetermines(b, data);
  }

  lemma SameOverlaps(a: seq<Piece>, b: seq<Piece>, p: Piece, end: nat)
    requires Reordered(a, b)
    ensures Overlaps(a, p) ==> Overlaps(b, p)
    ensures PastEnd(a, end) ==> PastEnd(b, end)
  {
    if i :| 0 <= i < |a| && Overlap(p, a[i]) {
      assert a[i] in b;
    }
    if i :| 0 <= i < |a| && End(a[i]) > end {
      assert a[i] in b;
    }
  }

  lemma SameAdmit(l: Limits, a: Set, b: Set, f: Fragment)
    requires SameSet(a, b)
    ensures Admit(l, a, f).Some? == Admit(l, b, f).Some?
    ensures Admit(l, a, f).Some? ==> SameSet(Admit(l, a, f).value, Admit(l, b, f).value)
  {
    SameOverlaps(a.pieces, b.pieces, f.piece, End(f.piece));
    SameOverlaps(b.pieces, a.pieces, f.piece, End(f.piece));
    ReorderedAppend(a.pieces, b.pieces, f.piece);
  }

  lemma ReorderedAppend(a: seq<Piece>, b: seq<Piece>, p: Piece)
    requires Reordered(a, b)
    ensures Reordered(a + [p], b + [p])
  {
    assert (a + [p])[..|a|] == a && (b + [p])[..|b|] == b;
  }

  /** The order in which a set keeps its pieces never shows in an answer. */
  lemma SameIngress(l: Limits, a: Table, b: Table, f: Fragment, now: int)
    requires SameTable(a, b) && TableInv(l, a) && TableInv(l, b) && ValidFragment(l.family, f) && l.maximumPacket >= 40
    ensures Ingress(l, a, f, now).1 == Ingress(l, b, f, now).1
    ensures SameTable(Ingress(l, a, f, now).0, Ingress(l, b, f, now).0)
  {
    var x, y := SetFor(l, a, f, now), SetFor(l, b, f, now);
    SameSetFor(l, a, b, f, now);
    SameRemoved(a, b, f.key);
    if x.Some? {
      SameAdmit(l, x.value, y.value, f);
      if Grown(l, x.value, f).Some? {
        GrownIsValid(l, a, f, now);
        GrownIsValid(l, b, f, now);
        SameSettle(l, a, b, f.key, Grown(l, x.value, f).value, Grown(l, y.value, f).value);
      }
    }
  }

  lemma SameSetFor(l: Limits, a: Table, b: Table, f: Fragment, now: int)
    requires SameTable(a, b)
    ensures var x, y := SetFor(l, a, f, now), SetFor(l, b, f, now);
            x.Some? == y.Some? && (x.Some? ==> SameSet(x.value, y.value))
  {
    assert |a| == |a.Keys| && |b| == |b.Keys|;
  }

  lemma SameRemoved(a: Table, b: Table, key: Key)
    requires SameTable(a, b)
    ensures SameTable(a - {key}, b - {key})
  {
  }

  lemma SameSettle(l: Limits, a: Table, b: Table, key: Key, s: Set, t: Set)
    requires SameTable(a, b) && TableInv(l, a) && TableInv(l, b) && SetInv(l, s) && SetInv(l, t) && SameSet(s, t)
    ensures Settle(l, a, key, s).1 == Settle(l, b, key, t).1
    ensures SameTable(Settle(l, a, key, s).0, Settle(l, b, key, t).0)
  {
    SettleKeepsInv(l, a, key, s);
    SettleKeepsInv(l, b, key, t);
    if Finished(s) {
      SameAssembled(s.pieces, t.pieces, s.total.value);
    }
  }

  // ---------- the table ----------

  method AnyPastEnd(pieces: seq<Piece>, end: nat) returns (r: bool)
    ensures r == PastEnd(pieces, end)
  {
    for i := 0 to |pieces|
      invariant forall j :: 0 <= j < i ==> End(pieces[j]) <= end
    {
      if End(pieces[i]) > end {
        return true;
      }
    }
    r := false;
  }

  method AnyOverlap(pieces: seq<Piece>, p: Piece) returns (r: bool)
    ensures r == Overlaps(pieces, p)
  {
    for i := 0 to |pieces|
      invariant forall j :: 0 <= j < i ==> !Overlap(p, pieces[j])
    {
      if p.offset < End(pieces[i]) && pieces[i].offset < End(p) {
        return true;
      }
    }
    r := false;
  }

  /** The checks on a fragment that says where the packet ends. */
  method EndIsBad(s: Set, f: Fragment, maximumPacket: nat) returns (bad: bool)
    ensures bad == BadEnd(s, f, maximumPacket)
  {
    var end := End(f.piece);
    if s.total.Some? && end > s.total.value {
      return true;
    }
    if f.more {
      return false;
    }
    if s.total.Some? && s.total.value != end {
      return true;
    }
    bad := AnyPastEnd(s.pieces, end);
    if !bad {
      bad := s.header.Some? && |s.header.value| + end > maximumPacket;
    }
  }

  method Accept(l: Limits, s: Set, f: Fragment) returns (r: Option<Set>)
    ensures r == Admit(l, s, f)
  {
    var bad := EndIsBad(s, f, l.maximumPacket);
    if bad {
      return None;
    }
    var total := if f.more then s.total else Some(End(f.piece));
    if |s.pieces| >= MAX_PIECES || s.octets + |f.piece.payload| > l.maximumPacket - Reserve(l.family) {
      return None;
    }
    var overlap := AnyOverlap(s.pieces, f.piece);
    if overlap {
      return None;
    }
    var header := s.header;
    if l.family.Ip4? && f.piece.offset == 0 {
      header := Some(f.header);
      if total.Some? && |f.header| + total.value > l.maximumPacket {
        return None;
      }
    }
    r := Some(s.(header := header, pieces := s.pieces + [f.piece], total := total,
                 octets := s.octets + |f.piece.payload|));
  }

  /** Sorts the pieces and joins them if they follow on to the end; otherwise leaves them sorted. */
  method Complete(l: Limits, s: Set) returns (sorted: Set, packet: Option<Octets>)
    requires SetInv(l, s)
    ensures SetInv(l, sorted) && SameSet(s, sorted)
    ensures packet == if Finished(s) then Some(Join(l.family, s)) else None
  {
    sorted, packet := s, None;
    if s.header.None? || s.total.None? {
      return;
    }
    var total := s.total.value;
    var pieces := SortPieces(s.pieces);
    forall i | 0 <= i < |pieces| ensures End(pieces[i]) <= total {
      assert pieces[i] in s.pieces;
    }
    sorted := s.(pieces := pieces);
    var contiguous, next := FollowOn(pieces, total);
    if !contiguous || next != total || |s.header.value| + next > l.maximumPacket {
      return;
    }
    SameAssembled(s.pieces, pieces, total);
    var data := CopyPieces(pieces, total);
    packet := Some(Patch(l.family, s.header.value, s.link, total) + data);
  }

  class FragmentSets {
    const limits: Limits
    var sets: Table

    ghost predicate Valid()
      reads this
    {
      TableInv(limits, sets) && |sets| <= SetLimit(limits) && limits.maximumPacket >= 40
    }

    constructor (limits: Limits)
      requires limits.maximumPacket >= 40
      ensures Valid() && sets == map[] && this.limits == limits
    {
      this.limits, sets := limits, map[];
    }

    /** Drops the sets whose time is over. */
    method ExpireSets(now: int)
      requires Valid()
      modifies this
      ensures Valid() && sets == Expire(old(sets), now)
    {
      var keys := sets.Keys;
      while keys != {}
        invariant keys <= old(sets).Keys
        invariant sets == map k | k in old(sets) && (k in keys || now < old(sets)[k].expiresAt) :: old(sets)[k]
        decreases |keys|
      {
        var key :| key in keys;
        if now >= sets[key].expiresAt {
          sets := sets - {key};
        }
        keys := keys - {key};
      }
      SubsetSize(sets.Keys, old(sets).Keys);
    }

    /** Takes one fragment. The answer and the table are those of the table it stands for. */
    method IngressFragment(f: Fragment, now: int) returns (outcome: Outcome)
      requires Valid() && ValidFragment(limits.family, f)
      modifies this
      ensures Valid()
      ensures outcome == Ingress(limits, old(sets), f, now).1
      ensures SameTable(sets, Ingress(limits, old(sets), f, now).0)
    {
      IngressKeepsInv(limits, sets, f, now);
      SameItself(sets);
      SameItself(sets - {f.key});
      var s: Set;
      if f.key in sets {
        s := sets[f.key];
        if limits.family.Ip6? && (s.header != Some(f.header) || s.link != f.link) {
          sets := sets - {f.key};
          return Refused;
        }
      } else {
        if |sets| >= SetLimit(limits) {
          return Refused;
        }
        s := Create(limits.family, f, now);
      }
      var accepted := Accept(limits, s, f);
      if accepted.None? {
        sets := sets - {f.key};
        return Refused;
      }
      GrownIsValid(limits, sets, f, now);
      outcome := Keep(f.key, accepted.value);
    }

    /** Joins a finished set; stores an unfinished one. */
    method Keep(key: Key, s: Set) returns (outcome: Outcome)
      requires TableInv(limits, sets) && SetInv(limits, s)
      modifies this
      ensures TableInv(limits, sets) && outcome == Settle(limits, old(sets), key, s).1
      ensures SameTable(sets, Settle(limits, old(sets), key, s).0) && |sets| == |Settle(limits, old(sets), key, s).0|
    {
      SettleKeepsInv(limits, sets, key, s);
      var sorted, packet := Complete(limits, s);
      if packet.None? {
        StoreSorted(limits, sets, key, s, sorted);
        sets := sets[key := sorted];
        return Waiting;
      }
      sets := sets - {key};
      outcome := Whole(packet.value);
    }
  }

  lemma StoreSorted(l: Limits, t: Table, key: Key, s: Set, sorted: Set)
    requires TableInv(l, t) && SetInv(l, sorted) && SameSet(s, sorted)
    ensures TableInv(l, t[key := sorted]) && SameTable(t[key := sorted], t[key := s])
    ensures |t[key := sorted]| == |t[key := s]|
  {
    assert t[key := sorted].Keys == t[key := s].Keys == t.Keys + {key};
  }
}
