/** Pieces of a fragmented payload: disjointness, coverage and the payload they determine. */
module Reassembly {
  import opened Bytes

  const MAX_PIECES: nat := 128

  datatype Piece = Piece(offset: nat, payload: Octets)

  function End(p: Piece): nat {
    p.offset + |p.payload|
  }

  predicate Overlap(p: Piece, q: Piece) {
    p.offset < End(q) && q.offset < End(p)
  }

  predicate Disjoint(pieces: seq<Piece>) {
    forall i, j :: 0 <= i < j < |pieces| ==> !Overlap(pieces[i], pieces[j])
  }

  predicate Nonempty(pieces: seq<Piece>) {
    forall i :: 0 <= i < |pieces| ==> pieces[i].payload != []
  }

  predicate Within(pieces: seq<Piece>, total: nat) {
    forall i :: 0 <= i < |pieces| ==> End(pieces[i]) <= total
  }

  function Total(pieces: seq<Piece>): nat {
    if pieces == [] then 0 else Total(pieces[..|pieces| - 1]) + |pieces[|pieces| - 1].payload|
  }

  // ---------- coverage by counting ----------

  function Range(a: int, b: int): (r: set<int>)
    ensures forall k :: k in r <==> a <= k < b
    ensures a <= b ==> |r| == b - a
    decreases b - a
  {
    if a >= b then {} else Range(a, b - 1) + {b - 1}
  }

  /** The positions that the pieces hold. */
  function Positions(pieces: seq<Piece>): set<int> {
    if pieces == [] then {}
    else Positions(pieces[..|pieces| - 1]) + Range(pieces[|pieces| - 1].offset, End(pieces[|pieces| - 1]))
  }

  predicate CoveredBy(pieces: seq<Piece>, k: int, i: int) {
    0 <= i < |pieces| && pieces[i].offset <= k < End(pieces[i])
  }

  lemma {:induction false} HeldBy(pieces: seq<Piece>, k: int) returns (i: nat)
    requires k in Positions(pieces)
    ensures CoveredBy(pieces, k, i)
    decreases |pieces|
  {
    var last := |pieces| - 1;
    if k in Positions(pieces[..last]) {
      i := HeldBy(pieces[..last], k);
    } else {
      i := last;
    }
  }

  /** Disjoint pieces hold as many positions as they have octets. */
  lemma {:induction false} PositionsCount(pieces: seq<Piece>)
    requires Disjoint(pieces)
    ensures |Positions(pieces)| == Total(pieces)
    decreases |pieces|
  {
    if pieces != [] {
      var last := |pieces| - 1;
      var front := pieces[..last];
      var span := Range(pieces[last].offset, End(pieces[last]));
      PositionsCount(front);
      forall k | k in Positions(front) ensures k !in span {
        var i := HeldBy(front, k);
        assert !Overlap(pieces[i], pieces[last]);
      }
      assert Positions(front) !! span;
    }
  }

  lemma SubsetOfSameSize(a: set<int>, b: set<int>)
    requires a <= b
    ensures |a| <= |b| && (|a| == |b| <==> a == b)
  {
    assert b == a + (b - a);
  }

  /** Disjoint pieces inside a total cover it exactly when their lengths add up to it. */
  lemma CoversIff(pieces: seq<Piece>, total: nat)
    requires Disjoint(pieces) && Within(pieces, total)
    ensures Total(pieces) <= total
    ensures Total(pieces) == total <==> Positions(pieces) == Range(0, total)
  {
    PositionsCount(pieces);
    forall k | k in Positions(pieces) ensures k in Range(0, total) {
      var i := HeldBy(pieces, k);
    }
    SubsetOfSameSize(Positions(pieces), Range(0, total));
  }

  /** In a cover, every position belongs to exactly one piece. */
  lemma CoveringPiece(pieces: seq<Piece>, total: nat, k: nat) returns (i: nat)
    requires Disjoint(pieces) && Within(pieces, total) && Total(pieces) == total && k < total
    ensures CoveredBy(pieces, k, i)
    ensures forall j :: CoveredBy(pieces, k, j) ==> j == i
  {
    CoversIff(pieces, total);
    i := HeldBy(pieces, k);
    forall j | CoveredBy(pieces, k, j) ensures j == i {
      assert j != i ==> Overlap(pieces[Min(i, j)], pieces[if i < j then j else i]);
    }
  }

  // ---------- the payload the pieces determine ----------

  /** Copies a piece to its place. */
  function Write(base: Octets, p: Piece): (r: Octets)
    requires End(p) <= |base|
    ensures |r| == |base|
  {
    base[..p.offset] + p.payload + base[End(p)..]
  }

  function Overlay(base: Octets, pieces: seq<Piece>): (r: Octets)
    requires Within(pieces, |base|)
    ensures |r| == |base|
    decreases |pieces|
  {
    if pieces == [] then base else Write(Overlay(base, pieces[..|pieces| - 1]), pieces[|pieces| - 1])
  }

  predicate Holds(data: Octets, p: Piece) {
    End(p) <= |data| && data[p.offset..End(p)] == p.payload
  }

  predicate AllHold(data: Octets, pieces: seq<Piece>) {
    forall i :: 0 <= i < |pieces| ==> Holds(data, pieces[i])
  }

  lemma {:induction false} OverlayAt(base: Octets, pieces: seq<Piece>, i: nat, k: nat)
    requires Within(pieces, |base|) && Disjoint(pieces) && CoveredBy(pieces, k, i)
    ensures Overlay(base, pieces)[k] == pieces[i].payload[k - pieces[i].offset]
    decreases |pieces|
  {
    var last := |pieces| - 1;
    if i < last {
      assert !Overlap(pieces[i], pieces[last]);
      OverlayAt(base, pieces[..last], i, k);
    }
  }

  /** Copying disjoint pieces, in any order, leaves each of them in its place. */
  lemma OverlayHolds(base: Octets, pieces: seq<Piece>)
    requires Within(pieces, |base|) && Disjoint(pieces)
    ensures AllHold(Overlay(base, pieces), pieces)
  {
    var r := Overlay(base, pieces);
    forall i | 0 <= i < |pieces| ensures Holds(r, pieces[i]) {
      var p := pieces[i];
      forall k | p.offset <= k < End(p) ensures r[k] == p.payload[k - p.offset] {
        OverlayAt(base, pieces, i, k);
      }
      assert r[p.offset..End(p)] == p.payload;
    }
  }

  function Zeros(n: nat): Octets {
    seq(n, _ => 0)
  }

  /** The pieces' octets, each at its offset. */
  function Assembled(pieces: seq<Piece>, total: nat): (r: Octets)
    requires Within(pieces, total)
    ensures |r| == total
  {
    Overlay(Zeros(total), pieces)
  }

  /** A payload is determined by any cover of it. */
  lemma CoverDetermines(pieces: seq<Piece>, data: Octets)
    requires Disjoint(pieces) && AllHold(data, pieces) && Total(pieces) == |data|
    ensures Within(pieces, |data|) && Assembled(pieces, |data|) == data
  {
    forall i | 0 <= i < |pieces| ensures End(pieces[i]) <= |data| {
      assert Holds(data, pieces[i]);
    }
    var r := Assembled(pieces, |data|);
    forall k | 0 <= k < |data| ensures r[k] == data[k] {
      var i := CoveringPiece(pieces, |data|, k);
      OverlayAt(Zeros(|data|), pieces, i, k);
      assert Holds(data, pieces[i]);
      var p := pieces[i];
      assert data[p.offset..End(p)][k - p.offset] == data[k];
    }
  }
}
