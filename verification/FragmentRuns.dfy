/** Whole runs of the fragment table: what comes out, and that every arrival order gives the packet back. */
module FragmentRuns {
  import opened Arith
  import opened Bytes
  import opened Reassembly
  import opened Fragments

  datatype Event = Event(f: Fragment, now: int)

  function Receive(l: Limits, t: Table, e: Event): (Table, Outcome) {
    Ingress(l, Expire(t, e.now), e.f, e.now)
  }

  function After(l: Limits, t: Table, events: seq<Event>): Table {
    if events == [] then t
    else Receive(l, After(l, t, events[..|events| - 1]), events[|events| - 1]).0
  }

  /** The answer to event `n` of a run. */
  function Answer(l: Limits, t: Table, events: seq<Event>, n: nat): Outcome
    requires n < |events|
  {
    Receive(l, After(l, t, events[..n]), events[n]).1
  }

  predicate ValidEvents(l: Limits, events: seq<Event>) {
    l.maximumPacket >= 40 && forall i :: 0 <= i < |events| ==> ValidFragment(l.family, events[i].f)
  }

  // ---------- safety ----------

  lemma ReceiveKeepsInv(l: Limits, t: Table, e: Event)
    requires TableInv(l, t) && |t| <= SetLimit(l) && ValidFragment(l.family, e.f) && l.maximumPacket >= 40
    ensures TableInv(l, Receive(l, t, e).0) && |Receive(l, t, e).0| <= SetLimit(l)
  {
    SubsetSize(Expire(t, e.now).Keys, t.Keys);
    IngressKeepsInv(l, Expire(t, e.now), e.f, e.now);
  }

  lemma {:induction false} RunKeepsInv(l: Limits, events: seq<Event>)
    requires ValidEvents(l, events)
    ensures TableInv(l, After(l, map[], events)) && |After(l, map[], events)| <= SetLimit(l)
    decreases |events|
  {
    if events != [] {
      RunKeepsInv(l, events[..|events| - 1]);
      ReceiveKeepsInv(l, After(l, map[], events[..|events| - 1]), events[|events| - 1]);
    }
  }

  predicate SentIn(events: seq<Event>, key: Key, p: Piece, j: int) {
    0 <= j < |events| && events[j].f.key == key && events[j].f.piece == p
  }

  ghost predicate Sent(events: seq<Event>, key: Key, p: Piece) {
    exists j :: SentIn(events, key, p, j)
  }

  ghost predicate AllSent(events: seq<Event>, key: Key, pieces: seq<Piece>) {
    forall i :: 0 <= i < |pieces| ==> Sent(events, key, pieces[i])
  }

  ghost predicate History(events: seq<Event>, t: Table) {
    forall k :: k in t ==> AllSent(events, k, t[k].pieces)
  }

  lemma SentLater(events: seq<Event>, e: Event, key: Key, pieces: seq<Piece>)
    requires AllSent(events, key, pieces)
    ensures AllSent(events + [e], key, pieces)
  {
    forall i | 0 <= i < |pieces| ensures Sent(events + [e], key, pieces[i]) {
      assert Sent(events, key, pieces[i]);
      var j :| SentIn(events, key, pieces[i], j);
      assert SentIn(events + [e], key, pieces[i], j);
    }
  }

  lemma GrownWasSent(l: Limits, events: seq<Event>, t: Table, e: Event)
    requires History(events, t) && SetFor(l, t, e.f, e.now).Some?
    requires Grown(l, SetFor(l, t, e.f, e.now).value, e.f).Some?
    ensures AllSent(events + [e], e.f.key, Grown(l, SetFor(l, t, e.f, e.now).value, e.f).value.pieces)
  {
    var s := SetFor(l, t, e.f, e.now).value;
    var n := Grown(l, s, e.f).value;
    assert AllSent(events, e.f.key, s.pieces);
    SentLater(events, e, e.f.key, s.pieces);
    assert SentIn(events + [e], e.f.key, e.f.piece, |events|);
    forall i | 0 <= i < |n.pieces| ensures Sent(events + [e], e.f.key, n.pieces[i]) {
      assert i < |s.pieces| ==> n.pieces[i] == s.pieces[i];
    }
  }

  lemma HistoryStep(l: Limits, events: seq<Event>, t: Table, e: Event)
    requires History(events, t)
    ensures History(events + [e], Receive(l, t, e).0)
  {
    var live := Expire(t, e.now);
    forall k | k in Receive(l, t, e).0 ensures AllSent(events + [e], k, Receive(l, t, e).0[k].pieces) {
      if k in live && Receive(l, t, e).0[k] == live[k] {
        SentLater(events, e, k, live[k].pieces);
      } else {
        GrownWasSent(l, events, live, e);
      }
    }
  }

  lemma {:induction false} RunHistory(l: Limits, events: seq<Event>)
    ensures History(events, After(l, map[], events))
    decreases |events|
  {
    if events != [] {
      var n := |events| - 1;
      RunHistory(l, events[..n]);
      HistoryStep(l, events[..n], After(l, map[], events[..n]), events[n]);
      assert events[..n] + [events[n]] == events;
    }
  }

  /**
   * Nothing is invented: whatever arrives before, a packet is produced only from a set whose pieces were all
   * received for its key, do not overlap, and leave no octet out; and it fits the packet limit.
   */
  lemma WholeIsFromFragments(l: Limits, events: seq<Event>, e: Event) returns (s: Set)
    requires ValidEvents(l, events + [e])
    requires Receive(l, After(l, map[], events), e).1.Whole?
    ensures SetInv(l, s) && Finished(s) && AllSent(events + [e], e.f.key, s.pieces)
    ensures Receive(l, After(l, map[], events), e).1 == Whole(Join(l.family, s))
    ensures |Join(l.family, s)| <= l.maximumPacket
    ensures e.f.key !in Receive(l, After(l, map[], events), e).0
  {
    var t := After(l, map[], events);
    assert forall i :: 0 <= i < |events| ==> (events + [e])[i] == events[i];
    assert (events + [e])[|events|] == e;
    RunKeepsInv(l, events);
    RunHistory(l, events);
    var live := Expire(t, e.now);
    GrownIsValid(l, live, e.f, e.now);
    GrownWasSent(l, events, live, e);
    s := Grown(l, SetFor(l, live, e.f, e.now).value, e.f).value;
    SettleKeepsInv(l, live, e.f.key, s);
  }

  // ---------- every arrival order ----------

  /** A packet as its sender cut it: the header its fragments carry, and the payload they share out. */
  datatype Original = Original(key: Key, header: Octets, link: Link, data: Octets)

  predicate PartOf(family: Family, o: Original, f: Fragment) {
    && f.key == o.key && f.piece.payload != [] && Holds(o.data, f.piece)
    && f.more == (End(f.piece) < |o.data|)
    && f.link == o.link
    && (family.Ip6? || f.piece.offset == 0 ==> f.header == o.header)
  }

  function PiecesOf(fs: seq<Fragment>): seq<Piece> {
    seq(|fs|, i requires 0 <= i < |fs| => fs[i].piece)
  }

  /** Nonempty parts that do not overlap, leave nothing out and respect the adapter's limits, in arrival order. */
  predicate IsCut(l: Limits, o: Original, fs: seq<Fragment>) {
    && 0 < |fs| <= MAX_PIECES
    && ValidHeader(l.family, o.header, o.link)
    && |o.header| + |o.data| <= l.maximumPacket
    && (forall i :: 0 <= i < |fs| ==> PartOf(l.family, o, fs[i]))
    && Disjoint(PiecesOf(fs)) && Total(PiecesOf(fs)) == |o.data|
  }

  predicate Ended(fs: seq<Fragment>, n: nat)
    requires n <= |fs|
  {
    exists i :: 0 <= i < n && !fs[i].more
  }

  predicate Begun(fs: seq<Fragment>, n: nat)
    requires n <= |fs|
  {
    exists i :: 0 <= i < n && fs[i].piece.offset == 0
  }

  /** What the set knows after the first `n` arrivals. */
  predicate Progress(family: Family, o: Original, fs: seq<Fragment>, n: nat, s: Set) {
    && n <= |fs|
    && s.pieces == PiecesOf(fs)[..n] && s.octets == Total(s.pieces)
    && s.total == (if Ended(fs, n) then Some(|o.data|) else None)
    && s.header == (if family.Ip6? || Begun(fs, n) then Some(o.header) else None)
    && s.link == o.link
  }

  lemma {:induction false} TotalGrows(pieces: seq<Piece>, n: nat)
    requires n <= |pieces| && Nonempty(pieces)
    ensures Total(pieces[..n]) <= Total(pieces)
    ensures n < |pieces| ==> Total(pieces[..n]) < Total(pieces)
    decreases |pieces| - n
  {
    if n < |pieces| {
      assert pieces[..n + 1][..n] == pieces[..n];
      TotalGrows(pieces, n + 1);
    } else {
      assert pieces[..n] == pieces;
    }
  }

  lemma PartFits(l: Limits, o: Original, fs: seq<Fragment>, n: nat, s: Set)
    requires IsCut(l, o, fs) && n < |fs| && Progress(l.family, o, fs, n, s)
    ensures !BadEnd(s, fs[n], l.maximumPacket) && !Overlaps(s.pieces, fs[n].piece)
  {
    assert PartOf(l.family, o, fs[n]);
    forall i | 0 <= i < n ensures End(s.pieces[i]) <= |o.data| && !Overlap(fs[n].piece, s.pieces[i]) {
      assert PartOf(l.family, o, fs[i]);
      assert s.pieces[i] == PiecesOf(fs)[i] == fs[i].piece;
      assert !Overlap(PiecesOf(fs)[i], PiecesOf(fs)[n]);
    }
  }

  lemma PartCounts(l: Limits, o: Original, fs: seq<Fragment>, n: nat, s: Set)
    requires IsCut(l, o, fs) && n < |fs| && Progress(l.family, o, fs, n, s)
    ensures s.octets + |fs[n].piece.payload| == Total(PiecesOf(fs)[..n + 1]) <= |o.data|
  {
    var pieces := PiecesOf(fs);
    forall i | 0 <= i < |pieces| ensures pieces[i].payload != [] {
      assert PartOf(l.family, o, fs[i]);
    }
    TotalGrows(pieces, n + 1);
    assert pieces[..n + 1][..n] == pieces[..n];
  }

  /** The next part of a cut is always admitted. */
  lemma CutStep(l: Limits, o: Original, fs: seq<Fragment>, n: nat, s: Set)
    requires IsCut(l, o, fs) && n < |fs| && Progress(l.family, o, fs, n, s)
    ensures Consistent(l.family, s, fs[n]) && Admit(l, s, fs[n]).Some?
    ensures Progress(l.family, o, fs, n + 1, Admit(l, s, fs[n]).value)
    ensures Admit(l, s, fs[n]).value.expiresAt == s.expiresAt
  {
    PartFits(l, o, fs, n, s);
    PartCounts(l, o, fs, n, s);
    assert PartOf(l.family, o, fs[n]);
    assert PiecesOf(fs)[..n] + [fs[n].piece] == PiecesOf(fs)[..n + 1];
    EndedStep(fs, n);
  }

  lemma EndedStep(fs: seq<Fragment>, n: nat)
    requires n < |fs|
    ensures Ended(fs, n + 1) <==> Ended(fs, n) || !fs[n].more
    ensures Begun(fs, n + 1) <==> Begun(fs, n) || fs[n].piece.offset == 0
  {
  }

  /** The whole cut has a first and a last part. */
  lemma CutHasEnds(l: Limits, o: Original, fs: seq<Fragment>)
    requires IsCut(l, o, fs)
    ensures Ended(fs, |fs|) && Begun(fs, |fs|)
  {
    var pieces := PiecesOf(fs);
    forall i | 0 <= i < |fs| ensures Holds(o.data, pieces[i]) {
      assert PartOf(l.family, o, fs[i]);
    }
    assert PartOf(l.family, o, fs[0]);
    var first := CoveringPiece(pieces, |o.data|, 0);
    assert fs[first].piece.offset == 0;
    var last := CoveringPiece(pieces, |o.data|, |o.data| - 1);
    assert PartOf(l.family, o, fs[last]);
    assert !fs[last].more;
  }

  /** The set is finished at the last arrival and not before. */
  lemma FinishedAtLast(l: Limits, o: Original, fs: seq<Fragment>, n: nat, s: Set)
    requires IsCut(l, o, fs) && Progress(l.family, o, fs, n, s)
    ensures Finished(s) <==> n == |fs|
    ensures HeaderInv(l, s) || l.family.Ip4?
    ensures n == |fs| ==> HeaderInv(l, s) && s.total == Some(|o.data|)
    ensures n == |fs| ==> Within(s.pieces, |o.data|) && Assembled(s.pieces, |o.data|) == o.data
  {
    var pieces := PiecesOf(fs);
    forall i | 0 <= i < |fs| ensures pieces[i].payload != [] && Holds(o.data, pieces[i]) {
      assert PartOf(l.family, o, fs[i]);
    }
    TotalGrows(pieces, n);
    if n == |fs| {
      assert pieces[..n] == pieces;
      CutHasEnds(l, o, fs);
      CoverDetermines(pieces, o.data);
    }
  }

  function Rebuilt(family: Family, o: Original): Octets
    requires ValidHeader(family, o.header, o.link)
  {
    Patch(family, o.header, o.link, |o.data|) + o.data
  }

  /** What the table does with the next part, given how far its set has come. */
  lemma PartArrives(l: Limits, o: Original, fs: seq<Fragment>, n: nat, t: Table, now: int)
    requires IsCut(l, o, fs) && n < |fs|
    requires SetFor(l, t, fs[n], now).Some? && Progress(l.family, o, fs, n, SetFor(l, t, fs[n], now).value)
    ensures var r := Ingress(l, t, fs[n], now);
            if n + 1 == |fs| then r.1 == Whole(Rebuilt(l.family, o)) && o.key !in r.0
            else r.1 == Waiting && o.key in r.0 && Progress(l.family, o, fs, n + 1, r.0[o.key])
                 && r.0[o.key].expiresAt == SetFor(l, t, fs[n], now).value.expiresAt
  {
    assert PartOf(l.family, o, fs[n]);
    var s := SetFor(l, t, fs[n], now).value;
    CutStep(l, o, fs, n, s);
    FinishedAtLast(l, o, fs, n + 1, Admit(l, s, fs[n]).value);
  }

  lemma OthersUntouched(l: Limits, t: Table, e: Event, key: Key)
    requires e.f.key != key && key in t && e.now < t[key].expiresAt
    ensures key in Receive(l, t, e).0 && Receive(l, t, e).0[key] == t[key]
  {
  }

  // ---------- interleaved with other traffic ----------

  /** The fragments of one packet, in the order in which they arrive among all the others. */
  function Mine(events: seq<Event>, key: Key): seq<Fragment> {
    if events == [] then []
    else
      var e := events[|events| - 1];
      Mine(events[..|events| - 1], key) + if e.f.key == key then [e.f] else []
  }

  lemma {:induction false} MinePrefix(events: seq<Event>, key: Key, n: nat)
    requires n <= |events|
    ensures Mine(events[..n], key) <= Mine(events, key)
    decreases |events|
  {
    var last := |events| - 1;
    if n < |events| {
      assert events[..last][..n] == events[..n];
      MinePrefix(events[..last], key, n);
    } else {
      assert events[..n] == events;
    }
  }

  /** The run starts with the packet's first arrival, finds room for it, and stays within its lifetime. */
  predicate InTime(l: Limits, t: Table, events: seq<Event>, key: Key) {
    && events != [] && events[0].f.key == key
    && (key in t ==> t[key].expiresAt <= events[0].now)
    && |Expire(t, events[0].now)| < SetLimit(l)
    && forall i :: 0 <= i < |events| ==> events[i].now < events[0].now + LIFETIME
  }

  predicate Underway(l: Limits, o: Original, fs: seq<Fragment>, n: nat, t: Table, expires: int) {
    o.key in t && Progress(l.family, o, fs, n, t[o.key]) && t[o.key].expiresAt == expires
  }

  lemma FirstArrival(l: Limits, o: Original, fs: seq<Fragment>, t: Table, events: seq<Event>)
    requires IsCut(l, o, fs) && InTime(l, t, events, o.key) && events[0].f == fs[0]
    ensures var r := Receive(l, t, events[0]);
            if |fs| == 1 then r.1 == Whole(Rebuilt(l.family, o))
            else r.1 == Waiting && Underway(l, o, fs, 1, r.0, events[0].now + LIFETIME)
  {
    var live := Expire(t, events[0].now);
    assert PartOf(l.family, o, fs[0]);
    assert o.key !in live;
    var s := Create(l.family, fs[0], events[0].now);
    assert PiecesOf(fs)[..0] == [];
    assert Progress(l.family, o, fs, 0, s);
    PartArrives(l, o, fs, 0, live, events[0].now);
  }

  lemma NextArrival(l: Limits, o: Original, fs: seq<Fragment>, n: nat, t: Table, e: Event, expires: int)
    requires IsCut(l, o, fs) && n < |fs| && Underway(l, o, fs, n, t, expires) && e.now < expires && e.f == fs[n]
    ensures var r := Receive(l, t, e);
            if n + 1 == |fs| then r.1 == Whole(Rebuilt(l.family, o))
            else r.1 == Waiting && Underway(l, o, fs, n + 1, r.0, expires)
  {
    assert PartOf(l.family, o, fs[n]);
    PartArrives(l, o, fs, n, Expire(t, e.now), e.now);
  }

  lemma {:induction false} UnderwayAfter(l: Limits, o: Original, fs: seq<Fragment>, t: Table, events: seq<Event>,
                                         n: nat)
    requires IsCut(l, o, fs) && InTime(l, t, events, o.key) && Mine(events, o.key) == fs
    requires 0 < n <= |events| && |Mine(events[..n], o.key)| < |fs|
    ensures Underway(l, o, fs, |Mine(events[..n], o.key)|, After(l, t, events[..n]), events[0].now + LIFETIME)
    decreases n
  {
    var before, e := events[..n - 1], events[n - 1];
    assert events[..n][..n - 1] == before && events[..n][n - 1] == e;
    MinePrefix(events, o.key, n);
    MinePrefix(events, o.key, n - 1);
    if n == 1 {
      assert before == [];
      FirstArrival(l, o, fs, t, events);
    } else {
      UnderwayAfter(l, o, fs, t, events, n - 1);
      var m := |Mine(before, o.key)|;
      if e.f.key == o.key {
        assert Mine(events[..n], o.key)[m] == e.f;
      }
      UnderwayStep(l, o, fs, m, After(l, t, before), e, events[0].now + LIFETIME);
    }
  }

  lemma UnderwayStep(l: Limits, o: Original, fs: seq<Fragment>, m: nat, t: Table, e: Event, expires: int)
    requires IsCut(l, o, fs) && m < |fs| && Underway(l, o, fs, m, t, expires) && e.now < expires
    requires e.f.key == o.key ==> m + 1 < |fs| && e.f == fs[m]
    ensures Underway(l, o, fs, if e.f.key == o.key then m + 1 else m, Receive(l, t, e).0, expires)
  {
    if e.f.key == o.key {
      NextArrival(l, o, fs, m, t, e, expires);
    } else {
      OthersUntouched(l, t, e, o.key);
    }
  }

  /**
   * However the sender cuts a packet, in whatever order the parts arrive, and whatever other fragments arrive
   * between them: every part but the last waits, and the last gives the packet back.
   */
  lemma EveryOrderReassembles(l: Limits, o: Original, fs: seq<Fragment>, t: Table, events: seq<Event>, n: nat)
    requires IsCut(l, o, fs) && InTime(l, t, events, o.key) && Mine(events, o.key) == fs
    requires n < |events| && events[n].f.key == o.key
    ensures Answer(l, t, events, n)
            == if |Mine(events[..n + 1], o.key)| == |fs| then Whole(Rebuilt(l.family, o)) else Waiting
  {
    assert events[..n + 1][..n] == events[..n] && events[..n + 1][n] == events[n];
    MinePrefix(events, o.key, n + 1);
    var m := |Mine(events[..n], o.key)|;
    assert Mine(events[..n + 1], o.key)[m] == events[n].f;
    if n == 0 {
      assert events[..0] == [];
      FirstArrival(l, o, fs, t, events);
    } else {
      UnderwayAfter(l, o, fs, t, events, n);
      NextArrival(l, o, fs, m, After(l, t, events[..n]), events[n], events[0].now + LIFETIME);
    }
  }
}
