/** Fragmented packets as they arrive: octets among any other octets, parsed, kept and joined. */
module FragmentArrivals {
  import opened Bytes
  import opened Reassembly
  import opened Fragments
  import opened FragmentRuns
  import opened FragmentPackets
  import opened FragmentPacketsV6
  import IpPacket

  datatype Arrival = Arrival(octets: Octets, now: int)

  function ParseFor(l: Limits, s: Octets): FragmentParse {
    if l.family.Ip4? then ParseFragmentV4(s, l.maximumPacket) else ParseFragmentV6(s, l.maximumPacket)
  }

  /** Every arrival drops the expired sets; octets that are no fragment go no further. */
  function Take(l: Limits, t: Table, a: Arrival): (Table, Option<Outcome>) {
    match ParseFor(l, a.octets)
    case IsFragment(f) => var r := Receive(l, t, Event(f, a.now)); (r.0, Some(r.1))
    case _ => (Expire(t, a.now), None)
  }

  function AfterArrivals(l: Limits, t: Table, arrivals: seq<Arrival>): Table {
    if arrivals == [] then t
    else Take(l, AfterArrivals(l, t, arrivals[..|arrivals| - 1]), arrivals[|arrivals| - 1]).0
  }

  /** The answer to arrival `n` of a run. */
  function AnswerTo(l: Limits, t: Table, arrivals: seq<Arrival>, n: nat): Option<Outcome>
    requires n < |arrivals|
  {
    Take(l, AfterArrivals(l, t, arrivals[..n]), arrivals[n]).1
  }

  /** The octets are a fragment of the packet with this key. */
  predicate Belongs(l: Limits, s: Octets, key: Key) {
    ParseFor(l, s).IsFragment? && ParseFor(l, s).f.key == key
  }

  /** The octets that arrive for one packet, in order. */
  function OwnOctets(l: Limits, arrivals: seq<Arrival>, key: Key): (r: seq<Octets>)
    ensures forall i :: 0 <= i < |r| ==> Belongs(l, r[i], key)
  {
    if arrivals == [] then []
    else
      var s := arrivals[|arrivals| - 1].octets;
      OwnOctets(l, arrivals[..|arrivals| - 1], key) + if Belongs(l, s, key) then [s] else []
  }

  /** The run starts with the packet's first arrival, finds room for it, and stays within its lifetime. */
  predicate ArrivesInTime(l: Limits, t: Table, arrivals: seq<Arrival>, key: Key) {
    && arrivals != [] && Belongs(l, arrivals[0].octets, key)
    && (key in t ==> t[key].expiresAt <= arrivals[0].now)
    && |Expire(t, arrivals[0].now)| < SetLimit(l)
    && forall i :: 0 <= i < |arrivals| ==> arrivals[i].now < arrivals[0].now + LIFETIME
  }

  /** The octets are these fragments, written out. */
  predicate Writes(l: Limits, octets: seq<Octets>, fs: seq<Fragment>) {
    |octets| == |fs| && forall i :: 0 <= i < |fs| ==> ParseFor(l, octets[i]) == IsFragment(fs[i])
  }

  lemma {:induction false} OwnPrefix(l: Limits, arrivals: seq<Arrival>, key: Key, n: nat)
    requires n <= |arrivals|
    ensures OwnOctets(l, arrivals[..n], key) <= OwnOctets(l, arrivals, key)
    decreases |arrivals|
  {
    if n < |arrivals| {
      var before := arrivals[..|arrivals| - 1];
      assert before[..n] == arrivals[..n];
      OwnPrefix(l, before, key, n);
      OwnGrows(l, arrivals, before, key);
    } else {
      assert arrivals[..n] == arrivals;
    }
  }

  lemma OwnGrows(l: Limits, arrivals: seq<Arrival>, before: seq<Arrival>, key: Key)
    requires arrivals != [] && before == arrivals[..|arrivals| - 1]
    ensures OwnOctets(l, before, key) <= OwnOctets(l, arrivals, key)
  {
  }

  /** The next own arrival carries the next fragment. */
  lemma NextOwn(l: Limits, arrivals: seq<Arrival>, key: Key, fs: seq<Fragment>, n: nat)
    requires Writes(l, OwnOctets(l, arrivals, key), fs) && n < |arrivals|
    ensures var m := |OwnOctets(l, arrivals[..n], key)|;
            var own := Belongs(l, arrivals[n].octets, key);
            && |OwnOctets(l, arrivals[..n + 1], key)| == (if own then m + 1 else m) <= |fs| && (own ==> m < |fs|)
            && (own ==> ParseFor(l, arrivals[n].octets) == IsFragment(fs[m]))
  {
    var all, upto := OwnOctets(l, arrivals, key), OwnOctets(l, arrivals[..n + 1], key);
    assert arrivals[..n + 1][..n] == arrivals[..n];
    OwnPrefix(l, arrivals, key, n + 1);
    var m := |OwnOctets(l, arrivals[..n], key)|;
    if Belongs(l, arrivals[n].octets, key) {
      assert upto[m] == arrivals[n].octets;
      assert all[m] == upto[m];
    }
  }

  lemma TakeStep(l: Limits, o: Original, fs: seq<Fragment>, m: nat, t: Table, a: Arrival, expires: int)
    requires IsCut(l, o, fs) && m < |fs| && Underway(l, o, fs, m, t, expires) && a.now < expires
    requires Belongs(l, a.octets, o.key) ==> m + 1 < |fs| && ParseFor(l, a.octets) == IsFragment(fs[m])
    ensures Underway(l, o, fs, if Belongs(l, a.octets, o.key) then m + 1 else m, Take(l, t, a).0, expires)
  {
    var p := ParseFor(l, a.octets);
    if p.IsFragment? {
      UnderwayStep(l, o, fs, m, t, Event(p.f, a.now), expires);
    }
  }

  lemma FirstTaken(l: Limits, o: Original, fs: seq<Fragment>, t: Table, arrivals: seq<Arrival>)
    requires IsCut(l, o, fs) && ArrivesInTime(l, t, arrivals, o.key)
             && ParseFor(l, arrivals[0].octets) == IsFragment(fs[0])
    ensures var r := Take(l, t, arrivals[0]);
            if |fs| == 1 then r.1 == Some(Whole(Rebuilt(l.family, o)))
            else r.1 == Some(Waiting) && Underway(l, o, fs, 1, r.0, arrivals[0].now + LIFETIME)
  {
    FirstArrival(l, o, fs, t, [Event(fs[0], arrivals[0].now)]);
  }

  lemma {:induction false} UnderwayAfterArrivals(l: Limits, o: Original, fs: seq<Fragment>, t: Table,
                                                 arrivals: seq<Arrival>, n: nat)
    requires IsCut(l, o, fs) && ArrivesInTime(l, t, arrivals, o.key) && Writes(l, OwnOctets(l, arrivals, o.key), fs)
    requires 0 < n <= |arrivals| && |OwnOctets(l, arrivals[..n], o.key)| < |fs|
    ensures Underway(l, o, fs, |OwnOctets(l, arrivals[..n], o.key)|, AfterArrivals(l, t, arrivals[..n]),
                     arrivals[0].now + LIFETIME)
    decreases n
  {
    var before, a := arrivals[..n - 1], arrivals[n - 1];
    LastTaken(l, t, arrivals, n);
    NextOwn(l, arrivals, o.key, fs, n - 1);
    if n == 1 {
      assert before == [];
      assert OwnOctets(l, before, o.key) == [];
      FirstTaken(l, o, fs, t, arrivals);
    } else {
      UnderwayAfterArrivals(l, o, fs, t, arrivals, n - 1);
      TakeStep(l, o, fs, |OwnOctets(l, before, o.key)|, AfterArrivals(l, t, before), a, arrivals[0].now + LIFETIME);
    }
  }

  lemma LastTaken(l: Limits, t: Table, arrivals: seq<Arrival>, n: nat)
    requires 0 < n <= |arrivals|
    ensures AfterArrivals(l, t, arrivals[..n]) == Take(l, AfterArrivals(l, t, arrivals[..n - 1]), arrivals[n - 1]).0
  {
    assert arrivals[..n][..n - 1] == arrivals[..n - 1] && arrivals[..n][n - 1] == arrivals[n - 1];
  }

  /** Whatever octets arrive in between, the last fragment of a cut packet gives it back and every other one waits. */
  lemma OctetsReassemble(l: Limits, o: Original, fs: seq<Fragment>, t: Table, arrivals: seq<Arrival>, n: nat)
    requires IsCut(l, o, fs) && ArrivesInTime(l, t, arrivals, o.key) && Writes(l, OwnOctets(l, arrivals, o.key), fs)
    requires n < |arrivals| && Belongs(l, arrivals[n].octets, o.key)
    ensures AnswerTo(l, t, arrivals, n)
            == Some(if |OwnOctets(l, arrivals[..n + 1], o.key)| == |fs| then Whole(Rebuilt(l.family, o)) else Waiting)
  {
    NextOwn(l, arrivals, o.key, fs, n);
    if n == 0 {
      assert arrivals[..0] == [];
      FirstTaken(l, o, fs, t, arrivals);
    } else {
      var m := |OwnOctets(l, arrivals[..n], o.key)|;
      UnderwayAfterArrivals(l, o, fs, t, arrivals, n);
      NextArrival(l, o, fs, m, AfterArrivals(l, t, arrivals[..n]), Event(fs[m], arrivals[n].now),
                  arrivals[0].now + LIFETIME);
    }
  }

  // ---------- IPv4 ----------

  /** The fragments that a sender cuts from a packet, as octets. */
  function CutsOf(p: Octets, cuts: seq<Cut>): seq<Octets>
    requires SoundV4(p) && forall i :: 0 <= i < |cuts| ==> CutPoints(p, cuts[i].from, cuts[i].to)
  {
    seq(|cuts|, i requires 0 <= i < |cuts| => CutV4(p, cuts[i].from, cuts[i].to))
  }

  lemma CutsAreWritten(l: Limits, p: Octets, cuts: seq<Cut>)
    requires l.family.Ip4? && Cuttable(p) && |p| <= l.maximumPacket && IsCutting(p, cuts)
    ensures Writes(l, CutsOf(p, cuts), FragmentsOf(p, cuts))
  {
    forall i | 0 <= i < |cuts| ensures ParseFor(l, CutsOf(p, cuts)[i]) == IsFragment(FragmentsOf(p, cuts)[i]) {
      assert CutPoints(p, cuts[i].from, cuts[i].to);
      CutParses(p, cuts[i].from, cuts[i].to, l.maximumPacket);
    }
  }

  /**
   * Fragmentation is invisible: cut an IPv4 packet anywhere the standard allows, let the octets of its fragments arrive
   * in any order among any other octets, and the last one to arrive gives back the very same packet. The one exception
   * is a packet whose header checksum was sent as 65535: it comes back with the equivalent 0.
   */
  lemma CutOctetsReturn(l: Limits, p: Octets, cuts: seq<Cut>, t: Table, arrivals: seq<Arrival>, n: nat)
    requires l.family.Ip4? && Cuttable(p) && |p| <= l.maximumPacket && IsCutting(p, cuts)
    requires ArrivesInTime(l, t, arrivals, KeyV4(p)) && OwnOctets(l, arrivals, KeyV4(p)) == CutsOf(p, cuts)
    requires n < |arrivals| && Belongs(l, arrivals[n].octets, KeyV4(p))
    ensures var answer := AnswerTo(l, t, arrivals, n);
            if |OwnOctets(l, arrivals[..n + 1], KeyV4(p))| < |cuts| then answer == Some(Waiting)
            else answer.Some? && answer.value.Whole? && (answer == Some(Whole(p)) <==> Canonical(p))
  {
    var o := CuttingIsCut(l, p, cuts);
    CutsAreWritten(l, p, cuts);
    OctetsReassemble(l, o, FragmentsOf(p, cuts), t, arrivals, n);
    OwnPrefix(l, arrivals, KeyV4(p), n + 1);
  }

  // ---------- IPv6 ----------

  function CutsOfV6(p: Octets, u: nat, link: nat, maximum: nat, id: IpPacket.uint32, cuts: seq<Cut>): seq<Octets>
    requires 40 <= u <= |p| && link < u
    requires forall i :: 0 <= i < |cuts| ==> CutPointsV6(p, u, maximum, cuts[i].from, cuts[i].to)
  {
    seq(|cuts|, i requires 0 <= i < |cuts| && CutPointsV6(p, u, maximum, cuts[i].from, cuts[i].to) =>
        CutV6(p, u, link, id, cuts[i].from, cuts[i].to))
  }

  lemma CutsAreWrittenV6(l: Limits, p: Octets, u: nat, link: nat, id: IpPacket.uint32, cuts: seq<Cut>)
    requires l.family.Ip6? && CuttableV6(p, u, link) && link < u && |p| <= l.maximumPacket
    requires IsCuttingV6(p, u, link, l.maximumPacket, id, cuts)
    ensures Writes(l, CutsOfV6(p, u, link, l.maximumPacket, id, cuts),
                   FragmentsOfV6(p, u, link, l.maximumPacket, id, cuts))
  {
    var octets := CutsOfV6(p, u, link, l.maximumPacket, id, cuts);
    var fs := FragmentsOfV6(p, u, link, l.maximumPacket, id, cuts);
    forall i | 0 <= i < |cuts| ensures ParseFor(l, octets[i]) == IsFragment(fs[i]) {
      assert CutPointsV6(p, u, l.maximumPacket, cuts[i].from, cuts[i].to);
      CutParsesV6(p, u, link, id, cuts[i].from, cuts[i].to, l.maximumPacket);
    }
  }

  /** So it is for IPv6, behind any extension headers the adapter accepts. */
  lemma CutOctetsReturnV6(l: Limits, p: Octets, u: nat, link: nat, id: IpPacket.uint32, cuts: seq<Cut>,
                          t: Table, arrivals: seq<Arrival>, n: nat)
    requires l.family.Ip6? && CuttableV6(p, u, link) && link < u && |p| <= l.maximumPacket
    requires IsCuttingV6(p, u, link, l.maximumPacket, id, cuts)
    requires ArrivesInTime(l, t, arrivals, KeyV6(p, id))
    requires OwnOctets(l, arrivals, KeyV6(p, id)) == CutsOfV6(p, u, link, l.maximumPacket, id, cuts)
    requires n < |arrivals| && Belongs(l, arrivals[n].octets, KeyV6(p, id))
    ensures AnswerTo(l, t, arrivals, n)
            == Some(if |OwnOctets(l, arrivals[..n + 1], KeyV6(p, id))| == |cuts| then Whole(p) else Waiting)
  {
    CuttingIsCutV6(l, p, u, link, id, cuts);
    CutsAreWrittenV6(l, p, u, link, id, cuts);
    OctetsReassemble(l, OriginalV6(p, u, link, id), FragmentsOfV6(p, u, link, l.maximumPacket, id, cuts), t, arrivals,
                     n);
  }
}
