/** The packet receiver: replay windows per number space, prepare and commit, and forgotten phases. */
module Receiver {
  import opened Bytes
  import P = Protectors
  import RW = ReplayWindow
  import KU = KeyUpdate

  type Space = P.Space

  /** A packet number in its space. */
  datatype Key = Key(space: Space, number: uint64)

  /** The accepted numbers of a space since its window was made, and the highest of them. */
  datatype Accepted = Accepted(highest: nat, numbers: set<nat>)

  type Windows = map<Space, Accepted>

  predicate Fresh(w: Windows, size: nat, k: Key) {
    k.space !in w || RW.Fresh(w[k.space].numbers, w[k.space].highest, size, k.number)
  }

  function Marked(w: Windows, k: Key): Windows {
    if k.space !in w then w[k.space := Accepted(k.number, {k.number})]
    else
      var a := w[k.space];
      w[k.space := Accepted(if k.number > a.highest then k.number else a.highest, a.numbers + {k.number})]
  }

  // ---------- prepares and commits in any interleaving ----------

  /** `prepared` are the authenticated packets that wait for their commit, `delivered` the committed ones. */
  datatype State = State(size: nat, windows: Windows, destroyed: bool, prepared: multiset<Key>, delivered: seq<Key>)

  datatype Event = Prepare(key: Key) | Commit(key: Key) | Forget(space: Space) | Destroy

  predicate Enabled(s: State, e: Event) {
    e.Commit? ==> e.key in s.prepared
  }

  /** A prepared open is consumed by a successful commit only. */
  function Execute(s: State, e: Event): State {
    match e
    case Prepare(k) =>
      if s.destroyed || !Fresh(s.windows, s.size, k) then s else s.(prepared := s.prepared + multiset{k})
    case Commit(k) =>
      if s.destroyed || !Fresh(s.windows, s.size, k) then s
      else s.(windows := Marked(s.windows, k), prepared := s.prepared - multiset{k}, delivered := s.delivered + [k])
    case Forget(space) => s.(windows := s.windows - {space})
    case Destroy => s.(windows := map[], destroyed := true)
  }

  predicate ValidRun(s: State, events: seq<Event>)
    decreases |events|
  {
    events == [] || (Enabled(s, events[0]) && ValidRun(Execute(s, events[0]), events[1..]))
  }

  function StateAfter(s: State, events: seq<Event>): State
    decreases |events|
  {
    if events == [] then s else StateAfter(Execute(s, events[0]), events[1..])
  }

  ghost predicate WindowsOk(w: Windows) {
    forall x :: x in w ==> w[x].highest in w[x].numbers && forall n :: n in w[x].numbers ==> n <= w[x].highest
  }

  /** Accepted and not forgotten since: committing it again is refused. */
  ghost predicate Remembered(s: State, k: Key) {
    s.destroyed || (k.space in s.windows && k.number in s.windows[k.space].numbers)
  }

  lemma {:induction false} RememberedLasts(s: State, events: seq<Event>, k: Key)
    requires WindowsOk(s.windows) && Remembered(s, k) && ValidRun(s, events)
    requires forall i :: 0 <= i < |events| ==> events[i] != Forget(k.space)
    ensures Remembered(StateAfter(s, events), k) && WindowsOk(StateAfter(s, events).windows)
    decreases |events|
  {
    if events != [] {
      RememberedLasts(Execute(s, events[0]), events[1..], k);
    }
  }

  /**
   * Between two forgets of a space, whatever the interleaving of prepares and commits, a packet
   * number is delivered at most once.
   */
  lemma CommitsOnceBetweenForgets(s: State, k: Key, events: seq<Event>)
    requires WindowsOk(s.windows) && !s.destroyed && Fresh(s.windows, s.size, k) && k in s.prepared
    requires ValidRun(Execute(s, Commit(k)), events)
    requires forall i :: 0 <= i < |events| ==> events[i] != Forget(k.space)
    ensures var t := StateAfter(Execute(s, Commit(k)), events);
            Enabled(t, Commit(k)) ==> Execute(t, Commit(k)) == t
  {
    RememberedLasts(Execute(s, Commit(k)), events, k);
  }

  /** The commit would deliver the packet. */
  predicate Delivers(s: State, e: Event) {
    e.Commit? && !s.destroyed && Fresh(s.windows, s.size, e.key)
  }

  /** Once `j` is accepted its window refuses `k`: it is `k` itself, or `k` lies more than a window below it. */
  predicate Bars(j: Key, k: Key, size: nat) {
    j.space == k.space && (j.number == k.number || j.number > k.number + size)
  }

  predicate Unforgotten(events: seq<Event>, space: Space) {
    forall i :: 0 <= i < |events| ==> events[i] != Forget(space)
  }

  /**
   * Some event blocks `k`: a destroy, or the delivery of a packet that bars it with no forget of its space
   * afterwards.
   */
  predicate Blocked(s: State, events: seq<Event>, k: Key)
    decreases |events|
  {
    events != [] &&
      var e, rest := events[0], events[1..];
      || e.Destroy?
      || (Delivers(s, e) && Bars(e.key, k, s.size) && Unforgotten(rest, k.space))
      || Blocked(Execute(s, e), rest, k)
  }

  /** The receiver refuses `k` as it stands. */
  predicate Refuses(s: State, k: Key) {
    s.destroyed || !Fresh(s.windows, s.size, k)
  }

  lemma MarkedRefusesIff(w: Windows, size: nat, j: Key, k: Key)
    requires WindowsOk(w) && Fresh(w, size, j)
    ensures !Fresh(Marked(w, j), size, k) <==> !Fresh(w, size, k) || Bars(j, k, size)
  {
  }

  lemma StepRefusesIff(s: State, e: Event, k: Key)
    requires WindowsOk(s.windows)
    ensures Refuses(Execute(s, e), k) <==>
            || s.destroyed || e.Destroy?
            || (!Fresh(s.windows, s.size, k) && e != Forget(k.space))
            || (Delivers(s, e) && Bars(e.key, k, s.size))
    ensures WindowsOk(Execute(s, e).windows) && Execute(s, e).size == s.size
  {
    if Delivers(s, e) {
      MarkedRefusesIff(s.windows, s.size, e.key, k);
    }
  }

  /**
   * The exact condition. After any run of prepares, commits, forgets and destroys, `k` is refused if and only if the
   * run blocks it, or it was refused at the start for a reason that the run has not lifted: a destroy, or a window that
   * has not been forgotten.
   */
  lemma {:induction false} RefusedIff(s: State, events: seq<Event>, k: Key)
    requires WindowsOk(s.windows) && ValidRun(s, events)
    ensures Refuses(StateAfter(s, events), k) <==>
            s.destroyed || (!Fresh(s.windows, s.size, k) && Unforgotten(events, k.space)) || Blocked(s, events, k)
    decreases |events|
  {
    if events != [] {
      var e, rest := events[0], events[1..];
      StepRefusesIff(s, e, k);
      RefusedIff(Execute(s, e), rest, k);
      assert Unforgotten(events, k.space) <==> e != Forget(k.space) && Unforgotten(rest, k.space) by {
        assert events == [e] + rest;
      }
    }
  }

  /** A prepared packet is delivered by its next commit exactly when it is not refused. */
  lemma CommitDeliversIff(s: State, events: seq<Event>, k: Key)
    requires WindowsOk(s.windows) && ValidRun(s, events) && Enabled(StateAfter(s, events), Commit(k))
    ensures var t := StateAfter(s, events);
            Execute(t, Commit(k)).delivered == t.delivered + [k] <==>
            !s.destroyed && (Fresh(s.windows, s.size, k) || !Unforgotten(events, k.space)) && !Blocked(s, events, k)
  {
    RefusedIff(s, events, k);
    var t := StateAfter(s, events);
    assert |t.delivered + [k]| == |t.delivered| + 1;
  }

  /**
   * After the delivery of a packet, whatever follows, a second commit of it delivers it again if and only if its space
   * has been forgotten and nothing blocks it since: no destroy, and no delivery that bars it without another forget.
   */
  lemma DeliveredAgainIff(s: State, k: Key, events: seq<Event>)
    requires WindowsOk(s.windows) && Delivers(s, Commit(k)) && ValidRun(Execute(s, Commit(k)), events)
    requires Enabled(StateAfter(Execute(s, Commit(k)), events), Commit(k))
    ensures var s1 := Execute(s, Commit(k));
            var t := StateAfter(s1, events);
            Execute(t, Commit(k)).delivered == t.delivered + [k] <==>
            !Unforgotten(events, k.space) && !Blocked(s1, events, k)
  {
    StepRefusesIff(s, Commit(k), k);
    CommitDeliversIff(Execute(s, Commit(k)), events, k);
  }

  /** The condition is needed: a forget between two commits of twice-prepared packets delivers twice. */
  lemma ForgetBetweenCommitsDeliversTwice(k: Key, size: nat)
    ensures var s := State(size, map[], false, multiset{}, []);
            var events := [Prepare(k), Prepare(k), Commit(k), Forget(k.space), Commit(k)];
            ValidRun(s, events) && StateAfter(s, events).delivered == [k, k]
  {
    var s := State(size, map[], false, multiset{}, []);
    var s1 := Execute(s, Prepare(k));
    var s2 := Execute(s1, Prepare(k));
    var s3 := Execute(s2, Commit(k));
    var s4 := Execute(s3, Forget(k.space));
    var s5 := Execute(s4, Commit(k));
    assert s4.windows == map[];
    assert k in s2.prepared && k in s4.prepared;
    var e0: seq<Event> := [];
    var e1 := [Commit(k)];
    var e2 := [Forget(k.space), Commit(k)];
    var e3 := [Commit(k), Forget(k.space), Commit(k)];
    var e4 := [Prepare(k), Commit(k), Forget(k.space), Commit(k)];
    var e5 := [Prepare(k), Prepare(k), Commit(k), Forget(k.space), Commit(k)];
    assert e1[1..] == e0 && e2[1..] == e1 && e3[1..] == e2 && e4[1..] == e3 && e5[1..] == e4;
    assert ValidRun(s5, e0) && StateAfter(s5, e0) == s5;
    assert ValidRun(s4, e1) && StateAfter(s4, e1) == s5;
    assert ValidRun(s3, e2) && StateAfter(s3, e2) == s5;
    assert ValidRun(s2, e3) && StateAfter(s2, e3) == s5;
    assert ValidRun(s1, e4) && StateAfter(s1, e4) == s5;
  }

  // ---------- sequential runs with key updates ----------

  /** A receiver, the direction state it opens under, and everything delivered so far. */
  datatype Link = Link(size: nat, windows: Windows, dir: KU.Direction, delivered: seq<Key>)

  datatype LinkEvent =
    | OpenPacket(key: Key, authentic: bool, now: int)
    | ReceiveUpdate(update: KU.Update, ackNonce: Octets, now: int, forgetSuperseded: bool)
    | ExpireDrain(now: int)

  function SpaceOf(d: KU.Direction, phase: byte): Space {
    P.Space.Space(d.route, d.hop, d.direction, phase)
  }

  /** Expiring the drain also forgets the window of the phase that drained. */
  function ExpireAndForget(l: Link, now: int): Link {
    var d := KU.Expire(l.dir, now);
    if l.dir.drainUntil.Some? && d.drainUntil.None? then
      l.(dir := d, windows := l.windows - {SpaceOf(l.dir, l.dir.previousPhase)})
    else l.(dir := d)
  }

  /** One packet from authentication to delivery. */
  function Open(l: Link, k: Key, authentic: bool, now: int): Link {
    var m := KU.MaterialFor(l.dir, k.space.route, k.space.hop, k.space.direction, k.space.phase, now);
    if m.None? || !Fresh(l.windows, l.size, k) || !authentic then l
    else ExpireAndForget(l.(windows := Marked(l.windows, k), delivered := l.delivered + [k]), now)
  }

  /** A received update; the session forgets the window of a phase that the update supersedes. */
  function Update(x: KU.Schedule, l: Link, u: KU.Update, ackNonce: Octets, now: int, forgetSuperseded: bool): Link {
    var r := KU.Receive(x, l.dir, u, ackNonce, now);
    if forgetSuperseded && l.dir.drainUntil.Some? && r.state.phase != l.dir.phase then
      l.(dir := r.state, windows := l.windows - {SpaceOf(l.dir, l.dir.previousPhase)})
    else l.(dir := r.state)
  }

  function LinkStep(x: KU.Schedule, l: Link, e: LinkEvent): Link {
    match e
    case OpenPacket(k, authentic, now) => Open(l, k, authentic, now)
    case ReceiveUpdate(u, ackNonce, now, forgetSuperseded) => Update(x, l, u, ackNonce, now, forgetSuperseded)
    case ExpireDrain(now) => ExpireAndForget(l, now)
  }

  function LinkRun(x: KU.Schedule, l: Link, events: seq<LinkEvent>): Link
    decreases |events|
  {
    if events == [] then l else LinkRun(x, LinkStep(x, l, events[0]), events[1..])
  }

  /** A phase whose packets can still be opened. */
  predicate Active(d: KU.Direction, phase: byte) {
    phase == d.phase || (d.drainUntil.Some? && phase == d.previousPhase)
  }

  predicate OnLink(d: KU.Direction, k: Key) {
    k.space.route == d.route && k.space.hop == d.hop && k.space.direction == d.direction
  }

  ghost predicate DirectionOk(d: KU.Direction) {
    KU.DrainInv(d) && (d.drainUntil.Some? ==> d.previousPhase < d.phase)
  }

  ghost predicate NoDuplicates(s: seq<Key>) {
    forall i, j :: 0 <= i < j < |s| ==> s[i] != s[j]
  }

  /** Whatever was delivered is remembered by its window or belongs to a phase that is gone for good. */
  ghost predicate LinkInv(l: Link) {
    && WindowsOk(l.windows) && DirectionOk(l.dir) && NoDuplicates(l.delivered)
    && forall i :: 0 <= i < |l.delivered| ==>
         var k := l.delivered[i];
         && OnLink(l.dir, k) && k.space.phase <= l.dir.phase
         && (Active(l.dir, k.space.phase) ==> k.space in l.windows && k.number in l.windows[k.space].numbers)
  }

  lemma ExpireKeepsInv(l: Link, now: int)
    requires LinkInv(l)
    ensures LinkInv(ExpireAndForget(l, now))
  {
  }

  lemma OpenKeepsInv(l: Link, k: Key, authentic: bool, now: int)
    requires LinkInv(l)
    ensures LinkInv(Open(l, k, authentic, now))
  {
    var m := KU.MaterialFor(l.dir, k.space.route, k.space.hop, k.space.direction, k.space.phase, now);
    if m.Some? && Fresh(l.windows, l.size, k) && authentic {
      var t := l.(windows := Marked(l.windows, k), delivered := l.delivered + [k]);
      assert Active(l.dir, k.space.phase);
      assert k !in l.delivered;
      assert LinkInv(t);
      ExpireKeepsInv(t, now);
    }
  }

  lemma UpdateKeepsInv(x: KU.Schedule, l: Link, u: KU.Update, ackNonce: Octets, now: int, forgetSuperseded: bool)
    requires LinkInv(l)
    ensures LinkInv(Update(x, l, u, ackNonce, now, forgetSuperseded))
  {
  }

  lemma {:induction false} RunKeepsLinkInv(x: KU.Schedule, l: Link, events: seq<LinkEvent>)
    requires LinkInv(l)
    ensures LinkInv(LinkRun(x, l, events))
    decreases |events|
  {
    if events != [] {
      match events[0]
      case OpenPacket(k, authentic, now) => OpenKeepsInv(l, k, authentic, now);
      case ReceiveUpdate(u, ackNonce, now, f) => UpdateKeepsInv(x, l, u, ackNonce, now, f);
      case ExpireDrain(now) => ExpireKeepsInv(l, now);
    }
    if events != [] {
      RunKeepsLinkInv(x, LinkStep(x, l, events[0]), events[1..]);
    }
  }

  /**
   * In every sequential run of opens, received updates and drain expiries, with any clock, no packet
   * number of a space is delivered twice, although the windows of drained phases are forgotten.
   */
  lemma NeverDeliveredTwice(x: KU.Schedule, size: nat, d: KU.Direction, events: seq<LinkEvent>)
    requires d.drainUntil.None? && KU.DrainInv(d)
    ensures NoDuplicates(LinkRun(x, Link(size, map[], d, []), events).delivered)
  {
    RunKeepsLinkInv(x, Link(size, map[], d, []), events);
  }

  // ---------- the object ----------

  /** The window is sound and stands for `a`. */
  ghost predicate Tracks(w: RW.Window, size: nat, a: Accepted)
    reads w, w.bits
  {
    w.size == size && w.Valid() && a == Accepted(w.highest, w.accepted)
  }

  class PacketReceiver {
    const size: nat
    var windows: map<Space, RW.Window>
    var destroyed: bool

    /** The windows made so far and their bitmaps. */
    ghost var repr: set<object>

    /** What each window has accepted; `Valid` ties it to the windows. */
    ghost var view: Windows

    ghost predicate Valid()
      reads this, repr
    {
      && this !in repr && view.Keys == windows.Keys
      && (forall x :: x in windows ==>
            windows[x] in repr && windows[x].bits in repr && Tracks(windows[x], size, view[x]))
      && (forall x, y :: x in windows && y in windows && x != y ==>
            windows[x] != windows[y] && windows[x].bits != windows[y].bits)
      && (destroyed ==> windows == map[])
    }

    /** A zero size means the default; larger sizes than the maximum are clamped to it. */
    constructor (configured: nat)
      ensures Valid() && view == map[] && !destroyed && fresh(repr)
      ensures size == if configured == 0 then 1024 else Min(configured, 1048576)
    {
      size := if configured == 0 then 1024 else if configured > 1048576 then 1048576 else configured;
      windows, destroyed, repr, view := map[], false, {}, map[];
    }

    method CheckPacketNumber(k: Key) returns (ok: bool)
      requires Valid()
      ensures ok <==> !destroyed && Fresh(view, size, k)
    {
      if destroyed {
        return false;
      }
      if k.space !in windows {
        return true;
      }
      assert Tracks(windows[k.space], size, view[k.space]);
      var v := windows[k.space].Check(k.number);
      return v == RW.Ok;
    }

    /** The commit of an authenticated packet: checked again, then marked. */
    method CommitPreparedOpen(k: Key) returns (ok: bool)
      requires Valid()
      modifies this, repr
      ensures Valid() && destroyed == old(destroyed) && fresh(repr - old(repr))
      ensures ok <==> !old(destroyed) && Fresh(old(view), size, k)
      ensures view == if ok then Marked(old(view), k) else old(view)
    {
      ok := CheckPacketNumber(k);
      if !ok {
        return;
      }
      if k.space !in windows {
        MarkFirst(k);
      } else {
        MarkNext(k);
      }
    }

    method MarkFirst(k: Key)
      requires Valid() && !destroyed && k.space !in windows
      modifies this`windows, this`repr, this`view
      ensures Valid() && view == Marked(old(view), k) && fresh(repr - old(repr))
    {
      var w := new RW.Window(size, k.number);
      Install(k, w);
    }

    method Install(k: Key, w: RW.Window)
      requires Valid() && !destroyed && k.space !in windows && this != w as object && this != w.bits as object
      requires w.Valid() && w.size == size && w !in repr && w.bits !in repr
      modifies this`windows, this`repr, this`view
      ensures Valid() && view == old(view)[k.space := Accepted(w.highest, w.accepted)]
              && repr == old(repr) + {w, w.bits}
    {
      windows := windows[k.space := w];
      view := view[k.space := Accepted(w.highest, w.accepted)];
      repr := repr + {w, w.bits};
      assert Tracks(w, size, view[k.space]);
    }

    method MarkNext(k: Key)
      requires Valid() && !destroyed && k.space in windows && Fresh(view, size, k)
      modifies repr, this`view
      ensures Valid() && view == Marked(old(view), k)
    {
      var w := windows[k.space];
      assert Tracks(w, size, view[k.space]);
      w.Mark(k.number);
      view := view[k.space := Accepted(w.highest, w.accepted)];
      assert Tracks(w, size, view[k.space]);
      forall x | x in windows && x != k.space ensures Tracks(windows[x], size, view[x]) {
        assert windows[x] != w && windows[x].bits != w.bits && old(Tracks(windows[x], size, view[x]));
      }
    }

    method ForgetPacketNumberSpace(space: Space)
      requires Valid()
      modifies this`windows, this`view
      ensures Valid() && view == old(view) - {space}
    {
      windows, view := windows - {space}, view - {space};
    }

    method DestroyReceiver()
      requires Valid()
      modifies this
      ensures Valid() && destroyed && view == map[]
    {
      destroyed, windows, view := true, map[], map[];
    }
  }
}
