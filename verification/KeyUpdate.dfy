/** Key phases of one traffic direction: preparing, committing, receiving and acknowledging updates. */
module KeyUpdate {
  import opened Bytes
  import opened Wire

  /** The bounded drain, in nanoseconds. */
  const MAX_DRAIN: int := 10_000_000_000

  datatype Material = Material(secret: Octets, key: Octets, iv: Octets)
  const NO_MATERIAL := Material([], [], [])

  datatype Update = Update(
    route: uint64, hop: byte, direction: byte, oldPhase: byte, newPhase: byte,
    nonce: Octets, ackRequired: bool, reason: uint64)

  datatype Ack = Ack(route: uint64, hop: byte, direction: byte, phase: byte, nonce: Octets)

  datatype Result = Result(next: Material, ack: Option<Ack>)
  const NO_RESULT := Result(NO_MATERIAL, None)

  // ---------- derivation ----------

  predicate ValidUpdate(u: Update) {
    u.direction <= 1 && u.newPhase == u.oldPhase + 1
  }

  function Context(u: Update): Option<Octets> {
    if u.route > MAX_VARINT || |u.nonce| > 0xffff then None
    else Some(Ascii("aurora v2.0 key update") + Varint(u.route) + [u.hop, u.direction, u.oldPhase, u.newPhase]
              + Opaque16(u.nonce))
  }

  /** The key schedule of the negotiated suite, as a parameter. */
  type Schedule = (Octets, Octets) -> Option<Material>

  function Derive(x: Schedule, secret: Octets, u: Update): Option<Material> {
    if !ValidUpdate(u) || Context(u).None? then None else x(secret, Context(u).value)
  }

  /** The frame as it is remembered to recognise a redelivery. */
  function EncodeUpdate(u: Update): Option<Octets> {
    if u.route > MAX_VARINT || |u.nonce| > 0xffff || u.reason > MAX_VARINT then None
    else
      Some(Varint(u.route) + ([u.hop, u.direction, u.oldPhase, u.newPhase]
                              + (Opaque16(u.nonce) + ([if u.ackRequired then 1 else 0] + (Varint(u.reason) + [])))))
  }

  /** Different frames have different encodings. */
  lemma EncodeUpdateInjective(a: Update, b: Update)
    requires EncodeUpdate(a).Some? && EncodeUpdate(a) == EncodeUpdate(b)
    ensures a == b
  {
    var fa, fb := [a.hop, a.direction, a.oldPhase, a.newPhase], [b.hop, b.direction, b.oldPhase, b.newPhase];
    var ka: Octets, kb: Octets := [if a.ackRequired then 1 else 0], [if b.ackRequired then 1 else 0];
    var ra, rb := Varint(a.reason) + [], Varint(b.reason) + [];
    VarintPrefixFree(a.route, fa + (Opaque16(a.nonce) + (ka + ra)), b.route, fb + (Opaque16(b.nonce) + (kb + rb)));
    FixedPrefix(fa, Opaque16(a.nonce) + (ka + ra), fb, Opaque16(b.nonce) + (kb + rb));
    assert fa[0] == fb[0] && fa[1] == fb[1] && fa[2] == fb[2] && fa[3] == fb[3];
    Opaque16PrefixFree(a.nonce, ka + ra, b.nonce, kb + rb);
    FixedPrefix(ka, ra, kb, rb);
    assert ka[0] == kb[0];
    VarintPrefixFree(a.reason, [], b.reason, []);
  }

  // ---------- one direction ----------

  datatype Direction = Direction(
    route: uint64, hop: byte, direction: byte, phase: byte, material: Material, drainUntil: Option<int>,
    previousPhase: byte, previous: Material, pending: Option<Update>, lastUpdate: Octets, lastResult: Result)

  function ClearDrain(s: Direction): Direction {
    s.(drainUntil := None, previousPhase := 0, previous := NO_MATERIAL, pending := None, lastUpdate := [],
       lastResult := NO_RESULT)
  }

  predicate Draining(s: Direction, now: int) {
    s.drainUntil.Some? && now <= s.drainUntil.value
  }

  function Expire(s: Direction, now: int): Direction {
    if s.drainUntil.Some? && now > s.drainUntil.value then ClearDrain(s) else s
  }

  /** Moves to the next phase and keeps the old material for the drain. */
  function Rekey(s: Direction, newPhase: byte, next: Material, now: int): Direction {
    ClearDrain(s).(phase := newPhase, material := next, previousPhase := s.phase, previous := s.material,
                   drainUntil := Some(now + MAX_DRAIN))
  }

  datatype Prepared = Prepared(frame: Update, next: Material, sourcePhase: byte, source: Material)

  function Prepare(x: Schedule, s: Direction, nonce: Octets, ackRequired: bool, reason: uint64,
                   now: int): Option<Prepared> {
    if Draining(s, now) || s.phase == 255 then None
    else
      var frame := Update(s.route, s.hop, s.direction, s.phase, s.phase + 1, nonce, ackRequired, reason);
      var next := Derive(x, s.material.secret, frame);
      if next.None? then None else Some(Prepared(frame, next.value, s.phase, s.material))
  }

  predicate CanCommit(s: Direction, p: Prepared) {
    && ValidUpdate(p.frame)
    && p.frame.route == s.route && p.frame.hop == s.hop && p.frame.direction == s.direction
    && p.frame.oldPhase == p.sourcePhase && s.phase == p.sourcePhase && s.material == p.source
  }

  function Commit(s: Direction, p: Prepared, now: int): Direction {
    if !CanCommit(s, p) then s
    else Rekey(s, p.frame.newPhase, p.next, now).(pending := if p.frame.ackRequired then Some(p.frame) else None)
  }

  /** Which material opens a packet of the given header, if any. */
  function MaterialFor(s: Direction, route: uint64, hop: byte, direction: byte, phase: byte,
                       now: int): Option<Material> {
    if route != s.route || hop != s.hop || direction != s.direction then None
    else if phase == s.phase then Some(s.material)
    else if phase == s.previousPhase && Draining(s, now) then Some(s.previous)
    else None
  }

  datatype Received = Received(state: Direction, result: Option<Result>)

  predicate IsDuplicate(s: Direction, u: Update, encoded: Octets, now: int) {
    s.lastUpdate != [] && Draining(s, now) && u.newPhase == s.phase && s.lastUpdate == encoded
  }

  function AckFor(u: Update, nonce: Octets): Option<Ack> {
    if u.ackRequired then Some(Ack(u.route, u.hop, u.direction, u.newPhase, nonce)) else None
  }

  function Receive(x: Schedule, s: Direction, u: Update, ackNonce: Octets, now: int): Received {
    if u.route != s.route || u.hop != s.hop || u.direction != s.direction
      || EncodeUpdate(u).None? then Received(s, None)
    else
      var encoded := EncodeUpdate(u).value;
      if u.oldPhase != s.phase then
        Received(s, if IsDuplicate(s, u, encoded, now) then Some(s.lastResult) else None)
      else
        var next := Derive(x, s.material.secret, u);
        if next.None? || (u.ackRequired && |ackNonce| > 0xffff) then Received(s, None)
        else
          var r := Result(next.value, AckFor(u, ackNonce));
          Received(Rekey(s, u.newPhase, next.value, now).(lastUpdate := encoded, lastResult := r), Some(r))
  }

  /** Whether an acknowledgement names an update that is complete and no longer waited for. */
  predicate AcknowledgesCompleted(s: Direction, a: Ack) {
    && s.pending.None? && s.phase != 0
    && a.route == s.route && a.hop == s.hop && a.direction == s.direction && a.phase == s.phase && |a.nonce| <= 0xffff
  }

  datatype Acked = Acked(state: Direction, ok: bool)

  function ApplyAck(s: Direction, a: Ack, now: int): Acked {
    var t := Expire(s, now);
    if t.pending.None? || |a.nonce| > 0xffff || a.route != t.route || a.hop != t.hop || a.direction != t.direction
      || a.phase != t.phase
    then Acked(t, false)
    else Acked(ClearDrain(t), true)
  }

  // ---------- what every operation keeps ----------

  /** Previous material, a pending update and a remembered update exist only while a drain deadline is set. */
  predicate DrainInv(s: Direction) {
    s.drainUntil.None? ==> ClearDrain(s) == s
  }

  datatype Event =
    | DoPrepareAndCommit(nonce: Octets, ackRequired: bool, reason: uint64, prepareAt: int, commitAt: int)
    | DoCommit(prepared: Prepared, now: int)
    | DoReceive(update: Update, ackNonce: Octets, now: int)
    | DoAck(ack: Ack, now: int)
    | DoExpire(now: int)

  function Step(x: Schedule, s: Direction, e: Event): Direction {
    match e
    case DoPrepareAndCommit(nonce, ackRequired, reason, prepareAt, commitAt) =>
      var p := Prepare(x, s, nonce, ackRequired, reason, prepareAt);
      if p.None? then s else Commit(s, p.value, commitAt)
    case DoCommit(p, now) => Commit(s, p, now)
    case DoReceive(u, ackNonce, now) => Receive(x, s, u, ackNonce, now).state
    case DoAck(a, now) => ApplyAck(s, a, now).state
    case DoExpire(now) => Expire(s, now)
  }

  function Steps(x: Schedule, s: Direction, events: seq<Event>): Direction
    decreases |events|
  {
    if events == [] then s else Steps(x, Step(x, s, events[0]), events[1..])
  }

  /** In every reachable state; also, the phase never decreases. */
  lemma {:induction false} DrainInvHolds(x: Schedule, s: Direction, events: seq<Event>)
    requires DrainInv(s)
    ensures DrainInv(Steps(x, s, events))
    ensures Steps(x, s, events).phase >= s.phase
    decreases |events|
  {
    if events != [] {
      DrainInvHolds(x, Step(x, s, events[0]), events[1..]);
    }
  }

  /** The update was the next one and has been applied. */
  predicate Applies(x: Schedule, s: Direction, u: Update, ackNonce: Octets, now: int) {
    u.oldPhase == s.phase && Receive(x, s, u, ackNonce, now).result.Some?
  }

  /** `t` still stands where `r` did, or has moved to a later phase, or has ended its drain. */
  predicate Beyond(r: Direction, t: Direction) {
    t == r || t.phase > r.phase || (t.phase == r.phase && t.drainUntil.None? && t.lastUpdate == [])
  }

  lemma StepGoesBeyond(x: Schedule, r: Direction, t: Direction, e: Event)
    requires Beyond(r, t)
    ensures Beyond(r, Step(x, t, e))
  {
  }

  lemma {:induction false} StepsGoBeyond(x: Schedule, r: Direction, t: Direction, events: seq<Event>)
    requires Beyond(r, t)
    ensures Beyond(r, Steps(x, t, events))
    decreases |events|
  {
    if events != [] {
      StepGoesBeyond(x, r, t, events[0]);
      StepsGoBeyond(x, r, Step(x, t, events[0]), events[1..]);
    }
  }

  /**
   * Redelivering an update that was applied, with any fresh nonce and whatever has happened in between, changes
   * nothing. It returns the first result, its acknowledgement nonce included, if and only if no later update has been
   * applied and the drain is still on.
   */
  lemma RedeliveryIsIdempotent(x: Schedule, s: Direction, u: Update, first: Octets, at: int, between: seq<Event>,
                               second: Octets, later: int)
    requires Applies(x, s, u, first, at)
    ensures var t := Steps(x, Receive(x, s, u, first, at).state, between);
            Receive(x, t, u, second, later)
            == Received(t, if t.phase == u.newPhase && Draining(t, later) then Receive(x, s, u, first, at).result
                        else None)
  {
    assert ValidUpdate(u);
    assert EncodeUpdate(u).value != [];
    var r := Receive(x, s, u, first, at).state;
    StepsGoBeyond(x, r, r, between);
  }

  /**
   * As long as no later update has been applied, only the very same frame is taken for a redelivery, and only within
   * the drain.
   */
  lemma OnlyTheSameFrameIsRedelivered(x: Schedule, s: Direction, u: Update, first: Octets, at: int, between: seq<Event>,
                                      v: Update, second: Octets, later: int)
    requires Applies(x, s, u, first, at)
    requires var t := Steps(x, Receive(x, s, u, first, at).state, between);
             t.phase == u.newPhase && v.oldPhase != t.phase && Receive(x, t, v, second, later).result.Some?
    ensures v == u && later <= at + MAX_DRAIN
    ensures Receive(x, Steps(x, Receive(x, s, u, first, at).state, between), v, second, later).result
            == Receive(x, s, u, first, at).result
  {
    var r := Receive(x, s, u, first, at).state;
    StepsGoBeyond(x, r, r, between);
    EncodeUpdateInjective(u, v);
  }

  /** Of all updates prepared at one phase at most one commits, whatever happens in between. */
  lemma AtMostOneCommits(x: Schedule, s: Direction, p: Prepared, now: int, between: seq<Event>, q: Prepared)
    requires CanCommit(s, p) && q.sourcePhase == p.sourcePhase
    ensures !CanCommit(Steps(x, Commit(s, p, now), between), q)
  {
    DrainInvHolds(x, Commit(s, p, now), between);
  }

  // ---------- the object ----------

  class DirectionState {
    const route: uint64
    const hop: byte
    const direction: byte
    var phase: byte
    var material: Material
    var drainUntil: Option<int>
    var previousPhase: byte
    var previous: Material
    var pending: Option<Update>
    var lastUpdate: Octets
    var lastResult: Result

    ghost function View(): Direction
      reads this
    {
      Direction(route, hop, direction, phase, material, drainUntil, previousPhase, previous, pending, lastUpdate,
                lastResult)
    }

    constructor (s: Direction)
      ensures View() == s
    {
      route, hop, direction, phase, material := s.route, s.hop, s.direction, s.phase, s.material;
      drainUntil, previousPhase, previous := s.drainUntil, s.previousPhase, s.previous;
      pending, lastUpdate, lastResult := s.pending, s.lastUpdate, s.lastResult;
    }

    method ClearDrainState()
      modifies this
      ensures View() == ClearDrain(old(View()))
    {
      previousPhase, previous, drainUntil := 0, NO_MATERIAL, None;
      pending := None;
      lastUpdate, lastResult := [], NO_RESULT;
    }

    method ExpireDrainAt(now: int)
      modifies this
      ensures View() == Expire(old(View()), now)
    {
      if drainUntil.Some? && now > drainUntil.value {
        ClearDrainState();
      }
    }

    method PrepareUpdate(x: Schedule, nonce: Octets, ackRequired: bool, reason: uint64, now: int)
      returns (p: Option<Prepared>)
      ensures p == Prepare(x, View(), nonce, ackRequired, reason, now)
    {
      if (drainUntil.Some? && now <= drainUntil.value) || phase == 255 {
        return None;
      }
      var frame := Update(route, hop, direction, phase, phase + 1, nonce, ackRequired, reason);
      var next := Derive(x, material.secret, frame);
      if next.None? {
        return None;
      }
      return Some(Prepared(frame, next.value, phase, material));
    }

    method CommitPreparedUpdate(p: Prepared, now: int) returns (ok: bool)
      modifies this
      ensures ok == CanCommit(old(View()), p) && View() == Commit(old(View()), p, now)
    {
      var f := p.frame;
      if !ValidUpdate(f) || f.route != route || f.hop != hop || f.direction != direction {
        return false;
      }
      if f.oldPhase != p.sourcePhase || phase != p.sourcePhase || material != p.source {
        return false;
      }
      ClearDrainState();
      previousPhase, previous := phase, material;
      phase, material := f.newPhase, p.next;
      drainUntil := Some(now + MAX_DRAIN);
      pending := if f.ackRequired then Some(f) else None;
      return true;
    }

    method ApplyKeyUpdateACK(a: Ack, now: int) returns (ok: bool)
      modifies this
      ensures var r := ApplyAck(old(View()), a, now); View() == r.state && ok == r.ok
    {
      ExpireDrainAt(now);
      if pending.None? || |a.nonce| > 0xffff {
        return false;
      }
      if a.route != route || a.hop != hop || a.direction != direction || a.phase != phase {
        return false;
      }
      ClearDrainState();
      return true;
    }

    method ApplyReceivedUpdateAt(x: Schedule, u: Update, ackNonce: Octets, now: int) returns (result: Option<Result>)
      modifies this
      ensures var r := Receive(x, old(View()), u, ackNonce, now); View() == r.state && result == r.result
    {
      if u.route != route || u.hop != hop || u.direction != direction {
        return None;
      }
      var encoded := EncodeUpdate(u);
      if encoded.None? {
        return None;
      }
      if u.oldPhase != phase {
        if lastUpdate != [] && drainUntil.Some? && now <= drainUntil.value && u.newPhase == phase
          && lastUpdate == encoded.value {
          return Some(lastResult);
        }
        return None;
      }
      var next := Derive(x, material.secret, u);
      if next.None? || (u.ackRequired && |ackNonce| > 0xffff) {
        return None;
      }
      var r := Result(next.value, AckFor(u, ackNonce));
      ClearDrainState();
      previousPhase, previous := phase, material;
      phase, material := u.newPhase, next.value;
      drainUntil := Some(now + MAX_DRAIN);
      lastUpdate, lastResult := encoded.value, r;
      return Some(r);
    }
  }
}
