/** Writer and reader of one direction: they agree on the material of every phase. */
module KeyAgreement {
  import opened Bytes
  import opened Wire
  import opened KeyUpdate

  /**
   * `sent` are the committed updates in commit order, `prepared` all preparations the writer ever
   * made, `acks` all acknowledgements the reader ever issued.
   */
  datatype State = State(writer: Direction, reader: Direction, sent: seq<Update>, prepared: seq<Prepared>,
                         acks: seq<Ack>)

  /** Frames reach the reader, and acknowledgements the writer, in any order and any number of times. */
  datatype Event =
    | WriterPrepares(nonce: Octets, ackRequired: bool, reason: uint64, now: int)
    | WriterCommits(which: nat, now: int)
    | ReaderReceives(which: nat, ackNonce: Octets, now: int)
    | WriterHears(which: nat, now: int)
    | WriterExpires(now: int)
    | ReaderExpires(now: int)

  predicate Enabled(s: State, e: Event) {
    match e
    case WriterCommits(which, _) => which < |s.prepared|
    case ReaderReceives(which, _, _) => which < |s.sent|
    case WriterHears(which, _) => which < |s.acks|
    case _ => true
  }

  /** How the writer treats an acknowledgement: a redundant one is dropped, any other is applied. */
  function Hear(w: Direction, a: Ack, now: int): Acked {
    var t := Expire(w, now);
    if AcknowledgesCompleted(t, a) then Acked(t, true) else ApplyAck(t, a, now)
  }

  function Execute(x: Schedule, s: State, e: Event): State
    requires Enabled(s, e)
  {
    match e
    case WriterPrepares(nonce, ackRequired, reason, now) =>
      var p := Prepare(x, s.writer, nonce, ackRequired, reason, now);
      if p.None? then s else s.(prepared := s.prepared + [p.value])
    case WriterCommits(which, now) =>
      var p := s.prepared[which];
      if !CanCommit(s.writer, p) then s
      else s.(writer := Commit(s.writer, p, now), sent := s.sent + [p.frame])
    case ReaderReceives(which, ackNonce, now) =>
      var r := Receive(x, s.reader, s.sent[which], ackNonce, now);
      s.(reader := r.state, acks := if r.result.Some?
         && r.result.value.ack.Some? then s.acks + [r.result.value.ack.value] else s.acks)
    case WriterHears(which, now) => s.(writer := Hear(s.writer, s.acks[which], now).state)
    case WriterExpires(now) => s.(writer := Expire(s.writer, now))
    case ReaderExpires(now) => s.(reader := Expire(s.reader, now))
  }

  /** Both ends of a new direction hold the same material at phase 0. */
  predicate Initial(s: State) {
    && s.writer == s.reader && s.writer.phase == 0 && ClearDrain(s.writer) == s.writer
    && s.sent == [] && s.prepared == [] && s.acks == []
  }

  // ---------- material by phase ----------

  /** The material after applying `updates` in order, if every derivation succeeds. */
  function MaterialAfter(x: Schedule, start: Material, updates: seq<Update>): Option<Material> {
    if updates == [] then Some(start)
    else
      var m := MaterialAfter(x, start, updates[..|updates| - 1]);
      if m.None? then None else Derive(x, m.value.secret, updates[|updates| - 1])
  }

  /** The one function of the phase that both sides' material follows. */
  function MaterialAt(x: Schedule, start: Material, sent: seq<Update>, phase: nat): Option<Material>
    requires phase <= |sent|
  {
    MaterialAfter(x, start, sent[..phase])
  }

  lemma MaterialStep(x: Schedule, start: Material, sent: seq<Update>, phase: nat)
    requires phase < |sent| && MaterialAt(x, start, sent, phase).Some?
    ensures MaterialAt(x, start, sent, phase + 1)
            == Derive(x, MaterialAt(x, start, sent, phase).value.secret, sent[phase])
  {
    assert sent[..phase + 1][..phase] == sent[..phase];
  }

  predicate SameLink(a: Direction, route: uint64, hop: byte, direction: byte) {
    a.route == route && a.hop == hop && a.direction == direction
  }

  /** `s` holds the material of its phase, and of the phase before while it drains. */
  predicate Follows(x: Schedule, start: Material, sent: seq<Update>, s: Direction) {
    && s.phase <= |sent|
    && MaterialAt(x, start, sent, s.phase) == Some(s.material)
    && (s.drainUntil.Some? ==>
          s.phase > 0 && s.previousPhase == s.phase - 1 && MaterialAt(x, start, sent, s.phase - 1) == Some(s.previous))
    && DrainInv(s)
  }

  predicate PreparedOk(x: Schedule, p: Prepared) {
    Derive(x, p.source.secret, p.frame) == Some(p.next)
  }

  ghost predicate Inv(x: Schedule, start: Material, s: State) {
    && SameLink(s.reader, s.writer.route, s.writer.hop, s.writer.direction)
    && s.writer.phase == |s.sent|
    && Follows(x, start, s.sent, s.writer) && Follows(x, start, s.sent, s.reader)
    && (s.writer.pending.Some? ==> s.writer.drainUntil.Some?)
    && (forall i :: 0 <= i < |s.sent| ==> s.sent[i].oldPhase == i && s.sent[i].newPhase == i + 1)
    && (forall i :: 0 <= i < |s.prepared| ==> PreparedOk(x, s.prepared[i]))
    && (forall i :: 0 <= i < |s.acks| ==> Issued(s.writer, s.acks[i]))
    && (s.reader.lastUpdate != [] && s.reader.lastResult.ack.Some? ==> Issued(s.writer, s.reader.lastResult.ack.value))
  }

  /** What holds of every acknowledgement the reader issues. */
  predicate Issued(w: Direction, a: Ack) {
    a.route == w.route && a.hop == w.hop && a.direction == w.direction && a.phase > 0 && |a.nonce| <= 0xffff
  }

  lemma PrefixKept(x: Schedule, start: Material, sent: seq<Update>, u: Update, s: Direction)
    requires Follows(x, start, sent, s)
    ensures Follows(x, start, sent + [u], s)
  {
    assert (sent + [u])[..s.phase] == sent[..s.phase];
    if s.drainUntil.Some? {
      assert (sent + [u])[..s.phase - 1] == sent[..s.phase - 1];
    }
  }

  lemma CommitFollows(x: Schedule, start: Material, sent: seq<Update>, w: Direction, p: Prepared, now: int)
    requires Follows(x, start, sent, w) && w.phase == |sent| && CanCommit(w, p) && PreparedOk(x, p)
    ensures Follows(x, start, sent + [p.frame], Commit(w, p, now))
  {
    var all := sent + [p.frame];
    assert all[..|sent|] == sent[..|sent|];
    MaterialStep(x, start, all, |sent|);
  }

  lemma CommitKeepsInv(x: Schedule, start: Material, s: State, e: Event)
    requires Inv(x, start, s) && e.WriterCommits? && Enabled(s, e)
    ensures Inv(x, start, Execute(x, s, e))
  {
    var p := s.prepared[e.which];
    if CanCommit(s.writer, p) {
      assert PreparedOk(x, p);
      PrefixKept(x, start, s.sent, p.frame, s.reader);
      CommitFollows(x, start, s.sent, s.writer, p, e.now);
    }
  }

  lemma ReceiveFollows(x: Schedule, start: Material, sent: seq<Update>, r: Direction, which: nat, nonce: Octets,
                       now: int)
    requires Follows(x, start, sent, r) && which < |sent| && sent[which].oldPhase == which
    ensures Follows(x, start, sent, Receive(x, r, sent[which], nonce, now).state)
  {
    if which == r.phase {
      MaterialStep(x, start, sent, which);
    }
  }

  lemma ReceiveKeepsInv(x: Schedule, start: Material, s: State, e: Event)
    requires Inv(x, start, s) && e.ReaderReceives? && Enabled(s, e)
    ensures Inv(x, start, Execute(x, s, e))
  {
    ReceiveFollows(x, start, s.sent, s.reader, e.which, e.ackNonce, e.now);
    ReceiveIssues(x, s.reader, s.writer, s.sent[e.which], e.ackNonce, e.now);
  }

  /** A reception keeps the link, and whatever it acknowledges or remembers names it. */
  lemma ReceiveIssues(x: Schedule, r: Direction, w: Direction, u: Update, nonce: Octets, now: int)
    requires SameLink(r, w.route, w.hop, w.direction) && u.newPhase > 0
    requires r.lastUpdate != [] && r.lastResult.ack.Some? ==> Issued(w, r.lastResult.ack.value)
    ensures var a := Receive(x, r, u, nonce, now);
            && SameLink(a.state, w.route, w.hop, w.direction)
            && (a.result.Some? && a.result.value.ack.Some? ==> Issued(w, a.result.value.ack.value))
            && (a.state.lastUpdate != [] && a.state.lastResult.ack.Some? ==> Issued(w, a.state.lastResult.ack.value))
  {
  }

  lemma PrepareKeepsInv(x: Schedule, start: Material, s: State, e: Event)
    requires Inv(x, start, s) && e.WriterPrepares? && Enabled(s, e)
    ensures Inv(x, start, Execute(x, s, e))
  {
  }

  lemma ClearedFollows(x: Schedule, start: Material, sent: seq<Update>, s: Direction)
    requires Follows(x, start, sent, s)
    ensures Follows(x, start, sent, ClearDrain(s))
  {
  }

  lemma QuietStepKeepsInv(x: Schedule, start: Material, s: State, e: Event)
    requires Inv(x, start, s) && Enabled(s, e) && (e.WriterHears? || e.WriterExpires? || e.ReaderExpires?)
    ensures Inv(x, start, Execute(x, s, e))
  {
    var t := Execute(x, s, e);
    ClearedFollows(x, start, s.sent, s.writer);
    ClearedFollows(x, start, s.sent, s.reader);
    assert t.writer == s.writer || t.writer == ClearDrain(s.writer);
    assert t.reader == s.reader || t.reader == ClearDrain(s.reader);
  }

  lemma StepKeepsInv(x: Schedule, start: Material, s: State, e: Event)
    requires Inv(x, start, s) && Enabled(s, e)
    ensures Inv(x, start, Execute(x, s, e))
  {
    match e
    case WriterPrepares(_, _, _, _) => PrepareKeepsInv(x, start, s, e);
    case WriterCommits(_, _) => CommitKeepsInv(x, start, s, e);
    case ReaderReceives(_, _, _) => ReceiveKeepsInv(x, start, s, e);
    case _ => QuietStepKeepsInv(x, start, s, e);
  }

  predicate ValidRun(x: Schedule, s: State, events: seq<Event>)
    decreases |events|
  {
    events == [] || (Enabled(s, events[0]) && ValidRun(x, Execute(x, s, events[0]), events[1..]))
  }

  function StateAfter(x: Schedule, s: State, events: seq<Event>): State
    requires ValidRun(x, s, events)
    decreases |events|
  {
    if events == [] then s else StateAfter(x, Execute(x, s, events[0]), events[1..])
  }

  lemma {:induction false} RunKeepsInv(x: Schedule, start: Material, s: State, events: seq<Event>)
    requires Inv(x, start, s) && ValidRun(x, s, events)
    ensures Inv(x, start, StateAfter(x, s, events))
    decreases |events|
  {
    if events != [] {
      StepKeepsInv(x, start, s, events[0]);
      RunKeepsInv(x, start, Execute(x, s, events[0]), events[1..]);
    }
  }

  /**
   * Agreement: with committed frames delivered in any order and any number of times, the reader is
   * never ahead of the writer, and each side's material is one function of its phase.
   */
  lemma Agreement(x: Schedule, s: State, events: seq<Event>)
    requires Initial(s) && ValidRun(x, s, events)
    ensures var t := StateAfter(x, s, events);
            && t.reader.phase <= t.writer.phase == |t.sent|
            && MaterialAt(x, s.writer.material, t.sent, t.writer.phase) == Some(t.writer.material)
            && MaterialAt(x, s.writer.material, t.sent, t.reader.phase) == Some(t.reader.material)
            && (t.reader.phase == t.writer.phase ==> t.reader.material == t.writer.material)
  {
    InitialIsInv(x, s);
    RunKeepsInv(x, s.writer.material, s, events);
  }

  lemma InitialIsInv(x: Schedule, s: State)
    requires Initial(s)
    ensures Inv(x, s.writer.material, s)
  {
    assert s.sent[..0] == [];
  }

  /** What either side would use to open a packet of a phase both still hold is the same material. */
  lemma SamePacketMaterial(x: Schedule, s: State, events: seq<Event>, phase: byte, now: int, later: int)
    requires Initial(s) && ValidRun(x, s, events)
    ensures var t := StateAfter(x, s, events);
            var a := MaterialFor(t.writer, t.writer.route, t.writer.hop, t.writer.direction, phase, now);
            var b := MaterialFor(t.reader, t.writer.route, t.writer.hop, t.writer.direction, phase, later);
            a.Some? && b.Some? ==> a == b
  {
    InitialIsInv(x, s);
    RunKeepsInv(x, s.writer.material, s, events);
  }

  /** Every acknowledgement issued for the writer's current phase is applied or recognised as redundant. */
  lemma AcknowledgementsAreHeard(x: Schedule, s: State, events: seq<Event>, which: nat, now: int)
    requires Initial(s) && ValidRun(x, s, events)
    requires var t := StateAfter(x, s, events); which < |t.acks| && t.acks[which].phase == t.writer.phase
    ensures var t := StateAfter(x, s, events);
            && Hear(t.writer, t.acks[which], now).ok
            && Hear(t.writer, t.acks[which], now).state.pending == None
  {
    InitialIsInv(x, s);
    RunKeepsInv(x, s.writer.material, s, events);
    var t := StateAfter(x, s, events);
    assert Issued(t.writer, t.acks[which]);
  }
}
