/** One TCP flow of the tunnel: what the adapter does with each local packet of it. */
module TcpFlow {
  import opened Arith
  import opened Bytes
  import opened IpPacket
  import opened Segments

  const FIN: byte := 0x01
  const SYN: byte := 0x02
  const RST: byte := 0x04
  const ACK: byte := 0x10
  const CLOSE_NORMAL: nat := 0
  const CLOSE_IDLE: nat := 1
  const CLOSE_RESET: nat := 4

  predicate Has(flags: byte, bit: byte)
    requires bit > 0
  {
    flags / bit % 2 == 1
  }

  datatype TcpState = TcpState(clientNext: uint32, relayNext: uint32, localClosed: bool, peerClosed: bool)

  /** Frames for the relay: stream data, and the close of the local side. */
  datatype Outgoing = StreamData(payload: Octets) | CloseFlow(code: nat, finalSequence: Option<nat>)

  datatype Reply = Reply(sequence: uint32, acknowledgment: uint32, flags: byte)

  datatype Queue = Accepted | Full | Broken

  /** What the surroundings answer: the proxy, the local packet queue and the application queue. */
  datatype Env = Env(sendOk: bool, room: bool, queue: Queue)

  datatype Status = Fine | Backpressure | Failed

  /** `retired` flows leave the tables; `deferred` keeps a close frame for a later retry. */
  datatype Effect = Effect(flow: TcpState, frames: seq<Outgoing>, reply: Option<Reply>, status: Status, retired: bool,
                           deferred: bool)

  function Nothing(f: TcpState, status: Status): Effect {
    Effect(f, [], None, status, false, false)
  }

  function Answer(f: TcpState, env: Env, reply: Reply): Effect {
    if env.room then Effect(f, [], Some(reply), Fine, false, false) else Nothing(f, Backpressure)
  }

  /** The signed 32-bit difference is negative. */
  predicate SequenceBefore(left: uint32, right: uint32) {
    (left - right) % WORD >= 0x8000_0000
  }

  function Reset(f: TcpState, env: Env): Effect {
    match env.queue
    case Accepted => Effect(f.(localClosed := true), [CloseFlow(CLOSE_RESET, None)], None, Fine, true, false)
    case Full => Effect(f, [], None, Backpressure, true, true)
    case Broken => Nothing(f, Failed)
  }

  function Frames(sequence: uint32, payload: Octets, fin: bool): seq<Outgoing> {
    (if payload == [] then [] else [StreamData(payload)])
    + (if fin then [CloseFlow(CLOSE_NORMAL, Some(sequence + |payload| + 1))] else [])
  }

  function Forward(f: TcpState, payload: Octets, fin: bool): TcpState {
    f.(clientNext := Advance(f.clientNext, |payload| + if fin then 1 else 0), localClosed := fin)
  }

  /** A packet without SYN for a flow in the tables. */
  function Data(f: TcpState, sequence: uint32, flags: byte, payload: Octets, env: Env): Effect {
    var fin := Has(flags, FIN);
    var frames := Frames(sequence, payload, fin);
    if f.localClosed then Nothing(f, Fine)
    else if Has(flags, RST) then Reset(f, env)
    else if sequence != f.clientNext then
      if SequenceBefore(sequence, f.clientNext) then Answer(f, env, Reply(f.relayNext, f.clientNext, ACK))
      else Nothing(f, Failed)
    else if payload != [] && !env.sendOk then Nothing(f, Failed)
    else if frames == [] then Nothing(f, Fine)
    else if !env.room || env.queue.Full? then Nothing(f, Backpressure)
    else if env.queue.Broken? then Nothing(f, Failed)
    else
      var after := Forward(f, payload, fin);
      Effect(after, frames, Some(Reply(after.relayNext, after.clientNext, ACK)), Fine, fin && f.peerClosed, false)
  }

  /** A SYN the tunnel can serve carries no data and no flag besides those that ask for ECN. */
  predicate PlainSyn(flags: byte, payload: Octets) {
    flags % 64 == SYN && payload == []
  }

  /** A repeated SYN is answered again; one that does not match the flow is an error. */
  function RepeatedSyn(f: TcpState, sequence: uint32, env: Env): Effect {
    if f.clientNext != Advance(sequence, 1) then Nothing(f, Failed)
    else Answer(f, env, Reply((f.relayNext - 1) % WORD, f.clientNext, SYN + ACK))
  }

  /** A packet of the flow is answered, whether or not the local queue has room for the answer. */
  predicate Builds(f: TcpState, sequence: uint32, flags: byte, payload: Octets, env: Env) {
    if Has(flags, SYN) then PlainSyn(flags, payload) && f.clientNext == Advance(sequence, 1)
    else if f.localClosed || Has(flags, RST) then false
    else if sequence != f.clientNext then SequenceBefore(sequence, f.clientNext)
    else (payload != [] ==> env.sendOk) && (payload != [] || Has(flags, FIN)) && env.room && env.queue.Accepted?
  }

  function Opened(sequence: uint32, serverSequence: uint32): TcpState {
    TcpState(Advance(sequence, 1), Advance(serverSequence, 1), false, false)
  }

  // ---------- runs of one flow ----------

  /**
   * `at` is where in its stream the sender took the payload from; the adapter never sees it. The relay moves its own
   * sequence number and closes its side independently.
   */
  datatype Event =
    | Arrival(at: nat, sequence: uint32, flags: byte, payload: Octets, env: Env)
    | Relay(relayNext: uint32, peerClosed: bool)

  function Step(f: TcpState, e: Event): Effect {
    match e
    case Arrival(_, sequence, flags, payload, env) =>
      if !Has(flags, SYN) then Data(f, sequence, flags, payload, env)
      else if !PlainSyn(flags, payload) then Nothing(f, Fine)
      else RepeatedSyn(f, sequence, env)
    case Relay(relayNext, peerClosed) => Nothing(f.(relayNext := relayNext, peerClosed := f.peerClosed || peerClosed),
                                                 Fine)
  }

  /** A flow retires once; nothing reaches it afterwards. */
  datatype History = History(flow: TcpState, queued: seq<Outgoing>, retired: bool)

  function After(f: TcpState, events: seq<Event>): History {
    if events == [] then History(f, [], false)
    else
      var before := After(f, events[..|events| - 1]);
      if before.retired then before
      else
        var e := Step(before.flow, events[|events| - 1]);
        History(e.flow, before.queued + e.frames, e.retired)
  }

  /** The octets of the stream frames queued so far. */
  function Stream(queued: seq<Outgoing>): Octets {
    if queued == [] then []
    else
      var last := queued[|queued| - 1];
      Stream(queued[..|queued| - 1]) + if last.StreamData? then last.payload else []
  }

  lemma {:induction false} StreamConcat(a: seq<Outgoing>, b: seq<Outgoing>)
    ensures Stream(a + b) == Stream(a) + Stream(b)
    decreases |b|
  {
    if b == [] {
      assert a + b == a;
    } else {
      var last := |b| - 1;
      assert (a + b)[..|a + b| - 1] == a + b[..last];
      StreamConcat(a, b[..last]);
    }
  }

  lemma FramesStream(sequence: uint32, payload: Octets, fin: bool)
    ensures Stream(Frames(sequence, payload, fin)) == payload
  {
    var data := if payload == [] then [] else [StreamData(payload)];
    var close := if fin then [CloseFlow(CLOSE_NORMAL, Some(sequence + |payload| + 1))] else [];
    StreamConcat(data, close);
    assert Stream(close) == [] by {
      assert fin ==> close[..0] == [];
    }
    assert Stream(data) == payload by {
      assert payload != [] ==> data[..0] == [];
    }
  }

  // ---------- the acknowledged number ----------

  /** The last frame says that the client has finished. */
  predicate Finished(queued: seq<Outgoing>) {
    queued != [] && queued[|queued| - 1].CloseFlow? && queued[|queued| - 1].code == CLOSE_NORMAL
  }

  function Sent(queued: seq<Outgoing>): nat {
    |Stream(queued)| + if Finished(queued) then 1 else 0
  }

  /** The acknowledged number counts the SYN, the octets forwarded and the FIN. */
  predicate Acknowledges(isn: uint32, h: History) {
    && h.flow.clientNext == Advance(isn, 1 + Sent(h.queued))
    && (!h.retired ==> (h.flow.localClosed <==> Finished(h.queued)))
    && (h.retired && Finished(h.queued) ==> h.flow.localClosed)
  }

  /** Frames are queued for in-order packets and resets only; anything else leaves the client's side as it was. */
  predicate StepCases(f: TcpState, e: Event, r: Effect) {
    if r.frames == [] then r.flow.clientNext == f.clientNext && r.flow.localClosed == f.localClosed
    else if e.Relay? || f.localClosed then false
    else if Has(e.flags, RST) then r.frames == [CloseFlow(CLOSE_RESET, None)] && r.retired
      && r.flow.clientNext == f.clientNext
    else e.sequence == f.clientNext && (e.payload != [] || Has(e.flags, FIN)) && !Has(e.flags, SYN)
         && r.frames == Frames(e.sequence, e.payload, Has(e.flags, FIN))
         && r.flow == Forward(f, e.payload, Has(e.flags, FIN))
  }

  lemma StepFrames(f: TcpState, e: Event)
    ensures StepCases(f, e, Step(f, e))
  {
  }

  lemma ForwardAcknowledges(isn: uint32, h: History, sequence: uint32, payload: Octets, fin: bool)
    requires Acknowledges(isn, h) && !h.flow.localClosed && !h.retired && (payload != [] || fin)
    ensures var queued := h.queued + Frames(sequence, payload, fin);
            && Stream(queued) == Stream(h.queued) + payload && (Finished(queued) <==> fin)
            && Forward(h.flow, payload, fin).clientNext == Advance(isn, 1 + Sent(queued))
  {
    var frames := Frames(sequence, payload, fin);
    FramesStream(sequence, payload, fin);
    QueuedFurther(h.queued, frames, payload, fin);
    AdvanceFurther(isn, 1 + Sent(h.queued), |payload| + (if fin then 1 else 0), 1 + Sent(h.queued + frames));
  }

  lemma QueuedFurther(queued: seq<Outgoing>, frames: seq<Outgoing>, payload: Octets, fin: bool)
    requires !Finished(queued) && frames != [] && Stream(frames) == payload && Finished(frames) == fin
    ensures Stream(queued + frames) == Stream(queued) + payload && Finished(queued + frames) == fin
    ensures Sent(queued + frames) == Sent(queued) + |payload| + if fin then 1 else 0
  {
    StreamConcat(queued, frames);
  }

  lemma AdvanceFurther(isn: uint32, a: nat, k: nat, b: nat)
    requires b == a + k
    ensures Advance(Advance(isn, a), k) == Advance(isn, b)
  {
    AdvanceTwice(isn, a, k);
  }

  lemma ResetAcknowledges(isn: uint32, h: History)
    requires Acknowledges(isn, h) && !h.flow.localClosed && !h.retired
    ensures var queued := h.queued + [CloseFlow(CLOSE_RESET, None)];
            Stream(queued) == Stream(h.queued) && !Finished(queued)
  {
    var queued := h.queued + [CloseFlow(CLOSE_RESET, None)];
    assert queued[..|queued| - 1] == h.queued;
  }

  lemma {:induction false} RunAcknowledges(isn: uint32, serverSequence: uint32, events: seq<Event>)
    ensures Acknowledges(isn, After(Opened(isn, serverSequence), events))
    decreases |events|
  {
    var f := Opened(isn, serverSequence);
    if events != [] {
      var last := |events| - 1;
      var h, e := After(f, events[..last]), events[last];
      RunAcknowledges(isn, serverSequence, events[..last]);
      if !h.retired {
        StepAcknowledges(isn, h, e);
      }
    }
  }

  function Next(h: History, e: Event): History {
    var r := Step(h.flow, e);
    History(r.flow, h.queued + r.frames, r.retired)
  }

  lemma StepAcknowledges(isn: uint32, h: History, e: Event)
    requires Acknowledges(isn, h) && !h.retired
    ensures Acknowledges(isn, Next(h, e))
  {
    StepFrames(h.flow, e);
    EffectAcknowledges(isn, h, e, Step(h.flow, e));
  }

  lemma EffectAcknowledges(isn: uint32, h: History, e: Event, r: Effect)
    requires Acknowledges(isn, h) && !h.retired && StepCases(h.flow, e, r)
    ensures Acknowledges(isn, History(r.flow, h.queued + r.frames, r.retired))
  {
    if r.frames == [] {
      assert h.queued + r.frames == h.queued;
    } else if Has(e.flags, RST) {
      ResetAcknowledges(isn, h);
    } else {
      ForwardAcknowledges(isn, h, e.sequence, e.payload, Has(e.flags, FIN));
    }
  }

  /** Every answer acknowledges exactly what has been queued. */
  lemma RepliesAcknowledge(isn: uint32, serverSequence: uint32, events: seq<Event>, e: Event)
    requires !After(Opened(isn, serverSequence), events).retired
    ensures var h := After(Opened(isn, serverSequence), events);
            var r := Step(h.flow, e);
            r.reply.Some? ==> r.reply.value.acknowledgment == Advance(isn, 1 + Sent(h.queued + r.frames))
  {
    var h := After(Opened(isn, serverSequence), events);
    RunAcknowledges(isn, serverSequence, events);
    StepAcknowledges(isn, h, e);
    ReplyIsCurrent(h.flow, e);
  }

  lemma ReplyIsCurrent(f: TcpState, e: Event)
    ensures Step(f, e).reply.Some? ==> Step(f, e).reply.value.acknowledgment == Step(f, e).flow.clientNext
  {
  }

  /** The close frame's final sequence is the number acknowledged for it, written without wrapping. */
  lemma FinalSequenceIsAcknowledged(f: TcpState, e: Event)
    requires e.Arrival? && Finished(Step(f, e).frames)
    ensures var close := Step(f, e).frames[|Step(f, e).frames| - 1];
            close.finalSequence.Some? && close.finalSequence.value % WORD == Step(f, e).flow.clientNext
  {
    StepFrames(f, e);
  }

  /**
   * A packet dropped for backpressure leaves no trace, so that its retransmission is served as the first would have
   * been.
   */
  lemma DropLeavesNoTrace(f: TcpState, e: Event)
    requires e.Arrival? && Step(f, e).status != Fine && !Step(f, e).deferred
    ensures Step(f, e).flow == f && Step(f, e).frames == [] && Step(f, e).reply.None? && !Step(f, e).retired
  {
  }

  /** A packet is answered exactly when an answer is built for it and the local queue has room. */
  lemma AnsweredIff(f: TcpState, at: nat, sequence: uint32, flags: byte, payload: Octets, env: Env)
    ensures Step(f, Arrival(at, sequence, flags, payload, env)).reply.Some?
            <==> Builds(f, sequence, flags, payload, env) && env.room
  {
  }

  // ---------- a client that tells the truth ----------

  predicate Truthful(s: Octets, isn: uint32, e: Event) {
    e.Arrival? && !Has(e.flags, SYN) ==>
      && e.at + |e.payload| <= |s| && e.payload == s[e.at..e.at + |e.payload|]
      && e.sequence == Advance(isn, 1 + e.at)
      && (Has(e.flags, FIN) ==> e.at + |e.payload| == |s|)
  }

  /** Not a whole number of turns of the sequence space away from what has been forwarded. */
  predicate Timely(e: Event, forwarded: nat) {
    e.Arrival? && (e.at - forwarded) % WORD == 0 ==> e.at == forwarded
  }

  predicate TruthfulRun(s: Octets, isn: uint32, f: TcpState, events: seq<Event>) {
    forall n :: 0 <= n < |events| ==>
      Truthful(s, isn, events[n]) && Timely(events[n], |Stream(After(f, events[..n]).queued)|)
  }

  lemma ModDifference(a: int, b: int)
    ensures (a % WORD - b % WORD) % WORD == (a - b) % WORD
  {
    assert a == WORD * (a / WORD) + a % WORD && b == WORD * (b / WORD) + b % WORD;
    ModAddMultiple(a % WORD - b % WORD, WORD, a / WORD - b / WORD);
    assert a - b == a % WORD - b % WORD + WORD * (a / WORD - b / WORD);
  }

  /** The adapter takes a packet for the next one exactly when its offset is right modulo 2^32. */
  lemma AcceptedIff(isn: uint32, forwarded: nat, at: nat)
    ensures Advance(isn, 1 + at) == Advance(isn, 1 + forwarded) <==> (at - forwarded) % WORD == 0
  {
    ModDifference(isn + 1 + at, isn + 1 + forwarded);
    var l, r := Advance(isn, 1 + at), Advance(isn, 1 + forwarded);
    if (l - r) % WORD == 0 {
      SameRemainder(l - r, 0, WORD);
    }
  }

  /** Near the expected octet the 32-bit comparison tells earlier, expected and later apart. */
  lemma NearIsExact(isn: uint32, forwarded: nat, at: nat)
    requires -0x8000_0000 <= at - forwarded < 0x8000_0000
    ensures Advance(isn, 1 + at) == Advance(isn, 1 + forwarded) <==> at == forwarded
    ensures SequenceBefore(Advance(isn, 1 + at), Advance(isn, 1 + forwarded)) <==> at < forwarded
  {
    AcceptedIff(isn, forwarded, at);
    ModDifference(isn + 1 + at, isn + 1 + forwarded);
    if at < forwarded {
      ModAddMultiple(at - forwarded, WORD, 1);
    }
  }

  predicate Faithful(s: Octets, h: History) {
    Stream(h.queued) <= s && (Finished(h.queued) ==> Stream(h.queued) == s)
  }

  lemma StepIsFaithful(s: Octets, isn: uint32, h: History, e: Event)
    requires Faithful(s, h) && Acknowledges(isn, h) && !h.retired
    requires Truthful(s, isn, e) && Timely(e, |Stream(h.queued)|)
    ensures Faithful(s, Next(h, e))
  {
    StepFrames(h.flow, e);
    EffectIsFaithful(s, isn, h, e, Step(h.flow, e));
  }

  lemma ForwardIsFaithful(s: Octets, isn: uint32, h: History, at: nat, sequence: uint32, payload: Octets, fin: bool)
    requires Faithful(s, h) && Acknowledges(isn, h) && !h.flow.localClosed && !h.retired && (payload != [] || fin)
    requires at == |Stream(h.queued)| && at + |payload| <= |s| && payload == s[at..at + |payload|]
    requires fin ==> at + |payload| == |s|
    ensures var queued := h.queued + Frames(sequence, payload, fin);
            Stream(queued) <= s && (Finished(queued) ==> Stream(queued) == s)
  {
    ForwardAcknowledges(isn, h, sequence, payload, fin);
    assert s[..at] + s[at..at + |payload|] == s[..at + |payload|];
    assert s[..|s|] == s;
  }

  lemma AcceptedIsNext(isn: uint32, h: History, at: nat, sequence: uint32)
    requires Acknowledges(isn, h) && !h.flow.localClosed && !h.retired
    requires sequence == Advance(isn, 1 + at) == h.flow.clientNext
    requires (at - |Stream(h.queued)|) % WORD == 0 ==> at == |Stream(h.queued)|
    ensures at == |Stream(h.queued)|
  {
    AcceptedIff(isn, |Stream(h.queued)|, at);
  }

  lemma EffectIsFaithful(s: Octets, isn: uint32, h: History, e: Event, r: Effect)
    requires Faithful(s, h) && Acknowledges(isn, h) && !h.retired && StepCases(h.flow, e, r)
    requires Truthful(s, isn, e) && Timely(e, |Stream(h.queued)|)
    ensures Faithful(s, History(r.flow, h.queued + r.frames, r.retired))
  {
    if r.frames == [] {
      assert h.queued + r.frames == h.queued;
    } else if Has(e.flags, RST) {
      ResetAcknowledges(isn, h);
    } else {
      AcceptedIsNext(isn, h, e.at, e.sequence);
      ForwardIsFaithful(s, isn, h, e.at, e.sequence, e.payload, Has(e.flags, FIN));
    }
  }

  lemma TruthfulPrefix(s: Octets, isn: uint32, f: TcpState, events: seq<Event>)
    requires TruthfulRun(s, isn, f, events) && events != []
    ensures TruthfulRun(s, isn, f, events[..|events| - 1])
  {
    var before := events[..|events| - 1];
    forall n | 0 <= n < |before|
      ensures Truthful(s, isn, before[n]) && Timely(before[n], |Stream(After(f, before[..n]).queued)|)
    {
      assert before[n] == events[n] && before[..n] == events[..n];
    }
  }

  /**
   * Whatever is retransmitted, overlaps, arrives late or is dropped on the way, the relay gets the client's octets
   * once and in order; and when it gets the end of the stream it has had all of it.
   */
  lemma {:induction false} StreamIsForwardedOnce(s: Octets, isn: uint32, serverSequence: uint32, events: seq<Event>)
    requires TruthfulRun(s, isn, Opened(isn, serverSequence), events)
    ensures Faithful(s, After(Opened(isn, serverSequence), events))
    decreases |events|
  {
    var f := Opened(isn, serverSequence);
    if events != [] {
      var last := |events| - 1;
      var before, e := events[..last], events[last];
      TruthfulPrefix(s, isn, f, events);
      StreamIsForwardedOnce(s, isn, serverSequence, before);
      RunAcknowledges(isn, serverSequence, before);
      if !After(f, before).retired {
        StepIsFaithful(s, isn, After(f, before), e);
      }
    }
  }

  /** The next octets in order get through as soon as the queues have room. */
  lemma InOrderGetsThrough(s: Octets, isn: uint32, h: History, e: Event)
    requires Faithful(s, h) && Acknowledges(isn, h) && !h.retired && !h.flow.localClosed
    requires Truthful(s, isn, e) && e.Arrival? && !Has(e.flags, SYN) && !Has(e.flags, RST)
    requires e.at == |Stream(h.queued)| && e.env == Env(true, true, Accepted) && e.payload != []
    ensures Stream(Next(h, e).queued) == Stream(h.queued) + e.payload
  {
    ForwardAcknowledges(isn, h, e.sequence, e.payload, Has(e.flags, FIN));
  }

  /**
   * Without it the guarantee ends: a truthful packet from a whole number of turns away is taken for the next one, and
   * what the relay has then got is the client's stream exactly when that stream repeats itself there.
   */
  lemma StaleByTurns(s: Octets, isn: uint32, h: History, e: Event)
    requires Faithful(s, h) && Acknowledges(isn, h) && !h.retired && !h.flow.localClosed
    requires Truthful(s, isn, e) && e.Arrival? && !Has(e.flags, SYN) && !Has(e.flags, RST)
    requires e.env == Env(true, true, Accepted) && e.payload != []
    requires (e.at - |Stream(h.queued)|) % WORD == 0
    ensures var n, k := |Stream(h.queued)|, |e.payload|;
            && Stream(Next(h, e).queued) == Stream(h.queued) + s[e.at..e.at + k]
            && (Stream(Next(h, e).queued) <= s <==> n + k <= |s| && s[n..n + k] == s[e.at..e.at + k])
  {
    var sent, n, k := Stream(h.queued), |Stream(h.queued)|, |e.payload|;
    AcceptedIff(isn, n, e.at);
    ForwardAcknowledges(isn, h, e.sequence, e.payload, Has(e.flags, FIN));
    ExtendedPrefix(sent, e.payload, s);
  }

  lemma ExtendedPrefix(sent: Octets, more: Octets, s: Octets)
    requires sent <= s
    ensures sent + more <= s <==> |sent| + |more| <= |s| && s[|sent|..|sent| + |more|] == more
  {
    var n, k := |sent|, |more|;
    if n + k <= |s| {
      assert s[..n + k] == s[..n] + s[n..n + k];
      assert (sent + more)[n..] == more;
    }
  }

  const HEALTHY := Env(true, true, Accepted)

  /** The packet that carries one octet of the stream. */
  function OneOctet(s: Octets, isn: uint32, i: nat): Event
    requires i < |s|
  {
    Arrival(i, Advance(isn, 1 + i), ACK, [s[i]], HEALTHY)
  }

  /** The first `n` octets of the stream, one packet each. */
  function OctetByOctet(s: Octets, isn: uint32, n: nat): (r: seq<Event>)
    requires n <= |s|
    ensures |r| == n
  {
    if n == 0 then [] else OctetByOctet(s, isn, n - 1) + [OneOctet(s, isn, n - 1)]
  }

  lemma OneOctetIsTruthful(s: Octets, isn: uint32, i: nat)
    requires i < |s|
    ensures Truthful(s, isn, OneOctet(s, isn, i))
  {
    assert s[i..i + 1] == [s[i]];
  }

  lemma OneOctetGetsThrough(s: Octets, isn: uint32, h: History, i: nat)
    requires i < |s| && Acknowledges(isn, h) && !h.retired && !h.flow.localClosed && Stream(h.queued) == s[..i]
    ensures var g := Next(h, OneOctet(s, isn, i));
            Stream(g.queued) == s[..i + 1] && !g.retired && !g.flow.localClosed
  {
    OneOctetIsTruthful(s, isn, i);
    InOrderGetsThrough(s, isn, h, OneOctet(s, isn, i));
    assert s[..i] + [s[i]] == s[..i + 1];
  }

  /** A run in which the client's first `n` octets arrive in order has forwarded them. */
  lemma {:induction false} OctetByOctetForwards(s: Octets, isn: uint32, serverSequence: uint32, n: nat)
    requires n <= |s|
    ensures var h := After(Opened(isn, serverSequence), OctetByOctet(s, isn, n));
            Stream(h.queued) == s[..n] && !h.retired && !h.flow.localClosed
  {
    var f, events := Opened(isn, serverSequence), OctetByOctet(s, isn, n);
    if n > 0 {
      OctetByOctetForwards(s, isn, serverSequence, n - 1);
      assert events[..n - 1] == OctetByOctet(s, isn, n - 1);
      RunAcknowledges(isn, serverSequence, events[..n - 1]);
      OneOctetGetsThrough(s, isn, After(f, events[..n - 1]), n - 1);
    }
  }

  lemma {:induction false} OctetByOctetIsTruthful(s: Octets, isn: uint32, n: nat, i: nat)
    requires i < n <= |s|
    ensures Truthful(s, isn, OctetByOctet(s, isn, n)[i])
  {
    if i == n - 1 {
      OneOctetIsTruthful(s, isn, i);
    } else {
      OctetByOctetIsTruthful(s, isn, n - 1, i);
    }
  }

  lemma OldPacketIsForwarded(s: Octets, isn: uint32, h: History)
    requires |s| > WORD && s[0] != s[WORD] && Stream(h.queued) == s[..WORD]
    requires Acknowledges(isn, h) && !h.retired && !h.flow.localClosed
    ensures !Faithful(s, Next(h, OneOctet(s, isn, 0)))
  {
    OneOctetIsTruthful(s, isn, 0);
    assert s[0..1] == [s[0]] && s[WORD..WORD + 1] == [s[WORD]];
    StaleByTurns(s, isn, h, OneOctet(s, isn, 0));
  }

  /**
   * So a stream longer than the sequence space whose first octet differs from the one a turn later can be garbled: its
   * first 2^32 octets arrive in order, then its first octet once more, and all of these packets are truthful.
   */
  lemma OldPacketGarbles(s: Octets, isn: uint32, serverSequence: uint32)
    requires |s| > WORD && s[0] != s[WORD]
    ensures var events := OctetByOctet(s, isn, WORD) + [OneOctet(s, isn, 0)];
            && (forall i :: 0 <= i < |events| ==> Truthful(s, isn, events[i]))
            && !Faithful(s, After(Opened(isn, serverSequence), events))
  {
    var before := OctetByOctet(s, isn, WORD);
    var events := before + [OneOctet(s, isn, 0)];
    forall i | 0 <= i < |events| ensures Truthful(s, isn, events[i]) {
      OneOctetIsTruthful(s, isn, 0);
      if i < WORD {
        OctetByOctetIsTruthful(s, isn, WORD, i);
      }
    }
    OctetByOctetForwards(s, isn, serverSequence, WORD);
    RunAcknowledges(isn, serverSequence, before);
    assert events[..|events| - 1] == before;
    OldPacketIsForwarded(s, isn, After(Opened(isn, serverSequence), before));
  }
}
