/** What a client hears of the frames the relay sends it: the other direction of a flow. */
module RelayStream {
  import opened Bytes
  import opened IpPacket
  import opened Segments
  import opened TcpFlow
  import opened FlowTable
  import opened Relay
  import opened Preflight

  // ---------- one packet ----------

  /** The packet is for the client of this flow. */
  predicate Addressed(k: Tuple, p: Packet) {
    && p.source == k.target && p.target == k.client && p.segment.TcpSegment?
    && p.segment.sourcePort == k.targetPort && p.segment.targetPort == k.clientPort
  }

  /** A packet of this flow that starts at the expected number; a FIN takes one number. */
  function Listen(k: Tuple, before: Heard, p: Packet): Heard {
    if before.Heard? && Addressed(k, p) && p.segment.sequence == before.next
    then Heard(before.stream + p.segment.payload,
               Advance(before.next, |p.segment.payload| + if Has(p.segment.flags, FIN) then 1 else 0))
    else Heard.Broken
  }

  function ListenAll(k: Tuple, before: Heard, packets: seq<Emitted>): Heard {
    if packets == [] then before
    else Listen(k, ListenAll(k, before, packets[..|packets| - 1]), packets[|packets| - 1].packet)
  }

  lemma {:induction false} ListenConcat(k: Tuple, before: Heard, a: seq<Emitted>, b: seq<Emitted>)
    ensures ListenAll(k, before, a + b) == ListenAll(k, ListenAll(k, before, a), b)
    decreases |b|
  {
    if b == [] {
      assert a + b == a;
    } else {
      assert (a + b)[..|a + b| - 1] == a + b[..|b| - 1];
      ListenConcat(k, before, a, b[..|b| - 1]);
    }
  }

  // ---------- one stream frame ----------

  lemma PieceIsListened(f: FlowEntry, stream: Octets, payload: Octets, size: nat, i: nat, id: port, from: nat, n: nat)
    requires from == Start(i, size) <= |payload| && n == Min(from + size, |payload|)
    ensures Listen(f.tuple, Heard(stream + payload[..from], Advance(f.tcp.relayNext, from)),
                   StreamPacket(FlowOf(f), payload, size, i, id).packet)
            == Heard(stream + payload[..n], Advance(f.tcp.relayNext, n))
  {
    Extends(stream, payload, from, n);
    AdvanceTwice(f.tcp.relayNext, from, n - from);
  }

  lemma Extends(stream: Octets, payload: Octets, from: nat, n: nat)
    requires from <= n <= |payload|
    ensures (stream + payload[..from]) + payload[from..n] == stream + payload[..n]
  {
    assert payload[..from] + payload[from..n] == payload[..n];
  }

  lemma {:induction false} PiecesAreListened(f: FlowEntry, stream: Octets, payload: Octets, size: nat, count: nat,
                                             id: port)
    requires count > 0 && Start(count - 1, size) <= |payload|
    ensures var n := Min(Start(count, size), |payload|);
            ListenAll(f.tuple, Heard(stream, f.tcp.relayNext), StreamPackets(FlowOf(f), payload, size, count, id))
            == Heard(stream + payload[..n], Advance(f.tcp.relayNext, n))
    decreases count
  {
    var from, n := Start(count - 1, size), Min(Start(count, size), |payload|);
    PieceIsListened(f, stream, payload, size, count - 1, id, from, n);
    if count == 1 {
      assert stream + payload[..from] == stream;
    } else {
      StartGrows(count - 2, count - 1, size);
      PiecesAreListened(f, stream, payload, size, count - 1, id);
      assert Min(Start(count - 1, size), |payload|) == from;
    }
    LastPiece(f, Heard(stream, f.tcp.relayNext), payload, size, count, id);
  }

  lemma LastPiece(f: FlowEntry, start: Heard, payload: Octets, size: nat, count: nat, id: port)
    requires count > 0 && Start(count - 1, size) <= |payload| && (count > 1 ==> Start(count - 2, size) <= |payload|)
    ensures ListenAll(f.tuple, start, StreamPackets(FlowOf(f), payload, size, count, id))
            == Listen(f.tuple,
                      if count == 1 then start
                      else ListenAll(f.tuple, start, StreamPackets(FlowOf(f), payload, size, count - 1, id)),
                      StreamPacket(FlowOf(f), payload, size, count - 1, id).packet)
  {
    var packets := StreamPackets(FlowOf(f), payload, size, count, id);
    if count == 1 {
      assert packets[..0] == [];
    } else {
      assert packets[..count - 1] == StreamPackets(FlowOf(f), payload, size, count - 1, id);
    }
  }

  /** A stream frame is heard as its payload. */
  lemma DataIsHeard(c: Config, w: World, id: nat, payload: Octets, stream: Octets)
    requires id in w.tables.byId && HandleTcpData(c, w, id, payload).Handled?
    ensures var f, h := w.tables.byId[id], HandleTcpData(c, w, id, payload);
            id in h.world.tables.byId && h.world.tables.byId[id].tuple == f.tuple
            && ListenAll(f.tuple, Heard(stream, f.tcp.relayNext), h.packets)
               == Heard(stream + payload, h.world.tables.byId[id].tcp.relayNext)
  {
    var f := w.tables.byId[id];
    var layout := RelayTcpLayout(FlowOf(f), |payload|, c.maximumPacket, c.maximumLocal);
    PiecesAreListened(f, stream, payload, layout.size, layout.count, w.nextPacketID);
    assert payload[..|payload|] == payload;
  }

  /** A close is heard as the end of the stream: a normal one takes one number, an abnormal one resets the flow. */
  lemma CloseIsHeard(c: Config, w: World, id: nat, code: Option<nat>, proxyOk: bool, stream: Octets)
    requires id in w.tables.byId && w.tables.byId[id].kind.TcpStream? && HandleClose(c, w, id, code, proxyOk).Handled?
    ensures var f, h := w.tables.byId[id], HandleClose(c, w, id, code, proxyOk);
            var heard := ListenAll(f.tuple, Heard(stream, f.tcp.relayNext), h.packets);
            && heard.Heard? && heard.stream == stream
            && (id in h.world.tables.byId ==> heard.next == h.world.tables.byId[id].tcp.relayNext)
  {
    var f, h := w.tables.byId[id], HandleClose(c, w, id, code, proxyOk);
    if h.packets != [] {
      assert h.packets[..0] == [];
      assert stream + [] == stream;
      assert h.packets == [Emitted(TcpReply(f, CloseFlags(code.value)), w.nextPacketID)];
    }
  }

  // ---------- a batch ----------

  /** The frames that concern one TCP flow. */
  predicate Concerns(frame: RelayFrame, id: nat) {
    (frame.StreamFrame? || frame.DatagramFrame? || frame.FlowClose?) && frame.id == id
  }

  /** How far the relay has closed a flow: `Ended` leaves the client's side open, `Gone` removes the flow. */
  datatype Phase = Streaming | Ended | Gone

  /** Read from the frames alone: the first close decides. */
  function PhaseAfter(f: FlowEntry, frames: seq<RelayFrame>, id: nat): Phase {
    if frames == [] then if f.tcp.peerClosed then Ended else Streaming
    else
      var before, last := PhaseAfter(f, frames[..|frames| - 1], id), frames[|frames| - 1];
      if before.Streaming? && last.FlowClose? && last.id == id && last.code.Some?
      then if last.code.value == CLOSE_NORMAL && !f.tcp.localClosed then Ended else Gone
      else before
  }

  /** What the relay said on a flow before it closed it. */
  function Said(f: FlowEntry, frames: seq<RelayFrame>, id: nat): Octets {
    if frames == [] then []
    else
      var before, last := frames[..|frames| - 1], frames[|frames| - 1];
      Said(f, before, id) + if last.StreamFrame? && last.id == id
        && PhaseAfter(f, before, id).Streaming? then last.payload else []
  }

  /** A normal close takes a sequence number. */
  function EndOctets(f: FlowEntry, frames: seq<RelayFrame>, id: nat): nat {
    if PhaseAfter(f, frames, id).Ended? && !f.tcp.peerClosed then 1 else 0
  }

  /** The packets sent for a flow, in order. */
  function OwnPackets(c: Config, w: World, frames: seq<RelayFrame>, now: int, proxy: nat -> bool,
                      id: nat): seq<Emitted> {
    if frames == [] then []
    else
      var last := |frames| - 1;
      var before := HandleAll(c, w, frames[..last], now, proxy);
      var h := Handle(c, before.world, frames[last], now, proxy(last));
      OwnPackets(c, w, frames[..last], now, proxy, id)
      + if before.Sent? && h.Handled? && Concerns(frames[last], id) then h.packets else []
  }

  /** Frames of other flows, and answers to DNS queries, leave a flow's entry alone. */
  lemma OthersLeaveEntry(c: Config, w: World, frame: RelayFrame, now: int, proxyOk: bool, id: nat)
    requires id in w.tables.byId && !Concerns(frame, id) && Handle(c, w, frame, now, proxyOk).Handled?
    ensures var t := Handle(c, w, frame, now, proxyOk).world.tables;
            id in t.byId && t.byId[id] == w.tables.byId[id]
  {
  }

  /** The flow that began as `f` is in this phase. */
  predicate InPhase(f: FlowEntry, t: Tables, id: nat, phase: Phase) {
    if phase.Gone? then id !in t.byId
    else id in t.byId && RelaySide(f, t.byId[id]) && (t.byId[id].tcp.peerClosed <==> phase.Ended?)
  }

  lemma ClosePhase(c: Config, f: FlowEntry, w: World, id: nat, code: Option<nat>, proxyOk: bool, phase: Phase)
    requires f.kind.TcpStream? && InPhase(f, w.tables, id, phase) && HandleClose(c, w, id, code, proxyOk).Handled?
    ensures InPhase(f, HandleClose(c, w, id, code, proxyOk).world.tables, id,
                    if phase.Streaming? && code.Some?
                    then if code.value == CLOSE_NORMAL && !f.tcp.localClosed then Ended else Gone
                    else phase)
  {
  }

  lemma NoneReturns(c: Config, w: World, frame: RelayFrame, now: int, proxyOk: bool, id: nat)
    requires id !in w.tables.byId && Handle(c, w, frame, now, proxyOk).Handled?
    ensures id !in Handle(c, w, frame, now, proxyOk).world.tables.byId
  {
    HandleReaches(c, w, frame, now, proxyOk);
    ReachableIsRelayOnly(w.tables, Handle(c, w, frame, now, proxyOk).world.tables);
  }

  lemma EntryWasThere(c: Config, w: World, frame: RelayFrame, now: int, proxyOk: bool, id: nat)
    requires Handle(c, w, frame, now, proxyOk).Handled? && id in Handle(c, w, frame, now, proxyOk).world.tables.byId
    ensures id in w.tables.byId
  {
    if id !in w.tables.byId {
      NoneReturns(c, w, frame, now, proxyOk, id);
    }
  }

  lemma FramePhase(c: Config, f: FlowEntry, w: World, frame: RelayFrame, now: int, proxyOk: bool, id: nat, phase: Phase)
    requires f.kind.TcpStream? && InPhase(f, w.tables, id, phase) && Handle(c, w, frame, now, proxyOk).Handled?
    ensures InPhase(f, Handle(c, w, frame, now, proxyOk).world.tables, id,
                    if phase.Streaming? && frame.FlowClose? && frame.id == id && frame.code.Some?
                    then if frame.code.value == CLOSE_NORMAL && !f.tcp.localClosed then Ended else Gone
                    else phase)
  {
    if phase.Gone? {
      NoneReturns(c, w, frame, now, proxyOk, id);
    } else if !Concerns(frame, id) {
      OthersLeaveEntry(c, w, frame, now, proxyOk, id);
    } else if frame.FlowClose? {
      ClosePhase(c, f, w, id, frame.code, proxyOk, phase);
    }
  }

  /** The batch leaves the flow in the phase its frames say. */
  lemma {:induction false} BatchPhase(c: Config, w: World, frames: seq<RelayFrame>, now: int, proxy: nat -> bool,
                                      id: nat)
    requires id in w.tables.byId && w.tables.byId[id].kind.TcpStream? && HandleAll(c, w, frames, now, proxy).Sent?
    ensures var f := w.tables.byId[id];
            InPhase(f, HandleAll(c, w, frames, now, proxy).world.tables, id, PhaseAfter(f, frames, id))
    decreases |frames|
  {
    if frames != [] {
      var last := |frames| - 1;
      BatchPhase(c, w, frames[..last], now, proxy, id);
      var f := w.tables.byId[id];
      FramePhase(c, f, HandleAll(c, w, frames[..last], now, proxy).world, frames[last], now, proxy(last), id,
                 PhaseAfter(f, frames[..last], id));
    }
  }

  // ---------- what is heard ----------

  lemma FrameIsHeard(c: Config, w: World, frame: RelayFrame, now: int, proxyOk: bool, id: nat, stream: Octets)
    requires id in w.tables.byId && w.tables.byId[id].kind.TcpStream? && Handle(c, w, frame, now, proxyOk).Handled?
    requires Concerns(frame, id)
    ensures var f, h := w.tables.byId[id], Handle(c, w, frame, now, proxyOk);
            var heard := ListenAll(f.tuple, Heard(stream, f.tcp.relayNext), h.packets);
            && heard.Heard? && heard.stream == stream + (if frame.StreamFrame? then frame.payload else [])
            && (id in h.world.tables.byId ==> heard.next == h.world.tables.byId[id].tcp.relayNext)
            && (frame.StreamFrame? ==> !f.tcp.peerClosed)
  {
    if frame.StreamFrame? {
      DataIsHeard(c, w, id, frame.payload, stream);
    } else {
      CloseIsHeard(c, w, id, frame.code, proxyOk, stream);
      assert stream + [] == stream;
    }
  }

  lemma GoneIsSilent(c: Config, w: World, frame: RelayFrame, now: int, proxyOk: bool, id: nat)
    requires id !in w.tables.byId && Concerns(frame, id) && Handle(c, w, frame, now, proxyOk).Handled?
    ensures Handle(c, w, frame, now, proxyOk).packets == []
  {
  }

  /** What the client has heard by the time the tables are `t`. */
  ghost predicate Hears(f: FlowEntry, heard: Heard, said: Octets, t: Tables, id: nat) {
    heard.Heard? && heard.stream == said && (id in t.byId ==> heard.next == t.byId[id].tcp.relayNext)
  }

  lemma StepIsHeard(c: Config, f: FlowEntry, w: World, frame: RelayFrame, now: int, proxyOk: bool, id: nat,
                    phase: Phase,
                    heard: Heard, said: Octets)
    requires f.kind.TcpStream? && InPhase(f, w.tables, id, phase) && Handle(c, w, frame, now, proxyOk).Handled?
    requires Hears(f, heard, said, w.tables, id)
    ensures var h := Handle(c, w, frame, now, proxyOk);
            Hears(f, ListenAll(f.tuple, heard, if Concerns(frame, id) then h.packets else []),
                  said + (if frame.StreamFrame? && frame.id == id && phase.Streaming? then frame.payload else []),
                  h.world.tables, id)
  {
    assert said + [] == said;
    if phase.Gone? {
      NoneReturns(c, w, frame, now, proxyOk, id);
      if Concerns(frame, id) {
        GoneIsSilent(c, w, frame, now, proxyOk, id);
      }
    } else if Concerns(frame, id) {
      FrameIsHeard(c, w, frame, now, proxyOk, id, said);
    } else {
      OthersLeaveEntry(c, w, frame, now, proxyOk, id);
    }
  }

  lemma {:induction false} OwnIsHeard(c: Config, w: World, frames: seq<RelayFrame>, now: int, proxy: nat -> bool,
                                      id: nat)
    requires id in w.tables.byId && w.tables.byId[id].kind.TcpStream? && HandleAll(c, w, frames, now, proxy).Sent?
    ensures var f := w.tables.byId[id];
            Hears(f, ListenAll(f.tuple, Heard([], f.tcp.relayNext), OwnPackets(c, w, frames, now, proxy, id)),
                  Said(f, frames, id), HandleAll(c, w, frames, now, proxy).world.tables, id)
    decreases |frames|
  {
    if frames != [] {
      var last := |frames| - 1;
      var f := w.tables.byId[id];
      var start := Heard([], f.tcp.relayNext);
      OwnIsHeard(c, w, frames[..last], now, proxy, id);
      BatchPhase(c, w, frames[..last], now, proxy, id);
      var b := HandleAll(c, w, frames[..last], now, proxy);
      var own := OwnPackets(c, w, frames[..last], now, proxy, id);
      StepIsHeard(c, f, b.world, frames[last], now, proxy(last), id, PhaseAfter(f, frames[..last], id),
                  ListenAll(f.tuple, start, own), Said(f, frames[..last], id));
      ListenConcat(f.tuple, start, own,
                   if Concerns(frames[last], id) then Handle(c, b.world, frames[last], now, proxy(last)).packets
                   else []);
    }
  }

  // ---------- a flow's packets among all that are sent ----------

  /** The packets for the client of this flow, in the order in which they are sent. */
  function Mine(k: Tuple, packets: seq<Emitted>): seq<Emitted> {
    if packets == [] then []
    else
      var last := packets[|packets| - 1];
      Mine(k, packets[..|packets| - 1]) + if Addressed(k, last.packet) then [last] else []
  }

  lemma {:induction false} MineConcat(k: Tuple, a: seq<Emitted>, b: seq<Emitted>)
    ensures Mine(k, a + b) == Mine(k, a) + Mine(k, b)
    decreases |b|
  {
    if b == [] {
      assert a + b == a;
    } else {
      assert (a + b)[..|a + b| - 1] == a + b[..|b| - 1];
      MineConcat(k, a, b[..|b| - 1]);
    }
  }

  lemma {:induction false} AllMine(k: Tuple, packets: seq<Emitted>)
    requires forall i :: 0 <= i < |packets| ==> Addressed(k, packets[i].packet)
    ensures Mine(k, packets) == packets
    decreases |packets|
  {
    if packets != [] {
      AllMine(k, packets[..|packets| - 1]);
      assert packets[..|packets| - 1] + [packets[|packets| - 1]] == packets;
    }
  }

  lemma {:induction false} NoneMine(k: Tuple, packets: seq<Emitted>)
    requires forall i :: 0 <= i < |packets| ==> !Addressed(k, packets[i].packet)
    ensures Mine(k, packets) == []
    decreases |packets|
  {
    if packets != [] {
      NoneMine(k, packets[..|packets| - 1]);
    }
  }

  /** Whatever a frame for a TCP flow sends goes to that flow's client. */
  lemma FrameIsAddressed(c: Config, w: World, frame: RelayFrame, now: int, proxyOk: bool, id: nat)
    requires id in w.tables.byId && w.tables.byId[id].kind.TcpStream?
    requires Concerns(frame, id) && Handle(c, w, frame, now, proxyOk).Handled?
    ensures var packets := Handle(c, w, frame, now, proxyOk).packets;
            forall i :: 0 <= i < |packets| ==> Addressed(w.tables.byId[id].tuple, packets[i].packet)
  {
  }

  /** Datagrams and answers are no TCP packets. */
  lemma DatagramsAreNotAddressed(c: Config, w: World, frame: RelayFrame, now: int, proxyOk: bool, k: Tuple)
    requires Handle(c, w, frame, now, proxyOk).Handled?
    requires (frame.StreamFrame? || frame.DatagramFrame? || frame.FlowClose?) && frame.id in w.tables.byId ==>
               w.tables.byId[frame.id].kind.UdpAssociation?
    ensures var packets := Handle(c, w, frame, now, proxyOk).packets;
            forall i :: 0 <= i < |packets| ==> !Addressed(k, packets[i].packet)
  {
  }

  lemma OthersAreNotAddressed(c: Config, w: World, frame: RelayFrame, now: int, proxyOk: bool, k: Tuple)
    requires k.protocol == TCP && ValidTables(w.tables) && Handle(c, w, frame, now, proxyOk).Handled?
    requires (frame.StreamFrame? || frame.DatagramFrame? || frame.FlowClose?) && frame.id in w.tables.byId ==>
               w.tables.byId[frame.id].tuple != k
    ensures var packets := Handle(c, w, frame, now, proxyOk).packets;
            forall i :: 0 <= i < |packets| ==> !Addressed(k, packets[i].packet)
  {
    if (frame.StreamFrame? || frame.DatagramFrame? || frame.FlowClose?) && frame.id in w.tables.byId
       && w.tables.byId[frame.id].kind.TcpStream? {
      FrameIsAddressed(c, w, frame, now, proxyOk, frame.id);
      assert ValidEntry(w.tables.byId[frame.id]);
    } else {
      DatagramsAreNotAddressed(c, w, frame, now, proxyOk, k);
    }
  }

  lemma {:induction false} KindStays(c: Config, w: World, frames: seq<RelayFrame>, now: int, proxy: nat -> bool,
                                     id: nat)
    requires id in HandleAll(c, w, frames, now, proxy).world.tables.byId
    ensures id in w.tables.byId
    ensures RelaySide(w.tables.byId[id], HandleAll(c, w, frames, now, proxy).world.tables.byId[id])
    decreases |frames|
  {
    if frames != [] {
      var last := |frames| - 1;
      var b := HandleAll(c, w, frames[..last], now, proxy);
      if b.Sent? && Handle(c, b.world, frames[last], now, proxy(last)).Handled? {
        HandleReaches(c, b.world, frames[last], now, proxy(last));
        ReachableIsRelayOnly(b.world.tables, Handle(c, b.world, frames[last], now, proxy(last)).world.tables);
      }
      KindStays(c, w, frames[..last], now, proxy, id);
    }
  }

  /** The packets that a frame adds for a flow are its own. */
  lemma FrameIsMine(c: Config, w: World, b: World, frame: RelayFrame, now: int, proxyOk: bool, id: nat)
    requires Inv(w.tables, c.maximumFlows) && ValidTables(w.tables) && ValidTables(b.tables)
    requires id in w.tables.byId && w.tables.byId[id].kind.TcpStream?
    requires RelayOnly(w.tables, b.tables) && Handle(c, b, frame, now, proxyOk).Handled?
    ensures var h := Handle(c, b, frame, now, proxyOk);
            Mine(w.tables.byId[id].tuple, h.packets) == if Concerns(frame, id) then h.packets else []
  {
    var k, packets := w.tables.byId[id].tuple, Handle(c, b, frame, now, proxyOk).packets;
    if !Concerns(frame, id) {
      OthersAreNotAddressed(c, b, frame, now, proxyOk, k);
      NoneMine(k, packets);
    } else if id in b.tables.byId {
      FrameIsAddressed(c, b, frame, now, proxyOk, id);
      AllMine(k, packets);
    } else {
      GoneIsSilent(c, b, frame, now, proxyOk, id);
    }
  }

  lemma {:induction false} OwnIsMine(c: Config, w: World, frames: seq<RelayFrame>, now: int, proxy: nat -> bool,
                                     id: nat)
    requires Sound(c, w.tables) && id in w.tables.byId && w.tables.byId[id].kind.TcpStream?
    requires HandleAll(c, w, frames, now, proxy).Sent?
    ensures OwnPackets(c, w, frames, now, proxy, id)
            == Mine(w.tables.byId[id].tuple, HandleAll(c, w, frames, now, proxy).packets)
    decreases |frames|
  {
    if frames != [] {
      var last := |frames| - 1;
      var b := HandleAll(c, w, frames[..last], now, proxy);
      OwnIsMine(c, w, frames[..last], now, proxy, id);
      BatchKeeps(c, w, frames[..last], now, proxy);
      forall j | j in b.world.tables.byId
        ensures j in w.tables.byId && RelaySide(w.tables.byId[j], b.world.tables.byId[j]) {
        KindStays(c, w, frames[..last], now, proxy, j);
      }
      FrameIsMine(c, w, b.world, frames[last], now, proxy(last), id);
      MineConcat(w.tables.byId[id].tuple, b.packets, Handle(c, b.world, frames[last], now, proxy(last)).packets);
    }
  }

  /**
   * Whatever else a batch carries, those of its packets that are addressed to a flow's client are heard there as
   * exactly what the relay said on the flow until it closed it, contiguous with what was heard before; and as long as
   * the flow stays they leave the client expecting the relay's next octet.
   */
  lemma BatchIsHeard(c: Config, w: World, frames: seq<RelayFrame>, now: int, proxy: nat -> bool, id: nat)
    requires Sound(c, w.tables) && id in w.tables.byId && w.tables.byId[id].kind.TcpStream?
    requires HandleAll(c, w, frames, now, proxy).Sent?
    ensures var f, b := w.tables.byId[id], HandleAll(c, w, frames, now, proxy);
            var heard := ListenAll(f.tuple, Heard([], f.tcp.relayNext), Mine(f.tuple, b.packets));
            && heard.Heard? && heard.stream == Said(f, frames, id)
            && (id !in b.world.tables.byId <==> PhaseAfter(f, frames, id).Gone?)
            && (id in b.world.tables.byId ==> heard.next == b.world.tables.byId[id].tcp.relayNext)
  {
    OwnIsHeard(c, w, frames, now, proxy, id);
    OwnIsMine(c, w, frames, now, proxy, id);
    BatchPhase(c, w, frames, now, proxy, id);
  }

  // ---------- the relay's sequence number ----------

  /** How many numbers one frame takes on a flow. */
  function FrameOctets(phase: Phase, frame: RelayFrame, id: nat): nat {
    if !phase.Streaming? || !Concerns(frame, id) then 0
    else if frame.StreamFrame? then |frame.payload|
    else if frame.FlowClose? && frame.code.Some? then 1
    else 0
  }

  /** What the relay said and its end. */
  function SaidOctets(f: FlowEntry, frames: seq<RelayFrame>, id: nat): nat {
    |Said(f, frames, id)| + EndOctets(f, frames, id)
  }

  lemma OctetsAdd(f: FlowEntry, frames: seq<RelayFrame>, id: nat)
    requires frames != [] && !PhaseAfter(f, frames, id).Gone?
    ensures var last := |frames| - 1;
            SaidOctets(f, frames, id)
            == SaidOctets(f, frames[..last], id) + FrameOctets(PhaseAfter(f, frames[..last], id), frames[last], id)
  {
    EndedOnce(f, frames[..|frames| - 1], id);
  }

  lemma {:induction false} EndedOnce(f: FlowEntry, frames: seq<RelayFrame>, id: nat)
    ensures PhaseAfter(f, frames, id).Streaming? ==> !f.tcp.peerClosed
    decreases |frames|
  {
    if frames != [] {
      EndedOnce(f, frames[..|frames| - 1], id);
    }
  }

  lemma FrameMovesNumber(c: Config, f: FlowEntry, w: World, frame: RelayFrame, now: int, proxyOk: bool, id: nat,
                         phase: Phase,
                         n: nat, total: nat)
    requires f.kind.TcpStream? && InPhase(f, w.tables, id, phase) && Handle(c, w, frame, now, proxyOk).Handled?
    requires id in Handle(c, w, frame, now, proxyOk).world.tables.byId
    requires id in w.tables.byId && w.tables.byId[id].tcp.relayNext == Advance(f.tcp.relayNext, n)
    requires total == n + FrameOctets(phase, frame, id)
    ensures Handle(c, w, frame, now, proxyOk).world.tables.byId[id].tcp.relayNext == Advance(f.tcp.relayNext, total)
  {
    if Concerns(frame, id) {
      AdvanceTwice(f.tcp.relayNext, n, if frame.StreamFrame? then |frame.payload| else 1);
    } else {
      OthersLeaveEntry(c, w, frame, now, proxyOk, id);
    }
  }

  /** The number counts what the relay said and its end. */
  lemma {:induction false} NumberCountsSaid(c: Config, w: World, frames: seq<RelayFrame>, now: int, proxy: nat -> bool,
                                            id: nat)
    requires id in w.tables.byId && w.tables.byId[id].kind.TcpStream? && HandleAll(c, w, frames, now, proxy).Sent?
    requires id in HandleAll(c, w, frames, now, proxy).world.tables.byId
    ensures var f := w.tables.byId[id];
            HandleAll(c, w, frames, now, proxy).world.tables.byId[id].tcp.relayNext
            == Advance(f.tcp.relayNext, SaidOctets(f, frames, id))
    decreases |frames|
  {
    if frames != [] {
      var last := |frames| - 1;
      var f, b := w.tables.byId[id], HandleAll(c, w, frames[..last], now, proxy);
      var n, total := SaidOctets(f, frames[..last], id), SaidOctets(f, frames, id);
      BatchPhase(c, w, frames[..last], now, proxy, id);
      assert total == n + FrameOctets(PhaseAfter(f, frames[..last], id), frames[last], id) by {
        BatchPhase(c, w, frames, now, proxy, id);
        OctetsAdd(f, frames, id);
      }
      assert id in b.world.tables.byId by {
        EntryWasThere(c, b.world, frames[last], now, proxy(last), id);
      }
      NumberCountsSaid(c, w, frames[..last], now, proxy, id);
      FrameMovesNumber(c, f, b.world, frames[last], now, proxy(last), id, PhaseAfter(f, frames[..last], id), n, total);
    }
  }

  /** Every packet carries at most so many octets, and so does the batch. */
  lemma {:induction false} SaidIsBounded(c: Config, w: World, frames: seq<RelayFrame>, now: int, proxy: nat -> bool,
                                         id: nat)
    requires ValidConfig(c) && id in w.tables.byId && w.tables.byId[id].kind.TcpStream?
    requires HandleAll(c, w, frames, now, proxy).Sent?
    ensures |Said(w.tables.byId[id], frames, id)| <= 65535 * |HandleAll(c, w, frames, now, proxy).packets|
    ensures |HandleAll(c, w, frames, now, proxy).packets| <= c.maximumLocal
    decreases |frames|
  {
    if frames != [] {
      var last := |frames| - 1;
      var b := HandleAll(c, w, frames[..last], now, proxy);
      SaidIsBounded(c, w, frames[..last], now, proxy, id);
      BatchPhase(c, w, frames[..last], now, proxy, id);
      FrameIsBounded(c, w.tables.byId[id], b.world, frames[last], now, proxy(last), id,
                     PhaseAfter(w.tables.byId[id], frames[..last], id));
    }
  }

  lemma FrameIsBounded(c: Config, f: FlowEntry, w: World, frame: RelayFrame, now: int, proxyOk: bool, id: nat,
                       phase: Phase)
    requires ValidConfig(c) && f.kind.TcpStream? && InPhase(f, w.tables, id, phase)
             && Handle(c, w, frame, now, proxyOk).Handled?
    ensures frame.StreamFrame? && frame.id == id && phase.Streaming? ==>
              |frame.payload| <= 65535 * |Handle(c, w, frame, now, proxyOk).packets|
  {
    if frame.StreamFrame? && frame.id == id && phase.Streaming? {
      PayloadIsBounded(c, w, id, frame.payload);
    }
  }

  lemma PayloadIsBounded(c: Config, w: World, id: nat, payload: Octets)
    requires ValidConfig(c) && id in w.tables.byId && HandleTcpData(c, w, id, payload).Handled?
    ensures |payload| <= 65535 * |HandleTcpData(c, w, id, payload).packets|
  {
    var layout := RelayTcpLayout(FlowOf(w.tables.byId[id]), |payload|, c.maximumPacket, c.maximumLocal);
    StartIsProduct(layout.count, layout.size);
    MulMonotone(layout.count, layout.size, 65535);
  }

  lemma MulMonotone(n: nat, a: nat, b: nat)
    requires a <= b
    ensures n * a <= n * b
  {
    assert n * b - n * a == n * (b - a);
  }

  lemma AdvanceMovesIff(start: uint32, n: nat)
    requires n < 0x1_0000_0000
    ensures Advance(start, n) != start <==> n > 0
  {
  }

  /** In a batch that is sent, a flow's number moves exactly when the relay says something on it or ends it. */
  lemma NumberMovesIff(c: Config, w: World, frames: seq<RelayFrame>, now: int, proxy: nat -> bool, id: nat)
    requires ValidConfig(c) && id in w.tables.byId && w.tables.byId[id].kind.TcpStream?
    requires HandleAll(c, w, frames, now, proxy).Sent? && id in HandleAll(c, w, frames, now, proxy).world.tables.byId
    ensures var f, g := w.tables.byId[id], HandleAll(c, w, frames, now, proxy).world.tables.byId[id];
            && g.tcp.relayNext == Advance(f.tcp.relayNext, SaidOctets(f, frames, id))
            && (g.tcp.relayNext != f.tcp.relayNext <==> SaidOctets(f, frames, id) > 0)
  {
    NumberCountsSaid(c, w, frames, now, proxy, id);
    SaidIsBounded(c, w, frames, now, proxy, id);
    AdvanceMovesIff(w.tables.byId[id].tcp.relayNext, SaidOctets(w.tables.byId[id], frames, id));
  }

  /**
   * A batch that the proxy stops at frame `n` sends nothing, yet a flow that survives it has had its number moved
   * exactly when the frames before `n` say something on it or end it, and by as much as they say.
   */
  lemma RefusalMovesNumbers(c: Config, w: World, frames: seq<RelayFrame>, now: int, proxy: nat -> bool,
                            id: nat) returns (n: nat)
    requires Sound(c, w.tables) && CheckAll(c, w.tables, frames, now).Some? && !Willing(c, w.tables, frames, now, proxy)
    requires id in w.tables.byId && w.tables.byId[id].kind.TcpStream?
    requires id in HandleAll(c, w, frames, now, proxy).world.tables.byId
    ensures n < |frames| && AsksAt(c, w.tables, frames, n, now) && !proxy(n)
    ensures Willing(c, w.tables, frames[..n], now, proxy) && StoppedBy(HandleAll(c, w, frames, now, proxy), ProxyError)
    ensures var f, g := w.tables.byId[id], HandleAll(c, w, frames, now, proxy).world.tables.byId[id];
            && g.tcp.relayNext == Advance(f.tcp.relayNext, SaidOctets(f, frames[..n], id))
            && (g.tcp.relayNext != f.tcp.relayNext <==> SaidOctets(f, frames[..n], id) > 0)
  {
    n := RefusalKeepsEarlierFrames(c, w, frames, now, proxy);
    NumberMovesIff(c, w, frames[..n], now, proxy, id);
  }

  // ---------- datagrams and answers ----------

  /** An emitted packet is read by any IP stack, this adapter's own parser for one, as the packet that was meant. */
  lemma EmittedParses(c: Config, p: Packet, id: port)
    requires Fits(c, p, id) && p.segment.sourcePort > 0 && p.segment.targetPort > 0
    ensures Parse(Build(p, id).value, c.maximumPacket) == Ok(p)
  {
    BuildParsesBack(p, id, c.maximumPacket);
  }

  /**
   * A relayed datagram that fits reaches its client whole, from the address the client sent to; a larger one is
   * dropped.
   */
  lemma DatagramIsDelivered(c: Config, w: World, id: nat, payload: Octets, now: int)
    requires Sound(c, w.tables) && id in w.tables.byId
    ensures var k, h := w.tables.byId[id].tuple, HandleUdpData(c, w, id, payload, now);
            h.Handled? &&
            if |payload| > MaximumUdp(c, k.client) then h.packets == [] && h.world == w
            else |h.packets| == 1 && Fits(c, h.packets[0].packet, h.packets[0].id)
                 && Parse(Build(h.packets[0].packet, h.packets[0].id).value, c.maximumPacket)
                    == Ok(Packet(k.target, k.client, UdpSegment(k.targetPort, k.clientPort, payload)))
  {
    var k := w.tables.byId[id].tuple;
    if |payload| <= MaximumUdp(c, k.client) {
      UdpFits(c, k.client, k.target, k.clientPort, k.targetPort, payload, w.nextPacketID);
      EmittedParses(c, UdpReply(k.client, k.target, k.clientPort, k.targetPort, payload), w.nextPacketID);
    }
  }

  /** The answer to a pending query reaches the asker once: the request is gone afterwards. */
  lemma AnswerIsDelivered(c: Config, w: World, id: nat, payload: Octets, now: int)
    requires Sound(c, w.tables) && id in w.tables.dns && now < w.tables.dns[id].expiresAt
    requires DnsMatches(payload, w.tables.dns[id].transactionID)
    ensures var d, h := w.tables.dns[id], HandleDns(c, w, id, payload, now);
            h.Handled? && id !in h.world.tables.dns &&
            if |payload| > MaximumUdp(c, d.client) then h.packets == []
            else |h.packets| == 1 && Fits(c, h.packets[0].packet, h.packets[0].id)
                 && Parse(Build(h.packets[0].packet, h.packets[0].id).value, c.maximumPacket)
                    == Ok(Packet(d.target, d.client, UdpSegment(d.targetPort, d.clientPort, payload)))
  {
    var d := w.tables.dns[id];
    if |payload| <= MaximumUdp(c, d.client) {
      UdpFits(c, d.client, d.target, d.clientPort, d.targetPort, payload, w.nextPacketID);
      EmittedParses(c, UdpReply(d.client, d.target, d.clientPort, d.targetPort, payload), w.nextPacketID);
    }
  }
}
