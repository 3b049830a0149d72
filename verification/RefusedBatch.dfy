/** A relay batch that the proxy stops half-way, in a state that the adapter reaches. */
module RefusedBatch {
  import opened Bytes
  import opened Segments
  import TcpFlow
  import opened FlowTable
  import opened Relay
  import opened Preflight
  import opened RelayStream
  import opened AdapterRuns

  // ---------- the batch ----------

  /** A stream whose relay side is open, and an association. */
  predicate HasTwoFlows(t: Tables, stream: nat, association: nat) {
    && stream in t.byId && t.byId[stream].kind.TcpStream? && !t.byId[stream].tcp.peerClosed
    && association in t.byId && t.byId[association].kind.UdpAssociation?
  }

  /** One octet on the stream, then the confirmation of the association. */
  function OctetThenConfirm(stream: nat, association: nat, x: byte): seq<RelayFrame> {
    [StreamFrame(stream, [x]), TargetConfirm(association)]
  }

  lemma OneOctetLayout(f: Flow, maximumPacket: nat, maximumLocal: nat)
    requires HeaderOctets(f) < maximumPacket && maximumLocal > 0
    ensures RelayTcpLayout(f, 1, maximumPacket, maximumLocal) == Layout(maximumPacket - HeaderOctets(f), 1)
  {
  }

  lemma FirstFramePasses(c: Config, t: Tables, first: seq<RelayFrame>, stream: nat, x: byte, now: int)
    requires Sound(c, t) && stream in t.byId && t.byId[stream].kind.TcpStream? && !t.byId[stream].tcp.peerClosed
    requires first == [StreamFrame(stream, [x])]
    ensures CheckAll(c, t, first, now) == Some(Shadow(Life({}, {}, {}), 1))
  {
    assert first[..0] == [];
    OneOctetLayout(FlowOf(t.byId[stream]), c.maximumPacket, c.maximumLocal);
  }

  lemma BatchPasses(c: Config, t: Tables, frames: seq<RelayFrame>, stream: nat, association: nat, x: byte, now: int)
    requires Sound(c, t) && HasTwoFlows(t, stream, association) && frames == OctetThenConfirm(stream, association, x)
    ensures CheckAll(c, t, frames[..1], now) == Some(Shadow(Life({}, {}, {}), 1)) == CheckAll(c, t, frames, now)
    ensures AsksAt(c, t, frames, 1, now) && !AsksAt(c, t, frames, 0, now)
  {
    assert frames[..1] == [frames[0]];
    FirstFramePasses(c, t, frames[..1], stream, x, now);
  }

  lemma OneOctetSaid(f: FlowEntry, first: seq<RelayFrame>, stream: nat, x: byte)
    requires first == [StreamFrame(stream, [x])] && !f.tcp.peerClosed
    ensures PhaseAfter(f, first, stream).Streaming? && SaidOctets(f, first, stream) == 1
  {
    assert first[..0] == [];
    assert PhaseAfter(f, [], stream).Streaming?;
    assert Said(f, [], stream) + [x] == [x];
  }

  /**
   * In every consistent state with a stream and an association, a frame of one octet and a confirmation that the proxy
   * refuses: the check passes, nothing is sent, and the stream's number has moved by one.
   */
  lemma UnsentOctetMovesNumber(c: Config, w: World, frames: seq<RelayFrame>, stream: nat, association: nat, x: byte,
                               now: int, proxy: nat -> bool)
    requires Sound(c, w.tables) && HasTwoFlows(w.tables, stream, association)
    requires frames == OctetThenConfirm(stream, association, x) && !proxy(1)
    ensures CheckAll(c, w.tables, frames, now).Some?
    ensures var b := HandleAll(c, w, frames, now, proxy);
            && StoppedBy(b, ProxyError) && stream in b.world.tables.byId
            && b.world.tables.byId[stream].tcp.relayNext == Advance(w.tables.byId[stream].tcp.relayNext, 1)
            && b.world.tables.byId[stream].tcp.relayNext != w.tables.byId[stream].tcp.relayNext
  {
    BatchPasses(c, w.tables, frames, stream, association, x, now);
    var n := RefusalKeepsEarlierFrames(c, w, frames, now, proxy);
    assert n == 1;
    assert frames[..1] == [frames[0]];
    BatchPhase(c, w, frames[..1], now, proxy, stream);
    OneOctetSaid(w.tables.byId[stream], frames[..1], stream, x);
    NumberMovesIff(c, w, frames[..1], now, proxy, stream);
  }

  // ---------- a run that reaches such a state ----------

  const CALM := TcpEnv(TcpFlow.Env(true, true, TcpFlow.Accepted), true, 0)
  const CALM_UDP := UdpEnv(true, true, true, TcpFlow.Accepted)

  const ARRIVES := AdapterRuns.Begin(0, [], 0)

  function Syn(stream: Tuple): Event {
    Tcp(0, stream, 0, TcpFlow.SYN, [], CALM)
  }

  function Datagram(association: Tuple): Event {
    Udp(association, 0, CALM_UDP)
  }

  /** A new tuple gets an association under an unused identifier, and no flow changes. */
  lemma DatagramOpens(c: Config, t: Tables, tuple: Tuple, now: int)
    requires Sound(c, t) && tuple !in t.byTuple && Count(t) < c.maximumFlows
    ensures var n := UdpPacket(t, tuple, now, CALM_UDP, c.maximumFlows);
            && tuple in n.byTuple && n.byTuple[tuple] in n.byId && n.byTuple[tuple] !in t.byId
            && n.byId[n.byTuple[tuple]] == FlowEntry(tuple, UdpAssociation, TcpFlow.TcpState(0, 0, false, false), now)
            && (forall id :: id in t.byId ==> id in n.byId && n.byId[id] == t.byId[id])
  {
    AllocateNeverFails(t, c.maximumFlows);
    var entry := FlowEntry(tuple, UdpAssociation, TcpFlow.TcpState(0, 0, false, false), now);
    assert UdpPacket(t, tuple, now, CALM_UDP, c.maximumFlows) == Open(t, entry, true, c.maximumFlows);
  }

  lemma OneMore(c: Config, w: World, events: seq<Event>, e: Event)
    requires ValidRun(c, w, events) && Enabled(After(c, w, events), e)
    ensures ValidRun(c, w, events + [e]) && After(c, w, events + [e]) == Step(c, After(c, w, events), e)
  {
    assert (events + [e])[..|events + [e]| - 1] == events;
  }

  /** A local packet arrives while no association is idle and no close is pending. */
  lemma PacketArrives(c: Config, w: World)
    requires w.tables.pending == [] && (forall id :: id in w.tables.byId ==> !Idle(w.tables.byId[id], 0))
    ensures Enabled(w, ARRIVES) && Step(c, w, ARRIVES).tables == w.tables.(admitted := true)
  {
    assert Closes([]) == [];
    assert w.tables.pending + [] == [];
  }

  /** The SYN gives the stream an open flow. */
  lemma SynArrives(c: Config, w: World, stream: Tuple)
    requires Sound(c, w.tables) && w.tables.byId == map[] && w.tables.dns == map[] && w.tables.pending == []
    requires w.tables.admitted && ValidTcp(stream)
    ensures var e := Syn(stream);
            && Enabled(w, e)
            && var n := Step(c, w, e).tables;
            && stream in n.byTuple && n.byTuple[stream] in n.byId && n.pending == [] && Count(n) == 1
            && n.byId[n.byTuple[stream]].kind.TcpStream? && !n.byId[n.byTuple[stream]].tcp.peerClosed
            && (forall id :: id in n.byId ==> !Idle(n.byId[id], 0)) && (forall k :: k in n.byTuple ==> k == stream)
  {
    assert forall k :: k in w.tables.byTuple ==> w.tables.byTuple[k] in w.tables.byId;
    assert w.tables.byTuple == map[];
    SynOpens(c, w.tables, stream, 0, TcpFlow.SYN, CALM);
    OneFlow(c, w.tables, stream);
  }

  lemma OneFlow(c: Config, t: Tables, stream: Tuple)
    requires Sound(c, t) && t.byId == map[] && t.byTuple == map[] && t.dns == map[]
    ensures var n := TcpPacket(t, stream, 0, TcpFlow.SYN, [], CALM, c.maximumFlows);
            && n.byTuple.Keys <= {stream} && |n.byId| <= 1 && n.dns == map[] && n.pending == t.pending
            && (forall id :: id in n.byId ==> n.byId[id].kind.TcpStream?)
  {
    AllocateNeverFails(t, c.maximumFlows);
  }

  /** And the datagram an association beside it. */
  lemma DatagramArrives(c: Config, w: World, stream: Tuple, association: Tuple)
    requires Sound(c, w.tables) && Count(w.tables) == 1 && c.maximumFlows >= 2 && w.tables.admitted
    requires stream in w.tables.byTuple && w.tables.byTuple[stream] in w.tables.byId
    requires var f := w.tables.byId[w.tables.byTuple[stream]]; f.kind.TcpStream? && !f.tcp.peerClosed
    requires association !in w.tables.byTuple && ValidUdp(association) && association.targetPort != DNS_PORT
    ensures var e := Datagram(association);
            && Enabled(w, e)
            && var n := Step(c, w, e).tables;
               association in n.byTuple && HasTwoFlows(n, w.tables.byTuple[stream], n.byTuple[association])
  {
    DatagramOpens(c, w.tables, association, 0);
  }

  /** From an empty adapter, a SYN and a datagram lead to a state with a stream and an association. */
  lemma TwoFlowsAreReached(c: Config, nextFlowID: nat, stream: Tuple, association: Tuple)
      returns (events: seq<Event>, id: nat, other: nat)
    requires ValidConfig(c) && c.maximumFlows >= 2 && ValidId(nextFlowID)
    requires ValidTcp(stream) && ValidUdp(association) && association.targetPort != DNS_PORT
    ensures ValidRun(c, Initial(nextFlowID), events)
    ensures var w := After(c, Initial(nextFlowID), events); Sound(c, w.tables) && HasTwoFlows(w.tables, id, other)
  {
    var w0 := Initial(nextFlowID);
    events := [];
    PacketArrives(c, w0);
    OneMore(c, w0, events, ARRIVES);
    events := events + [ARRIVES];
    RunKeeps(c, w0, events);
    SynArrives(c, After(c, w0, events), stream);
    OneMore(c, w0, events, Syn(stream));
    events := events + [Syn(stream)];
    PacketArrives(c, After(c, w0, events));
    OneMore(c, w0, events, ARRIVES);
    events := events + [ARRIVES];
    RunKeeps(c, w0, events);
    var w3 := After(c, w0, events);
    DatagramArrives(c, w3, stream, association);
    OneMore(c, w0, events, Datagram(association));
    events := events + [Datagram(association)];
    RunKeeps(c, w0, events);
    id, other := w3.tables.byTuple[stream], After(c, w0, events).tables.byTuple[association];
  }
}
