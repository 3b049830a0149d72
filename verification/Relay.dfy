/** Frames from the relay: how each changes the tables and what packets it sends to the local tunnel. */
module Relay {
  import opened Bytes
  import opened IpPacket
  import opened Segments
  import opened TcpFlow
  import opened FlowTable

  const MAX_DNS_MESSAGE: nat := 4096

  datatype Config = Config(maximumFlows: nat, maximumPacket: nat, maximumLocal: nat, udpOverStream: bool)

  predicate ValidConfig(c: Config) {
    1 <= c.maximumFlows <= 4096 && 128 <= c.maximumPacket <= 65535 && 1 <= c.maximumLocal <= 4096
  }

  /** `code` is the close code of a well-formed close that names its own flow. */
  datatype RelayFrame =
    | Padding
    | DnsMessage(id: nat, payload: Octets)
    | TargetConfirm(id: nat)
    | FlowClose(id: nat, code: Option<nat>)
    | StreamFrame(id: nat, payload: Octets)
    | DatagramFrame(id: nat, payload: Octets)
    | OtherFrame

  /** A packet for the local tunnel with its identifier. */
  datatype Emitted = Emitted(packet: Packet, id: port)

  datatype World = World(tables: Tables, nextPacketID: port)

  /** `ProxyRefused` is the proxy's own error; `Invalid` covers every check of the adapter. */
  datatype Handled = Handled(world: World, packets: seq<Emitted>) | ProxyRefused | Invalid

  // ---------- packets ----------

  function FlowOf(f: FlowEntry): Flow {
    Flow(f.tuple.client, f.tuple.target, f.tuple.clientPort, f.tuple.targetPort, f.tcp.clientNext, f.tcp.relayNext)
  }

  /** A TCP flow is found by TCP packets only, an association by UDP datagrams. */
  predicate ValidEntry(f: FlowEntry) {
    ValidFlow(FlowOf(f)) && f.tuple.protocol == if f.kind.TcpStream? then TCP else UDP
  }

  predicate ValidDns(d: Dns) {
    ValidAddr(d.client) && ValidAddr(d.target) && d.client.V4? == d.target.V4? && d.clientPort > 0 && d.targetPort > 0
  }

  predicate ValidTables(t: Tables) {
    && (forall id :: id in t.byId ==> ValidEntry(t.byId[id]))
    && (forall id :: id in t.dns ==> ValidDns(t.dns[id]))
  }

  /** Built, and within the packet limit. */
  predicate Fits(c: Config, p: Packet, id: port) {
    && ValidAddr(p.source) && ValidAddr(p.target) && Build(p, id).Some?
    && 0 < |Build(p, id).value| <= c.maximumPacket
  }

  function TcpReply(f: FlowEntry, flags: byte): Packet {
    Packet(f.tuple.target, f.tuple.client,
           TcpSegment(f.tuple.targetPort, f.tuple.clientPort, f.tcp.relayNext, f.tcp.clientNext, flags, []))
  }

  function UdpReply(client: Addr, target: Addr, clientPort: port, targetPort: port, payload: Octets): Packet {
    Packet(target, client, UdpSegment(targetPort, clientPort, payload))
  }

  function MaximumUdp(c: Config, a: Addr): int {
    c.maximumPacket - if a.V4? then 28 else 48
  }

  function Emit(c: Config, w: World, p: Packet, tables: Tables): Handled {
    if Fits(c, p, w.nextPacketID) then Handled(World(tables, Id(w.nextPacketID, 1)), [Emitted(p, w.nextPacketID)])
    else Invalid
  }

  function Quiet(w: World, tables: Tables): Handled {
    Handled(w.(tables := tables), [])
  }

  // ---------- the handlers ----------

  predicate DnsMatches(payload: Octets, transactionID: port) {
    && 12 <= |payload| <= MAX_DNS_MESSAGE && payload[2] / 128 == 1 && payload[2] / 8 % 16 == 0
    && DecodeBE(payload[..2]) == transactionID && DecodeBE(payload[4..6]) == 1
  }

  function WithoutDns(t: Tables, id: nat): Tables {
    t.(dns := t.dns - {id})
  }

  function HandleDns(c: Config, w: World, id: nat, payload: Octets, now: int): Handled {
    var t := w.tables;
    if id !in t.dns then Quiet(w, t)
    else
      var d := t.dns[id];
      if now >= d.expiresAt then Quiet(w, WithoutDns(t, id))
      else if !DnsMatches(payload, d.transactionID) then Invalid
      else if |payload| > MaximumUdp(c, d.client) then Quiet(w, WithoutDns(t, id))
      else Emit(c, w, UdpReply(d.client, d.target, d.clientPort, d.targetPort, payload), WithoutDns(t, id))
  }

  function HandleConfirm(w: World, id: nat, proxyOk: bool): Handled {
    var t := w.tables;
    if id !in t.byId then Quiet(w, t)
    else if t.byId[id].kind.TcpStream? then Invalid
    else if !proxyOk then ProxyRefused
    else Quiet(w, t)
  }

  function CloseFlags(code: nat): byte {
    ACK + if code == CLOSE_NORMAL then FIN else RST
  }

  function Closed(f: FlowEntry): FlowEntry {
    f.(tcp := f.tcp.(peerClosed := true, relayNext := Advance(f.tcp.relayNext, 1)))
  }

  function AfterClose(t: Tables, id: nat, code: nat): Tables
    requires id in t.byId
  {
    var f := t.byId[id];
    if f.kind.UdpAssociation? || code != CLOSE_NORMAL || f.tcp.localClosed then Remove(t, id)
    else Update(t, id, Closed(f))
  }

  function HandleClose(c: Config, w: World, id: nat, code: Option<nat>, proxyOk: bool): Handled {
    var t := w.tables;
    if id !in t.byId || t.byId[id].tcp.peerClosed then Quiet(w, t)
    else if code.None? then Invalid
    else
      var f := t.byId[id];
      if !proxyOk && !f.tcp.localClosed then ProxyRefused
      else if f.kind.UdpAssociation? then Quiet(w, AfterClose(t, id, code.value))
      else Emit(c, w, TcpReply(f, CloseFlags(code.value)), AfterClose(t, id, code.value))
  }

  function StreamPackets(f: Flow, payload: Octets, size: nat, count: nat, id: port): seq<Emitted>
    requires count > 0 && Start(count - 1, size) <= |payload|
  {
    seq(count, i requires 0 <= i < count => StreamPacket(f, payload, size, i, id))
  }

  function StreamPacket(f: Flow, payload: Octets, size: nat, i: nat, id: port): Emitted {
    Emitted(PieceAt(f, payload, size, Min(Start(i, size), |payload|)), Id(id, i))
  }

  function HandleTcpData(c: Config, w: World, id: nat, payload: Octets): Handled
    requires id in w.tables.byId
  {
    var f := w.tables.byId[id];
    var layout := RelayTcpLayout(FlowOf(f), |payload|, c.maximumPacket, c.maximumLocal);
    if layout.NoLayout? then Invalid
    else
      var packets := StreamPackets(FlowOf(f), payload, layout.size, layout.count, w.nextPacketID);
      if exists i :: 0 <= i < |packets| && !Fits(c, packets[i].packet, packets[i].id) then Invalid
      else
        var after := f.(tcp := f.tcp.(relayNext := Advance(f.tcp.relayNext, |payload|)));
        Handled(World(Update(w.tables, id, after), Id(w.nextPacketID, layout.count)), packets)
  }

  function HandleUdpData(c: Config, w: World, id: nat, payload: Octets, now: int): Handled
    requires id in w.tables.byId
  {
    var f := w.tables.byId[id];
    if |payload| > MaximumUdp(c, f.tuple.client) then Quiet(w, w.tables)
    else
      Emit(c, w, UdpReply(f.tuple.client, f.tuple.target, f.tuple.clientPort, f.tuple.targetPort, payload),
           Update(w.tables, id, f.(lastActivity := now)))
  }

  function HandleData(c: Config, w: World, id: nat, payload: Octets, stream: bool, now: int): Handled {
    if id !in w.tables.byId then Quiet(w, w.tables)
    else
      var f := w.tables.byId[id];
      if f.tcp.peerClosed then Invalid
      else if f.kind.TcpStream? then if stream then HandleTcpData(c, w, id, payload) else Invalid
      else if stream && !c.udpOverStream then Invalid
      else HandleUdpData(c, w, id, payload, now)
  }

  function Handle(c: Config, w: World, frame: RelayFrame, now: int, proxyOk: bool): Handled {
    match frame
    case Padding => Quiet(w, w.tables)
    case DnsMessage(id, payload) => HandleDns(c, w, id, payload, now)
    case TargetConfirm(id) => HandleConfirm(w, id, proxyOk)
    case FlowClose(id, code) => HandleClose(c, w, id, code, proxyOk)
    case StreamFrame(id, payload) => HandleData(c, w, id, payload, true, now)
    case DatagramFrame(id, payload) => HandleData(c, w, id, payload, false, now)
    case OtherFrame => Invalid
  }

  // ---------- what the handlers keep ----------

  predicate Sound(c: Config, t: Tables) {
    ValidConfig(c) && Inv(t, c.maximumFlows) && ValidTables(t)
  }

  lemma UdpFits(c: Config, client: Addr, target: Addr, clientPort: port, targetPort: port, payload: Octets, id: port)
    requires ValidConfig(c) && ValidAddr(client) && ValidAddr(target) && client.V4? == target.V4?
    requires |payload| <= MaximumUdp(c, client)
    ensures Fits(c, UdpReply(client, target, clientPort, targetPort, payload), id)
  {
    var p := UdpReply(client, target, clientPort, targetPort, payload);
    assert |BuildSegment(p).value| == 8 + |payload|;
  }

  lemma TcpReplyFits(c: Config, f: FlowEntry, flags: byte, id: port)
    requires ValidConfig(c) && ValidEntry(f)
    ensures Fits(c, TcpReply(f, flags), id)
  {
    assert |BuildSegment(TcpReply(f, flags)).value| == 20;
  }

  lemma StreamFits(c: Config, f: FlowEntry, payload: Octets, size: nat, i: nat, id: port)
    requires ValidConfig(c) && ValidEntry(f) && HeaderOctets(FlowOf(f)) + size == c.maximumPacket
    ensures var e := StreamPacket(FlowOf(f), payload, size, i, id); Fits(c, e.packet, e.id)
  {
    PieceBuilds(FlowOf(f), payload, size, Min(Start(i, size), |payload|), Id(id, i), c.maximumPacket);
  }

  lemma DropDnsKeeps(c: Config, t: Tables, id: nat)
    requires Sound(c, t)
    ensures Sound(c, WithoutDns(t, id))
  {
    assert (t.dns - {id}).Keys == t.dns.Keys - {id};
  }

  lemma AfterCloseKeeps(c: Config, t: Tables, id: nat, code: nat)
    requires Sound(c, t) && id in t.byId
    ensures Sound(c, AfterClose(t, id, code))
  {
    RemoveKeepsInv(t, id, c.maximumFlows);
    UpdateKeeps(c, t, id, Closed(t.byId[id]));
  }

  lemma UpdateKeeps(c: Config, t: Tables, id: nat, f: FlowEntry)
    requires Sound(c, t) && id in t.byId && f.tuple == t.byId[id].tuple && f.kind == t.byId[id].kind
    ensures Sound(c, Update(t, id, f))
  {
    UpdateKeepsInv(t, id, f, c.maximumFlows);
  }

  /** The tables a handler can leave behind. */
  ghost predicate Reachable(t: Tables, n: Tables) {
    || n == t
    || (exists id :: n == WithoutDns(t, id))
    || (exists id, code :: id in t.byId && n == AfterClose(t, id, code))
    || (exists id, f :: Changes(t, id, f) && n == Update(t, id, f))
  }

  predicate Changes(t: Tables, id: nat, f: FlowEntry) {
    id in t.byId && RelaySide(t.byId[id], f)
  }

  /** What the relay may do to a flow: move its own sequence number and close its own side. */
  predicate RelaySide(f: FlowEntry, g: FlowEntry) {
    && g.tuple == f.tuple && g.kind == f.kind
    && g.tcp.clientNext == f.tcp.clientNext && g.tcp.localClosed == f.tcp.localClosed
    && (f.tcp.peerClosed ==> g.tcp.peerClosed)
  }

  /** Flows that are still there have changed on the relay's side only, and none is new. */
  predicate RelayOnly(t: Tables, n: Tables) {
    forall id :: id in n.byId ==> id in t.byId && RelaySide(t.byId[id], n.byId[id])
  }

  lemma ReachableIsRelayOnly(t: Tables, n: Tables)
    requires Reachable(t, n)
    ensures RelayOnly(t, n)
  {
    if id :| n == WithoutDns(t, id) {
    } else if id, code :| id in t.byId && n == AfterClose(t, id, code) {
      CloseIsRelayOnly(t, id, code);
    } else if id, f :| Changes(t, id, f) && n == Update(t, id, f) {
    }
  }

  lemma CloseIsRelayOnly(t: Tables, id: nat, code: nat)
    requires id in t.byId
    ensures RelayOnly(t, AfterClose(t, id, code))
  {
  }

  lemma ReachableKeeps(c: Config, t: Tables, n: Tables)
    requires Sound(c, t) && Reachable(t, n)
    ensures Sound(c, n)
  {
    if id :| n == WithoutDns(t, id) {
      DropDnsKeeps(c, t, id);
    } else if id, code :| id in t.byId && n == AfterClose(t, id, code) {
      AfterCloseKeeps(c, t, id, code);
    } else if id, f :| Changes(t, id, f) && n == Update(t, id, f) {
      UpdateKeeps(c, t, id, f);
    }
  }

  lemma DataReaches(c: Config, w: World, id: nat, payload: Octets, stream: bool, now: int)
    requires HandleData(c, w, id, payload, stream, now).Handled?
    ensures Reachable(w.tables, HandleData(c, w, id, payload, stream, now).world.tables)
  {
    if id in w.tables.byId {
      var f := w.tables.byId[id];
      assert Changes(w.tables, id, f.(lastActivity := now));
      assert Changes(w.tables, id, f.(tcp := f.tcp.(relayNext := Advance(f.tcp.relayNext, |payload|))));
    }
  }

  lemma HandleReaches(c: Config, w: World, frame: RelayFrame, now: int, proxyOk: bool)
    requires Handle(c, w, frame, now, proxyOk).Handled?
    ensures Reachable(w.tables, Handle(c, w, frame, now, proxyOk).world.tables)
  {
    match frame
    case StreamFrame(id, payload) => DataReaches(c, w, id, payload, true, now);
    case DatagramFrame(id, payload) => DataReaches(c, w, id, payload, false, now);
    case _ =>
  }

  /** Every frame keeps the tables consistent. */
  lemma HandleKeeps(c: Config, w: World, frame: RelayFrame, now: int, proxyOk: bool)
    requires Sound(c, w.tables) && Handle(c, w, frame, now, proxyOk).Handled?
    ensures Sound(c, Handle(c, w, frame, now, proxyOk).world.tables)
  {
    HandleReaches(c, w, frame, now, proxyOk);
    ReachableKeeps(c, w.tables, Handle(c, w, frame, now, proxyOk).world.tables);
  }

  /** The packets that the writer cuts from a stream payload are the ones listed here, built. */
  lemma CutIsStream(f: Flow, packets: seq<Octets>, payload: Octets, size: nat, id: port)
    requires IsCut(packets, f, payload, size, id) && packets != [] && Start(|packets| - 1, size) <= |payload|
    ensures var listed := StreamPackets(f, payload, size, |packets|, id);
            forall i :: 0 <= i < |packets| ==>
              ValidAddr(listed[i].packet.source) && ValidAddr(listed[i].packet.target)
              && Build(listed[i].packet, listed[i].id) == Some(packets[i])
  {
    forall i | 0 <= i < |packets|
      ensures Build(StreamPacket(f, payload, size, i, id).packet, Id(id, i)) == Some(packets[i])
    {
      assert IsPiece(packets[i], f, payload, size, i, id);
    }
  }
}
