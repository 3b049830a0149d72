/** Whole runs of the packet adapter: local packets, relay batches and queue retries in any order. */
module AdapterRuns {
  import opened Bytes
  import opened IpPacket
  import opened Segments
  import opened TcpFlow
  import opened FlowTable
  import opened Relay
  import opened Preflight

  /**
   * A local packet is a `Begin` and, if that admits it, one of the four that follow. Relay batches and retries of
   * pending closes may come anywhere, also between the two halves of a local packet. `at` is where in its stream the
   * client took the payload from; the adapter never sees it.
   */
  datatype Event =
    | Begin(now: int, ids: seq<nat>, taken: nat)
    | Tcp(at: nat, tuple: Tuple, sequence: uint32, flags: byte, payload: Octets, tcpEnv: TcpEnv)
    | Udp(tuple: Tuple, now: int, udpEnv: UdpEnv)
    | RelayedDns(query: Dns, now: int, ok: bool)
    | AnsweredDns(answered: bool)
    | Retry(taken: nat)
    | Batch(frames: seq<RelayFrame>, now: int, proxy: nat -> bool)

  /** UDP packets for this port are DNS queries and open no association. */
  const DNS_PORT: port := 53

  predicate ValidTuple(k: Tuple) {
    && ValidAddr(k.client) && ValidAddr(k.target) && k.client.V4? == k.target.V4?
    && k.clientPort > 0 && k.targetPort > 0
  }

  predicate ValidTcp(k: Tuple) {
    ValidTuple(k) && k.protocol == TCP
  }

  predicate ValidUdp(k: Tuple) {
    ValidTuple(k) && k.protocol == UDP
  }

  predicate Enabled(w: World, e: Event) {
    match e
    case Begin(now, ids, taken) => ListsIdle(w.tables, now, ids) && taken <= |w.tables.pending| + |ids|
    case Tcp(_, tuple, _, _, _, _) => w.tables.admitted && ValidTcp(tuple)
    case Udp(tuple, _, _) => w.tables.admitted && ValidUdp(tuple) && tuple.targetPort != DNS_PORT
    case RelayedDns(query, _, _) => w.tables.admitted && ValidDns(query) && query.targetPort == DNS_PORT
    case AnsweredDns(_) => w.tables.admitted
    case Retry(taken) => taken <= |w.tables.pending|
    case Batch(_, _, _) => true
  }

  /** A relay batch changes nothing but expired requests unless its check passes. */
  function HandleBatch(c: Config, w: World, frames: seq<RelayFrame>, now: int, proxy: nat -> bool): World {
    var live := w.(tables := ExpireDns(w.tables, now));
    if CheckAll(c, live.tables, frames, now).None? then live else HandleAll(c, live, frames, now, proxy).world
  }

  /** Every packet that is built takes an identifier. */
  function Spend(w: World, packets: nat): World {
    w.(nextPacketID := Id(w.nextPacketID, packets))
  }

  function Done(w: World, t: Tables): World {
    w.(tables := t.(admitted := false))
  }

  function Step(c: Config, w: World, e: Event): World
    requires Enabled(w, e)
  {
    var t := w.tables;
    match e
    case Begin(_, ids, taken) => w.(tables := FlowTable.Begin(t, ids, taken))
    case Tcp(_, tuple, sequence, flags, payload, env) =>
      Done(Spend(w, TcpReplies(t, tuple, sequence, flags, payload, env, c.maximumFlows)),
           TcpPacket(t, tuple, sequence, flags, payload, env, c.maximumFlows))
    case Udp(tuple, now, env) => Done(w, UdpPacket(t, tuple, now, env, c.maximumFlows))
    case RelayedDns(query, now, ok) => Done(w, DnsQuery(t, query, now, ok, c.maximumFlows))
    case AnsweredDns(answered) => Done(Spend(w, if answered then 1 else 0), LocalDns(t, c.maximumFlows))
    case Retry(taken) => w.(tables := Flush(t, taken))
    case Batch(frames, now, proxy) => HandleBatch(c, w, frames, now, proxy)
  }

  predicate ValidRun(c: Config, w: World, events: seq<Event>)
    decreases |events|, 0
  {
    events == [] ||
      (ValidRun(c, w, events[..|events| - 1])
       && Enabled(After(c, w, events[..|events| - 1]), events[|events| - 1]))
  }

  function After(c: Config, w: World, events: seq<Event>): World
    requires ValidRun(c, w, events)
    decreases |events|, 1
  {
    if events == [] then w else Step(c, After(c, w, events[..|events| - 1]), events[|events| - 1])
  }

  // ---------- steps ----------

  lemma {:induction false} RemoveAllKeepsEntries(t: Tables, ids: seq<nat>)
    requires forall i :: 0 <= i < |ids| ==> ids[i] in t.byId
    requires forall i, j :: 0 <= i < j < |ids| ==> ids[i] != ids[j]
    requires ValidTables(t)
    ensures ValidTables(RemoveAll(t, ids))
    decreases |ids|
  {
    if ids != [] {
      RemoveAllKeepsEntries(Remove(t, ids[0]), ids[1..]);
    }
  }

  lemma BeginKeeps(c: Config, t: Tables, now: int, ids: seq<nat>, taken: nat)
    requires Sound(c, t) && ListsIdle(t, now, ids) && taken <= |t.pending| + |ids|
    ensures Sound(c, FlowTable.Begin(t, ids, taken))
  {
    BeginKeepsInv(t, ids, taken, c.maximumFlows);
    RemoveAllKeepsEntries(t, ids);
  }

  lemma OpenKeepsEntries(t: Tables, f: FlowEntry, ok: bool, maximumFlows: nat)
    requires ValidTables(t) && ValidEntry(f)
    ensures ValidTables(Open(t, f, ok, maximumFlows))
  {
  }

  lemma TcpKeeps(c: Config, t: Tables, tuple: Tuple, sequence: uint32, flags: byte, payload: Octets, env: TcpEnv)
    requires Sound(c, t) && t.admitted && ValidTcp(tuple)
    ensures Sound(c, TcpPacket(t, tuple, sequence, flags, payload, env, c.maximumFlows))
  {
    TcpPacketKeepsInv(t, tuple, sequence, flags, payload, env, c.maximumFlows);
    TcpKeepsEntries(t, tuple, sequence, flags, payload, env, c.maximumFlows);
  }

  lemma TcpKeepsEntries(t: Tables, tuple: Tuple, sequence: uint32, flags: byte, payload: Octets, env: TcpEnv,
                        maximumFlows: nat)
    requires ValidTables(t) && ValidTcp(tuple)
    ensures ValidTables(TcpPacket(t, tuple, sequence, flags, payload, env, maximumFlows))
  {
    if !(tuple in t.byTuple && t.byTuple[tuple] in t.byId) {
      OpenKeepsEntries(t, FlowEntry(tuple, TcpStream, Opened(sequence, env.serverSequence), 0),
                       env.openOk && env.flow.queue.Accepted?, maximumFlows);
    }
  }

  lemma UdpKeeps(c: Config, t: Tables, tuple: Tuple, now: int, env: UdpEnv)
    requires Sound(c, t) && t.admitted && ValidUdp(tuple)
    ensures Sound(c, UdpPacket(t, tuple, now, env, c.maximumFlows))
  {
    UdpPacketKeepsInv(t, tuple, now, env, c.maximumFlows);
    var f := FlowEntry(tuple, UdpAssociation, TcpState(0, 0, false, false), now);
    var ok := env.openOk && env.queue.Accepted?;
    OpenKeepsEntries(t, f, ok, c.maximumFlows);
    if tuple in t.byTuple {
      OpenKeepsEntries(Remove(t, t.byTuple[tuple]), f, ok, c.maximumFlows);
    }
  }

  lemma DnsKeeps(c: Config, t: Tables, d: Dns, now: int, ok: bool)
    requires Sound(c, t) && t.admitted && ValidDns(d)
    ensures Sound(c, DnsQuery(t, d, now, ok, c.maximumFlows))
  {
    DnsQueryKeepsInv(t, d, now, ok, c.maximumFlows);
  }

  lemma BatchKeepsSound(c: Config, w: World, frames: seq<RelayFrame>, now: int, proxy: nat -> bool)
    requires Sound(c, w.tables)
    ensures Sound(c, HandleBatch(c, w, frames, now, proxy).tables)
  {
    ExpireDnsKeepsInv(w.tables, now, c.maximumFlows);
    BatchKeeps(c, w.(tables := ExpireDns(w.tables, now)), frames, now, proxy);
  }

  lemma DoneKeeps(c: Config, w: World, t: Tables)
    requires Sound(c, t)
    ensures Sound(c, Done(w, t).tables)
  {
  }

  lemma LocalDnsKeeps(c: Config, t: Tables)
    requires Sound(c, t)
    ensures Sound(c, LocalDns(t, c.maximumFlows))
  {
    AllocateNeverFails(t, c.maximumFlows);
  }

  lemma RetryKeeps(c: Config, t: Tables, taken: nat)
    requires Sound(c, t) && taken <= |t.pending|
    ensures Sound(c, Flush(t, taken))
  {
  }

  lemma StepKeeps(c: Config, w: World, e: Event)
    requires Sound(c, w.tables) && Enabled(w, e)
    ensures Sound(c, Step(c, w, e).tables)
  {
    var t := w.tables;
    match e
    case Begin(now, ids, taken) => BeginKeeps(c, t, now, ids, taken);
    case Tcp(_, tuple, sequence, flags, payload, env) =>
      TcpKeeps(c, t, tuple, sequence, flags, payload, env);
      DoneKeeps(c, w, TcpPacket(t, tuple, sequence, flags, payload, env, c.maximumFlows));
    case Udp(tuple, now, env) =>
      UdpKeeps(c, t, tuple, now, env);
      DoneKeeps(c, w, UdpPacket(t, tuple, now, env, c.maximumFlows));
    case RelayedDns(query, now, ok) =>
      DnsKeeps(c, t, query, now, ok);
      DoneKeeps(c, w, DnsQuery(t, query, now, ok, c.maximumFlows));
    case AnsweredDns(_) =>
      LocalDnsKeeps(c, t);
      DoneKeeps(c, w, LocalDns(t, c.maximumFlows));
    case Retry(taken) => RetryKeeps(c, t, taken);
    case Batch(frames, now, proxy) => BatchKeepsSound(c, w, frames, now, proxy);
  }

  // ---------- runs ----------

  function Initial(nextFlowID: nat): World {
    World(Tables(map[], map[], map[], [], nextFlowID, false), 0)
  }

  lemma {:induction false} RunKeeps(c: Config, w: World, events: seq<Event>)
    requires Sound(c, w.tables) && ValidRun(c, w, events)
    ensures Sound(c, After(c, w, events).tables)
    decreases |events|
  {
    if events != [] {
      RunKeeps(c, w, events[..|events| - 1]);
      StepKeeps(c, After(c, w, events[..|events| - 1]), events[|events| - 1]);
    }
  }

  /**
   * In every reachable state the two flow tables are each other's inverse, no identifier names both a flow and a DNS
   * request, flows, requests and unqueued closes together keep to the limit, and a free identifier is found.
   */
  lemma TablesStayConsistent(c: Config, nextFlowID: nat, events: seq<Event>)
    requires ValidConfig(c) && ValidId(nextFlowID) && ValidRun(c, Initial(nextFlowID), events)
    ensures var t := After(c, Initial(nextFlowID), events).tables;
            && Inverse(t.byTuple, t.byId) && t.byId.Keys !! t.dns.Keys
            && |t.byId| + |t.dns| + |t.pending| <= c.maximumFlows
            && Allocate(InUse(t), t.nextFlowID, c.maximumFlows + 1).Some?
  {
    RunKeeps(c, Initial(nextFlowID), events);
    AllocateNeverFails(After(c, Initial(nextFlowID), events).tables, c.maximumFlows);
  }

  /** In every reachable state a batch that passes its check is stopped by the proxy or not at all. */
  lemma ReachableBatches(c: Config, nextFlowID: nat, events: seq<Event>, frames: seq<RelayFrame>, now: int,
                         proxy: nat -> bool)
    requires ValidConfig(c) && ValidId(nextFlowID) && ValidRun(c, Initial(nextFlowID), events)
    ensures var w := After(c, Initial(nextFlowID), events);
            var check := CheckAll(c, w.tables, frames, now);
            var b := HandleAll(c, w, frames, now, proxy);
            check.Some? ==> StoppedBy(b, ProxyError) || (b.Sent? && |b.packets| == check.value.count <= c.maximumLocal)
  {
    RunKeeps(c, Initial(nextFlowID), events);
    var w := After(c, Initial(nextFlowID), events);
    if CheckAll(c, w.tables, frames, now).Some? {
      PassedCheckIsKept(c, w, frames, now, proxy);
    }
  }

  // ---------- what a run does to one TCP flow ----------

  lemma {:induction false} BatchIsRelayOnly(c: Config, w: World, frames: seq<RelayFrame>, now: int, proxy: nat -> bool)
    ensures RelayOnly(w.tables, HandleAll(c, w, frames, now, proxy).world.tables)
    decreases |frames|
  {
    if frames != [] {
      var last := |frames| - 1;
      BatchIsRelayOnly(c, w, frames[..last], now, proxy);
      var b := HandleAll(c, w, frames[..last], now, proxy);
      if b.Sent? && Handle(c, b.world, frames[last], now, proxy(last)).Handled? {
        HandleReaches(c, b.world, frames[last], now, proxy(last));
        ReachableIsRelayOnly(b.world.tables, Handle(c, b.world, frames[last], now, proxy(last)).world.tables);
      }
    }
  }

  lemma {:induction false} RemoveAllOnlyRemoves(t: Tables, ids: seq<nat>)
    requires forall i :: 0 <= i < |ids| ==> ids[i] in t.byId
    requires forall i, j :: 0 <= i < j < |ids| ==> ids[i] != ids[j]
    ensures RelayOnly(t, RemoveAll(t, ids))
    decreases |ids|
  {
    if ids != [] {
      RemoveAllOnlyRemoves(Remove(t, ids[0]), ids[1..]);
    }
  }

  lemma BeginOnlyRemoves(t: Tables, ids: seq<nat>, taken: nat)
    requires forall i :: 0 <= i < |ids| ==> ids[i] in t.byId
    requires forall i, j :: 0 <= i < j < |ids| ==> ids[i] != ids[j]
    requires taken <= |t.pending| + |ids|
    ensures RelayOnly(t, FlowTable.Begin(t, ids, taken))
  {
    RemoveAllOnlyRemoves(t, ids);
  }

  lemma HandleBatchIsRelayOnly(c: Config, w: World, frames: seq<RelayFrame>, now: int, proxy: nat -> bool)
    ensures RelayOnly(w.tables, HandleBatch(c, w, frames, now, proxy).tables)
  {
    BatchIsRelayOnly(c, w.(tables := ExpireDns(w.tables, now)), frames, now, proxy);
  }

  lemma OpenKeepsFlows(c: Config, t: Tables, f: FlowEntry, ok: bool, id: nat)
    requires Sound(c, t) && id in t.byId
    ensures id in Open(t, f, ok, c.maximumFlows).byId && Open(t, f, ok, c.maximumFlows).byId[id] == t.byId[id]
  {
    AllocateNeverFails(t, c.maximumFlows);
  }

  /** The flow's own view of an event: its client's packet, or a move on the relay's side. */
  function FlowEvent(e: Event, f: FlowEntry, g: FlowEntry): TcpFlow.Event {
    if e.Tcp? && e.tuple == f.tuple then Arrival(e.at, e.sequence, e.flags, e.payload, e.tcpEnv.flow)
    else TcpFlow.Relay(g.tcp.relayNext, g.tcp.peerClosed)
  }

  /** A flow's entry after an event, as its own step gives it. */
  predicate Evolves(e: Event, f: FlowEntry, g: FlowEntry) {
    g.tuple == f.tuple && g.tcp == TcpFlow.Step(f.tcp, FlowEvent(e, f, g)).flow
  }

  lemma RelayMoves(e: Event, f: FlowEntry, g: FlowEntry)
    requires RelaySide(f, g) && !(e.Tcp? && e.tuple == f.tuple)
    ensures Evolves(e, f, g)
  {
  }

  lemma TcpLeavesOtherFlow(t: Tables, e: Event, id: nat, maximumFlows: nat)
    requires Inv(t, maximumFlows) && e.Tcp? && id in t.byId && e.tuple != t.byId[id].tuple && e.tuple in t.byTuple
    ensures var n := TcpPacket(t, e.tuple, e.sequence, e.flags, e.payload, e.tcpEnv, maximumFlows);
            id in n.byId && n.byId[id] == t.byId[id]
  {
    assert t.byId[t.byTuple[e.tuple]].tuple == e.tuple;
  }

  /** The packet of one flow changes no other flow. */
  lemma TcpLeavesOthers(c: Config, t: Tables, e: Event, id: nat)
    requires Sound(c, t) && e.Tcp? && id in t.byId && e.tuple != t.byId[id].tuple
    ensures var n := TcpPacket(t, e.tuple, e.sequence, e.flags, e.payload, e.tcpEnv, c.maximumFlows);
            id in n.byId && n.byId[id] == t.byId[id]
  {
    if e.tuple in t.byTuple {
      TcpLeavesOtherFlow(t, e, id, c.maximumFlows);
    } else {
      OpenKeepsFlows(c, t, FlowEntry(e.tuple, TcpStream, Opened(e.sequence, e.tcpEnv.serverSequence), 0),
                     e.tcpEnv.openOk && e.tcpEnv.flow.queue.Accepted?, id);
    }
  }

  lemma TcpOwnFlow(t: Tables, e: Event, id: nat, maximumFlows: nat)
    requires Inv(t, maximumFlows) && e.Tcp? && id in t.byId && t.byId[id].kind.TcpStream? && e.tuple == t.byId[id].tuple
    requires id in TcpPacket(t, e.tuple, e.sequence, e.flags, e.payload, e.tcpEnv, maximumFlows).byId
    ensures Evolves(e, t.byId[id],
                    TcpPacket(t, e.tuple, e.sequence, e.flags, e.payload, e.tcpEnv, maximumFlows).byId[id])
  {
    assert t.byTuple[e.tuple] == id;
  }

  lemma UdpLeavesOthers(c: Config, t: Tables, e: Event, id: nat)
    requires Sound(c, t) && e.Udp? && t.admitted && ValidUdp(e.tuple) && id in t.byId && e.tuple != t.byId[id].tuple
    ensures var n := UdpPacket(t, e.tuple, e.now, e.udpEnv, c.maximumFlows); id in n.byId && n.byId[id] == t.byId[id]
  {
    var f := FlowEntry(e.tuple, UdpAssociation, TcpState(0, 0, false, false), e.now);
    var ok := e.udpEnv.openOk && e.udpEnv.queue.Accepted?;
    OpenKeepsFlows(c, t, f, ok, id);
    if e.tuple in t.byTuple {
      RemoveKeepsInv(t, t.byTuple[e.tuple], c.maximumFlows);
      OpenKeepsFlows(c, Remove(t, t.byTuple[e.tuple]), f, ok, id);
    }
  }

  /**
   * Whatever happens to the adapter, a TCP flow that stays in its tables takes a step of its own: the one its
   * client's packet asks for, or a move on the relay's side.
   */
  lemma FlowsEvolve(c: Config, w: World, e: Event, id: nat)
    requires Sound(c, w.tables) && Enabled(w, e) && id in w.tables.byId && w.tables.byId[id].kind.TcpStream?
    requires id in Step(c, w, e).tables.byId
    ensures Evolves(e, w.tables.byId[id], Step(c, w, e).tables.byId[id])
  {
    var t, f, g := w.tables, w.tables.byId[id], Step(c, w, e).tables.byId[id];
    if e.Tcp? && e.tuple == f.tuple {
      TcpOwnFlow(t, e, id, c.maximumFlows);
    } else {
      OthersEvolve(c, w, e, id);
      RelayMoves(e, f, g);
    }
  }

  /** The step changes the flow on the relay's side at most. */
  ghost predicate Spares(c: Config, w: World, e: Event, id: nat)
    requires Enabled(w, e) && id in w.tables.byId
  {
    id in Step(c, w, e).tables.byId ==> RelaySide(w.tables.byId[id], Step(c, w, e).tables.byId[id])
  }

  lemma OthersEvolve(c: Config, w: World, e: Event, id: nat)
    requires Sound(c, w.tables) && Enabled(w, e) && id in w.tables.byId
    requires e.Udp? || e.Tcp? ==> e.tuple != w.tables.byId[id].tuple
    ensures Spares(c, w, e, id)
  {
    if e.Tcp? {
      TcpEvolves(c, w, e, id);
    } else if e.Udp? {
      UdpEvolves(c, w, e, id);
    } else {
      QuietEvolves(c, w, e, id);
    }
  }

  lemma QuietEvolves(c: Config, w: World, e: Event, id: nat)
    requires Enabled(w, e) && id in w.tables.byId && !e.Tcp? && !e.Udp?
    ensures Spares(c, w, e, id)
  {
    if e.Begin? {
      BeginOnlyRemoves(w.tables, e.ids, e.taken);
    } else if e.Batch? {
      HandleBatchIsRelayOnly(c, w, e.frames, e.now, e.proxy);
    }
  }

  lemma TcpEvolves(c: Config, w: World, e: Event, id: nat)
    requires Sound(c, w.tables) && e.Tcp? && Enabled(w, e) && id in w.tables.byId && e.tuple != w.tables.byId[id].tuple
    ensures Spares(c, w, e, id)
  {
    TcpLeavesOthers(c, w.tables, e, id);
  }

  lemma UdpEvolves(c: Config, w: World, e: Event, id: nat)
    requires Sound(c, w.tables) && e.Udp? && Enabled(w, e) && id in w.tables.byId && e.tuple != w.tables.byId[id].tuple
    ensures Spares(c, w, e, id)
  {
    UdpLeavesOthers(c, w.tables, e, id);
  }

  // ---------- a flow's part in a run ----------

  /** The flow is in the tables all through the run. */
  predicate Alive(c: Config, w: World, events: seq<Event>, id: nat)
    requires ValidRun(c, w, events)
    decreases |events|
  {
    && id in After(c, w, events).tables.byId && After(c, w, events).tables.byId[id].kind.TcpStream?
    && (events != [] ==>
          Alive(c, w, events[..|events| - 1], id))
  }

  function OwnEvents(c: Config, w: World, events: seq<Event>, id: nat): seq<TcpFlow.Event>
    requires ValidRun(c, w, events) && Alive(c, w, events, id)
    decreases |events|
  {
    if events == [] then []
    else
      var last := |events| - 1;
      OwnEvents(c, w, events[..last], id)
      + [FlowEvent(events[last], After(c, w, events[..last]).tables.byId[id], After(c, w, events).tables.byId[id])]
  }

  lemma KeptMeansNotRetired(c: Config, w: World, e: Event, id: nat)
    requires Sound(c, w.tables) && Enabled(w, e) && id in w.tables.byId && w.tables.byId[id].kind.TcpStream?
    requires id in Step(c, w, e).tables.byId
    ensures !TcpFlow.Step(w.tables.byId[id].tcp, FlowEvent(e, w.tables.byId[id], Step(c, w, e).tables.byId[id])).retired
  {
    if e.Tcp? && e.tuple == w.tables.byId[id].tuple {
      RetiredIffRemoved(c, w, e, id);
    }
  }

  /** A flow's entry in the tables is what its own history makes of it. */
  lemma {:induction false} OwnHistory(c: Config, w: World, events: seq<Event>, id: nat)
    requires Sound(c, w.tables) && ValidRun(c, w, events) && Alive(c, w, events, id)
    ensures id in w.tables.byId
    ensures var h := TcpFlow.After(w.tables.byId[id].tcp, OwnEvents(c, w, events, id));
            !h.retired && h.flow == After(c, w, events).tables.byId[id].tcp
    decreases |events|
  {
    if events != [] {
      var last := |events| - 1;
      var before := After(c, w, events[..last]);
      OwnHistory(c, w, events[..last], id);
      RunKeeps(c, w, events[..last]);
      FlowsEvolve(c, before, events[last], id);
      KeptMeansNotRetired(c, before, events[last], id);
      var own := OwnEvents(c, w, events, id);
      assert own[..|own| - 1] == OwnEvents(c, w, events[..last], id);
    }
  }

  /**
   * In every run of the adapter, from the moment a client's SYN opens a flow and as long as the flow stays: the number
   * the adapter acknowledges is the client's initial number, plus one, plus the octets queued for the relay, plus one
   * for a queued FIN.
   */
  lemma FlowAcknowledges(c: Config, w: World, events: seq<Event>, id: nat, isn: uint32, serverSequence: uint32)
    requires Sound(c, w.tables) && ValidRun(c, w, events) && Alive(c, w, events, id)
    requires id in w.tables.byId && w.tables.byId[id].tcp == Opened(isn, serverSequence)
    ensures var h := TcpFlow.After(Opened(isn, serverSequence), OwnEvents(c, w, events, id));
            h.flow == After(c, w, events).tables.byId[id].tcp && !h.retired && Acknowledges(isn, h)
  {
    OwnHistory(c, w, events, id);
    RunAcknowledges(isn, serverSequence, OwnEvents(c, w, events, id));
  }

  /** The client's packet as its flow sees it. */
  function OwnPacket(e: Event): TcpFlow.Event
    requires e.Tcp?
  {
    Arrival(e.at, e.sequence, e.flags, e.payload, e.tcpEnv.flow)
  }

  /**
   * In every run of the adapter, whatever the other flows and the relay do in between, a client that tells the truth
   * has its octets forwarded once and in order, up to and including the packet `e` that may end its flow.
   */
  lemma FlowForwardsOnce(c: Config, w: World, events: seq<Event>, e: Event, id: nat, s: Octets, isn: uint32,
                         serverSequence: uint32)
    requires Sound(c, w.tables) && ValidRun(c, w, events) && Alive(c, w, events, id)
    requires id in w.tables.byId && w.tables.byId[id].tcp == Opened(isn, serverSequence)
    requires e.Tcp? && e.tuple == After(c, w, events).tables.byId[id].tuple && Enabled(After(c, w, events), e)
    requires TruthfulRun(s, isn, Opened(isn, serverSequence), OwnEvents(c, w, events, id) + [OwnPacket(e)])
    ensures var h := TcpFlow.After(Opened(isn, serverSequence), OwnEvents(c, w, events, id));
            && h.flow == After(c, w, events).tables.byId[id].tcp && !h.retired
            && Faithful(s, h) && Faithful(s, Next(h, OwnPacket(e)))
            && (id !in Step(c, After(c, w, events), e).tables.byId <==> Next(h, OwnPacket(e)).retired)
  {
    var own := OwnEvents(c, w, events, id);
    var all := own + [OwnPacket(e)];
    OwnHistory(c, w, events, id);
    TruthfulPrefix(s, isn, Opened(isn, serverSequence), all);
    assert all[..|all| - 1] == own;
    StreamIsForwardedOnce(s, isn, serverSequence, own);
    StreamIsForwardedOnce(s, isn, serverSequence, all);
    RunKeeps(c, w, events);
    RetiredIffRemoved(c, After(c, w, events), e, id);
  }

  lemma RetiredIffRemoved(c: Config, w: World, e: Event, id: nat)
    requires Sound(c, w.tables) && e.Tcp? && Enabled(w, e) && id in w.tables.byId && w.tables.byId[id].kind.TcpStream?
    requires e.tuple == w.tables.byId[id].tuple
    ensures id !in Step(c, w, e).tables.byId <==> TcpFlow.Step(w.tables.byId[id].tcp, OwnPacket(e)).retired
  {
    assert w.tables.byTuple[e.tuple] == id;
    PacketRetires(w.tables, e.tuple, e.at, e.sequence, e.flags, e.payload, e.tcpEnv, c.maximumFlows, id);
  }

  lemma PacketRetires(t: Tables, tuple: Tuple, at: nat, sequence: uint32, flags: byte, payload: Octets, env: TcpEnv,
                      maximumFlows: nat, id: nat)
    requires tuple in t.byTuple && t.byTuple[tuple] == id && id in t.byId && t.byId[id].kind.TcpStream?
    ensures id !in TcpPacket(t, tuple, sequence, flags, payload, env, maximumFlows).byId
            <==> TcpFlow.Step(t.byId[id].tcp, Arrival(at, sequence, flags, payload, env.flow)).retired
  {
  }

  // ---------- opening and closing ----------

  /** A served SYN gives its tuple a new flow, under an unused identifier, with the numbers the handshake fixes. */
  lemma SynOpens(c: Config, t: Tables, tuple: Tuple, sequence: uint32, flags: byte, env: TcpEnv)
    requires Sound(c, t) && tuple !in t.byTuple && Count(t) < c.maximumFlows
    requires Has(flags, SYN) && PlainSyn(flags, []) && env.flow.room && env.openOk && env.flow.queue.Accepted?
    ensures var n := TcpPacket(t, tuple, sequence, flags, [], env, c.maximumFlows);
            && tuple in n.byTuple && n.byTuple[tuple] !in InUse(t) && n.byTuple[tuple] in n.byId
            && n.byId[n.byTuple[tuple]].tcp == Opened(sequence, env.serverSequence)
            && n.byId[n.byTuple[tuple]].kind.TcpStream? && n.byId[n.byTuple[tuple]].tuple == tuple
            && (forall id :: id in t.byId ==> id in n.byId && n.byId[id] == t.byId[id])
  {
    AllocateNeverFails(t, c.maximumFlows);
  }

  /** The close that a reset met by a full queue leaves behind. */
  function TcpCloses(t: Tables, tuple: Tuple, sequence: uint32, flags: byte, payload: Octets, env: TcpEnv): seq<Close> {
    if tuple in t.byTuple && t.byTuple[tuple] in t.byId then
      var id := t.byTuple[tuple];
      var r := TcpFlow.Step(t.byId[id].tcp, Arrival(0, sequence, flags, payload, env.flow));
      if (t.byId[id].kind.TcpStream? || Has(flags, SYN)) && r.retired && r.deferred then [Close(id, CLOSE_RESET)]
      else []
    else []
  }

  /** The closes an event asks for. */
  function Issues(w: World, e: Event): seq<Close>
    requires Enabled(w, e)
  {
    if e.Begin? then Closes(e.ids)
    else if e.Tcp? then TcpCloses(w.tables, e.tuple, e.sequence, e.flags, e.payload, e.tcpEnv)
    else []
  }

  /** The closes that the application queue takes at an event. */
  function Takes(w: World, e: Event): seq<Close>
    requires Enabled(w, e)
  {
    if e.Begin? then (w.tables.pending + Closes(e.ids))[..e.taken]
    else if e.Retry? then w.tables.pending[..e.taken]
    else []
  }

  lemma {:induction false} BatchKeepsPending(c: Config, w: World, frames: seq<RelayFrame>, now: int, proxy: nat -> bool)
    ensures HandleAll(c, w, frames, now, proxy).world.tables.pending == w.tables.pending
    decreases |frames|
  {
    if frames != [] {
      var last := |frames| - 1;
      BatchKeepsPending(c, w, frames[..last], now, proxy);
      var b := HandleAll(c, w, frames[..last], now, proxy);
      if b.Sent? && Handle(c, b.world, frames[last], now, proxy(last)).Handled? {
        HandleReaches(c, b.world, frames[last], now, proxy(last));
      }
    }
  }

  lemma TcpPending(t: Tables, tuple: Tuple, sequence: uint32, flags: byte, payload: Octets, env: TcpEnv,
                   maximumFlows: nat)
    ensures TcpPacket(t, tuple, sequence, flags, payload, env, maximumFlows).pending
            == t.pending + TcpCloses(t, tuple, sequence, flags, payload, env)
  {
    assert t.pending + [] == t.pending;
  }

  /** What was pending or is asked for is either taken, in order, or still pending. */
  lemma StepConservesCloses(c: Config, w: World, e: Event)
    requires Enabled(w, e)
    ensures Takes(w, e) + Step(c, w, e).tables.pending == w.tables.pending + Issues(w, e)
  {
    if e.Tcp? {
      TcpPending(w.tables, e.tuple, e.sequence, e.flags, e.payload, e.tcpEnv, c.maximumFlows);
    } else if e.Batch? {
      BatchKeepsPending(c, w.(tables := ExpireDns(w.tables, e.now)), e.frames, e.now, e.proxy);
    } else if e.Begin? {
      BeginConserves(w.tables, e.ids, e.taken);
    }
  }

  lemma BeginConserves(t: Tables, ids: seq<nat>, taken: nat)
    requires forall i :: 0 <= i < |ids| ==> ids[i] in t.byId
    requires forall i, j :: 0 <= i < j < |ids| ==> ids[i] != ids[j]
    requires taken <= |t.pending| + |ids|
    ensures (t.pending + Closes(ids))[..taken] + FlowTable.Begin(t, ids, taken).pending == t.pending + Closes(ids)
  {
    var pending := t.pending + Closes(ids);
    assert pending[..taken] + pending[taken..] == pending;
  }

  function AllIssued(c: Config, w: World, events: seq<Event>): seq<Close>
    requires ValidRun(c, w, events)
    decreases |events|
  {
    if events == [] then []
    else AllIssued(c, w, events[..|events| - 1]) + Issues(After(c, w, events[..|events| - 1]), events[|events| - 1])
  }

  function AllTaken(c: Config, w: World, events: seq<Event>): seq<Close>
    requires ValidRun(c, w, events)
    decreases |events|
  {
    if events == [] then []
    else AllTaken(c, w, events[..|events| - 1]) + Takes(After(c, w, events[..|events| - 1]), events[|events| - 1])
  }

  lemma Regroup(taken: seq<Close>, more: seq<Close>, pending: seq<Close>, before: seq<Close>, start: seq<Close>,
                issued: seq<Close>, arisen: seq<Close>)
    requires taken + before == start + issued && more + pending == before + arisen
    ensures (taken + more) + pending == start + (issued + arisen)
  {
    assert (taken + more) + pending == taken + (more + pending);
    assert taken + (before + arisen) == (taken + before) + arisen;
  }

  /**
   * Over every run, the closes of idle associations and of resets met by a full queue reach the relay in the order
   * they arose, each once; those that have not are still pending.
   */
  lemma {:induction false} ClosesAreConserved(c: Config, w: World, events: seq<Event>)
    requires ValidRun(c, w, events)
    ensures AllTaken(c, w, events) + After(c, w, events).tables.pending == w.tables.pending + AllIssued(c, w, events)
    decreases |events|
  {
    if events == [] {
      assert AllTaken(c, w, events) + w.tables.pending == w.tables.pending + AllIssued(c, w, events);
    } else {
      var last := |events| - 1;
      var before, e := After(c, w, events[..last]), events[last];
      ClosesAreConserved(c, w, events[..last]);
      StepConservesCloses(c, before, e);
      Regroup(AllTaken(c, w, events[..last]), Takes(before, e), After(c, w, events).tables.pending,
              before.tables.pending,
              w.tables.pending, AllIssued(c, w, events[..last]), Issues(before, e));
    }
  }
}
