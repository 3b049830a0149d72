/** The adapter itself: its tables updated in place, each operation proved against the tables it stands for. */
module PacketAdapterState {
  import opened Bytes
  import opened IpPacket
  import opened Segments
  import opened TcpFlow
  import opened FlowTable
  import opened Relay
  import opened Preflight
  import opened AdapterRuns
  import Wire

  class PacketAdapter {
    const config: Config
    var flowsByTuple: map<Tuple, nat>
    var flowsByID: map<nat, FlowEntry>
    var dnsRequests: map<nat, Dns>
    var pendingFlowCloses: seq<Close>
    var nextFlowID: nat
    var nextPacketID: port
    ghost var admitted: bool

    ghost function View(): Tables
      reads this
    {
      Tables(flowsByTuple, flowsByID, dnsRequests, pendingFlowCloses, nextFlowID, admitted)
    }

    ghost function Whole(): World
      reads this
    {
      World(View(), nextPacketID)
    }

    ghost predicate Valid()
      reads this
    {
      Sound(config, View())
    }

    constructor (config: Config, seed: nat)
      requires ValidConfig(config)
      ensures Valid() && this.config == config
      ensures Whole() == Initial(nextFlowID)
    {
      this.config := config;
      flowsByTuple, flowsByID, dnsRequests, pendingFlowCloses := map[], map[], map[], [];
      nextFlowID := if seed == 0 || seed > Wire.MAX_VARINT then 1 else seed;
      nextPacketID := 0;
      admitted := false;
    }

    // ---------- identifiers and removal ----------

    /** The first free identifier among one more than there can be flows. */
    method AllocateFlowID() returns (id: Option<nat>)
      modifies this`nextFlowID
      ensures var r := Allocate(InUse(old(View())), old(nextFlowID), config.maximumFlows + 1);
              if r.None? then id.None? else id == Some(r.value.0) && nextFlowID == r.value.1
    {
      ghost var used := InUse(View());
      ghost var found := Allocate(used, nextFlowID, config.maximumFlows + 1);
      var attempts := 0;
      while attempts <= config.maximumFlows
        invariant 0 <= attempts <= config.maximumFlows + 1
        invariant found == Allocate(used, nextFlowID, config.maximumFlows + 1 - attempts)
      {
        var candidate := nextFlowID;
        nextFlowID := nextFlowID + 1;
        if nextFlowID > Wire.MAX_VARINT {
          nextFlowID := 1;
        }
        if candidate != 0 && candidate !in flowsByID && candidate !in dnsRequests {
          return Some(candidate);
        }
        attempts := attempts + 1;
      }
      id := None;
    }

    method RemoveFlow(id: nat)
      requires id in flowsByID
      modifies this`flowsByTuple, this`flowsByID
      ensures View() == Remove(old(View()), id)
    {
      flowsByTuple := flowsByTuple - {flowsByID[id].tuple};
      flowsByID := flowsByID - {id};
    }

    method SetFlow(id: nat, f: FlowEntry)
      modifies this`flowsByID
      ensures View() == Update(old(View()), id, f)
    {
      flowsByID := flowsByID[id := f];
    }

    // ---------- the start of an ingress ----------

    /** Lists the idle UDP associations, in some order. */
    method CollectIdle(now: int) returns (ids: seq<nat>)
      ensures ListsIdle(View(), now, ids)
    {
      ids := [];
      var keys := flowsByID.Keys;
      while keys != {}
        invariant keys <= flowsByID.Keys
        invariant forall i, j :: 0 <= i < j < |ids| ==> ids[i] != ids[j]
        invariant forall i :: 0 <= i < |ids| ==> ids[i] in flowsByID && ids[i] !in keys && Idle(flowsByID[ids[i]], now)
        invariant forall id :: id in flowsByID && id !in keys && Idle(flowsByID[id], now) ==> id in ids
        decreases |keys|
      {
        var id :| id in keys;
        if Idle(flowsByID[id], now) {
          ids := ids + [id];
        }
        keys := keys - {id};
      }
    }

    method ExpireUdpFlows(now: int) returns (ids: seq<nat>)
      modifies this`flowsByTuple, this`flowsByID
      ensures ListsIdle(old(View()), now, ids) && View() == RemoveAll(old(View()), ids)
    {
      ids := CollectIdle(now);
      assert ids[0..] == ids;
      for i := 0 to |ids|
        invariant forall j :: i <= j < |ids| ==> ids[j] in flowsByID
        invariant RemoveAll(View(), ids[i..]) == RemoveAll(old(View()), ids)
      {
        assert ids[i..][0] == ids[i] && ids[i..][1..] == ids[i + 1..];
        RemoveFlow(ids[i]);
      }
      assert ids[|ids|..] == [];
    }

    /**
     * Offers the pending closes in ever smaller batches. The queue gets a prefix of them, in order and once each;
     * the rest stay pending, and they stay only if the queue refused a single close.
     */
    method QueuePendingFlowCloses(accepts: (nat, nat) -> bool) returns (taken: nat, calls: nat)
      modifies this`pendingFlowCloses
      ensures taken <= |old(pendingFlowCloses)| && View() == Flush(old(View()), taken)
      ensures pendingFlowCloses != [] ==> calls > 0 && !accepts(calls - 1, 1)
    {
      taken, calls := 0, 0;
      var batchSize := |pendingFlowCloses|;
      while pendingFlowCloses != []
        invariant taken <= |old(pendingFlowCloses)| && pendingFlowCloses == old(pendingFlowCloses)[taken..]
        invariant pendingFlowCloses != [] ==> batchSize > 0
        decreases |pendingFlowCloses|, batchSize
      {
        if batchSize > |pendingFlowCloses| {
          batchSize := |pendingFlowCloses|;
        }
        calls := calls + 1;
        if !accepts(calls - 1, batchSize) {
          if batchSize == 1 {
            return;
          }
          batchSize := batchSize / 2;
        } else {
          taken := taken + batchSize;
          pendingFlowCloses := pendingFlowCloses[batchSize..];
          batchSize := |pendingFlowCloses|;
        }
      }
    }

    method BeginIngress(now: int, accepts: (nat, nat) -> bool) returns (ids: seq<nat>, taken: nat, goesOn: bool)
      requires Valid()
      modifies this
      ensures Valid() && nextPacketID == old(nextPacketID)
      ensures ListsIdle(old(View()), now, ids) && taken <= |old(pendingFlowCloses)| + |ids|
      ensures View() == FlowTable.Begin(old(View()), ids, taken) && goesOn == admitted
    {
      ids := ExpireUdpFlows(now);
      BeginUnfolds(old(View()), ids);
      pendingFlowCloses := pendingFlowCloses + Closes(ids);
      var calls: nat;
      taken, calls := QueuePendingFlowCloses(accepts);
      goesOn := pendingFlowCloses == [];
      admitted := goesOn;
      BeginKeeps(config, old(View()), now, ids, taken);
    }

    // ---------- local packets ----------

    method OpenFlow(f: FlowEntry, ok: bool)
      requires Valid() && pendingFlowCloses == [] && f.tuple !in flowsByTuple && ValidEntry(f)
      modifies this`flowsByTuple, this`flowsByID, this`nextFlowID
      ensures View() == Open(old(View()), f, ok, config.maximumFlows)
    {
      if |flowsByID| + |dnsRequests| >= config.maximumFlows {
        return;
      }
      AllocateNeverFails(View(), config.maximumFlows);
      var id := AllocateFlowID();
      if !ok {
        return;
      }
      flowsByTuple := flowsByTuple[f.tuple := id.value];
      flowsByID := flowsByID[id.value := f];
    }

    /** Takes the identifier of the next packet. */
    method SpendPacketID()
      modifies this`nextPacketID
      ensures nextPacketID == Id(old(nextPacketID), 1)
    {
      nextPacketID := (nextPacketID + 1) % 65536;
    }

    method IngressSyn(tuple: Tuple, sequence: uint32, flags: byte, payload: Octets, env: TcpEnv)
      requires Valid() && admitted && ValidTcp(tuple) && tuple !in flowsByTuple && Has(flags, SYN)
      modifies this
      ensures View() == TcpPacket(old(View()), tuple, sequence, flags, payload, env, config.maximumFlows)
      ensures nextPacketID == Id(old(nextPacketID),
                                 TcpReplies(old(View()), tuple, sequence, flags, payload, env, config.maximumFlows))
    {
      if !PlainSyn(flags, payload) {
        return;
      }
      if |flowsByID| + |dnsRequests| >= config.maximumFlows {
        SpendPacketID();
        return;
      }
      if !env.flow.room {
        return;
      }
      SynOpensFlow(config, View(), tuple, sequence, flags, payload, env);
      var ok := env.openOk && env.flow.queue.Accepted?;
      OpenFlow(FlowEntry(tuple, TcpStream, Opened(sequence, env.serverSequence), 0), ok);
      if ok {
        SpendPacketID();
      }
    }

    /** A packet for a flow in the tables. */
    method IngressFlow(id: nat, sequence: uint32, flags: byte, payload: Octets, env: TcpEnv) returns (effect: Effect)
      requires id in flowsByID && flowsByID[id].tuple in flowsByTuple && flowsByTuple[flowsByID[id].tuple] == id
      requires flowsByID[id].kind.TcpStream?
      modifies this
      ensures var tuple := old(flowsByID[id].tuple);
              && View() == TcpPacket(old(View()), tuple, sequence, flags, payload, env, config.maximumFlows)
              && nextPacketID == Id(old(nextPacketID),
                                    TcpReplies(old(View()), tuple, sequence, flags, payload, env, config.maximumFlows))
      ensures effect == TcpFlow.Step(old(flowsByID[id]).tcp, Arrival(0, sequence, flags, payload, env.flow))
    {
      var f := flowsByID[id];
      effect := TcpFlow.Step(f.tcp, Arrival(0, sequence, flags, payload, env.flow));
      if Builds(f.tcp, sequence, flags, payload, env.flow) {
        SpendPacketID();
      }
      if effect.retired {
        RemoveFlow(id);
        if effect.deferred {
          pendingFlowCloses := pendingFlowCloses + [Close(id, CLOSE_RESET)];
          admitted := false;
        }
      } else {
        SetFlow(id, f.(tcp := effect.flow));
      }
    }

    method IngressTcp(tuple: Tuple, sequence: uint32, flags: byte, payload: Octets,
                      env: TcpEnv) returns (effect: Option<Effect>)
      requires Valid() && admitted && ValidTcp(tuple)
      modifies this
      ensures Valid()
      ensures View() == TcpPacket(old(View()), tuple, sequence, flags, payload, env, config.maximumFlows)
      ensures nextPacketID == Id(old(nextPacketID),
                                 TcpReplies(old(View()), tuple, sequence, flags, payload, env, config.maximumFlows))
      ensures if tuple !in old(flowsByTuple) then effect.None?
              else effect == Some(TcpFlow.Step(old(flowsByID[flowsByTuple[tuple]]).tcp,
                                               Arrival(0, sequence, flags, payload, env.flow)))
    {
      TcpKeeps(config, View(), tuple, sequence, flags, payload, env);
      effect := None;
      if tuple in flowsByTuple {
        var e := IngressFlow(flowsByTuple[tuple], sequence, flags, payload, env);
        effect := Some(e);
      } else if Has(flags, SYN) {
        IngressSyn(tuple, sequence, flags, payload, env);
      }
    }

    method IngressUdp(tuple: Tuple, now: int, env: UdpEnv)
      requires Valid() && admitted && ValidUdp(tuple)
      modifies this
      ensures Valid() && nextPacketID == old(nextPacketID)
      ensures View() == UdpPacket(old(View()), tuple, now, env, config.maximumFlows)
    {
      UdpKeeps(config, View(), tuple, now, env);
      if tuple in flowsByTuple {
        var id := flowsByTuple[tuple];
        if env.sendOk {
          if env.queue.Accepted? {
            SetFlow(id, flowsByID[id].(lastActivity := now));
          }
          return;
        }
        if env.hasFlow {
          return;
        }
        RemoveKeepsSound(config, View(), id);
        RemoveFlow(id);
      }
      OpenFlow(FlowEntry(tuple, UdpAssociation, TcpState(0, 0, false, false), now), env.openOk && env.queue.Accepted?);
    }

    method ExpireDnsRequests(now: int)
      modifies this`dnsRequests
      ensures View() == ExpireDns(old(View()), now)
    {
      var keys := dnsRequests.Keys;
      while keys != {}
        invariant keys <= old(dnsRequests).Keys
        invariant dnsRequests == map k | k in old(dnsRequests)
                  && (k in keys || now < old(dnsRequests)[k].expiresAt) :: old(dnsRequests)[k]
        decreases |keys|
      {
        var id :| id in keys;
        if now >= dnsRequests[id].expiresAt {
          dnsRequests := dnsRequests - {id};
        }
        keys := keys - {id};
      }
    }

    method IngressRelayedDns(query: Dns, now: int, ok: bool)
      requires Valid() && admitted && ValidDns(query)
      modifies this
      ensures Valid() && nextPacketID == old(nextPacketID)
      ensures View() == DnsQuery(old(View()), query, now, ok, config.maximumFlows)
    {
      DnsKeeps(config, View(), query, now, ok);
      ExpireDnsKeepsInv(View(), now, config.maximumFlows);
      ExpireDnsRequests(now);
      if |flowsByID| + |dnsRequests| >= config.maximumFlows {
        return;
      }
      AllocateNeverFails(View(), config.maximumFlows);
      var id := AllocateFlowID();
      if ok {
        dnsRequests := dnsRequests[id.value := query.(expiresAt := now + DNS_LIFETIME)];
      }
    }

    /** A query answered from here; `answered` says that the answer was built and its frame queued. */
    method IngressLocalDns(answered: bool)
      requires Valid()
      modifies this`nextFlowID, this`nextPacketID
      ensures Valid() && View() == LocalDns(old(View()), config.maximumFlows)
      ensures nextPacketID == Id(old(nextPacketID), if answered then 1 else 0)
    {
      LocalDnsKeeps(config, View());
      AllocateNeverFails(View(), config.maximumFlows);
      var id := AllocateFlowID();
      if answered {
        SpendPacketID();
      }
    }

    // ---------- relay frames ----------

    /** Sends one packet if it can be built within the limit. */
    method MakePacket(p: Packet) returns (e: Option<Emitted>)
      modifies this`nextPacketID
      ensures if Fits(config, p, old(nextPacketID)) then e == Some(Emitted(p, old(nextPacketID)))
              && nextPacketID == Id(old(nextPacketID), 1)
              else e.None? && nextPacketID == old(nextPacketID)
    {
      if !Fits(config, p, nextPacketID) {
        return None;
      }
      e := Some(Emitted(p, nextPacketID));
      nextPacketID := (nextPacketID + 1) % 65536;
    }

    method HandleRelayDns(id: nat, payload: Octets, now: int) returns (r: Reported)
      modifies this`dnsRequests, this`nextPacketID
      ensures Reports(r, old(Whole()), HandleDns(config, old(Whole()), id, payload, now), Whole())
    {
      if id !in dnsRequests {
        return Packets([]);
      }
      var d := dnsRequests[id];
      if now >= d.expiresAt {
        dnsRequests := dnsRequests - {id};
        return Packets([]);
      }
      if !DnsMatches(payload, d.transactionID) {
        return Refusal(InvalidFrame);
      }
      if |payload| > MaximumUdp(config, d.client) {
        dnsRequests := dnsRequests - {id};
        return Packets([]);
      }
      var e := MakePacket(UdpReply(d.client, d.target, d.clientPort, d.targetPort, payload));
      if e.None? {
        return Refusal(InvalidFrame);
      }
      dnsRequests := dnsRequests - {id};
      r := Packets([e.value]);
    }

    method HandleRelayConfirm(id: nat, proxyOk: bool) returns (r: Reported)
      ensures Reports(r, Whole(), HandleConfirm(Whole(), id, proxyOk), Whole())
    {
      if id !in flowsByID {
        return Packets([]);
      }
      if flowsByID[id].kind.TcpStream? {
        return Refusal(InvalidFrame);
      }
      r := if proxyOk then Packets([]) else Refusal(ProxyError);
    }

    method HandleRelayClose(id: nat, code: Option<nat>, proxyOk: bool) returns (r: Reported)
      requires Valid()
      modifies this
      ensures Reports(r, old(Whole()), HandleClose(config, old(Whole()), id, code, proxyOk), Whole())
    {
      if id !in flowsByID || flowsByID[id].tcp.peerClosed {
        return Packets([]);
      }
      if code.None? {
        return Refusal(InvalidFrame);
      }
      var f := flowsByID[id];
      if !proxyOk && !f.tcp.localClosed {
        return Refusal(ProxyError);
      }
      if f.kind.UdpAssociation? {
        RemoveFlow(id);
        return Packets([]);
      }
      TcpReplyFits(config, f, CloseFlags(code.value), nextPacketID);
      var e := MakePacket(TcpReply(f, CloseFlags(code.value)));
      if code.value != CLOSE_NORMAL || f.tcp.localClosed {
        RemoveFlow(id);
      } else {
        SetFlow(id, Closed(f));
      }
      r := Packets([e.value]);
    }

    method HandleRelayTcpData(id: nat, payload: Octets) returns (r: Reported)
      requires Valid() && id in flowsByID
      modifies this
      ensures Reports(r, old(Whole()), HandleTcpData(config, old(Whole()), id, payload), Whole())
    {
      var f := flowsByID[id];
      TcpDataHandled(config, Whole(), id, payload);
      var layout := RelayTcpLayout(FlowOf(f), |payload|, config.maximumPacket, config.maximumLocal);
      if layout.NoLayout? {
        return Refusal(InvalidFrame);
      }
      r := Packets(StreamPackets(FlowOf(f), payload, layout.size, layout.count, nextPacketID));
      nextPacketID := Id(nextPacketID, layout.count);
      SetFlow(id, Relayed(f, |payload|));
    }

    method HandleRelayUdpData(id: nat, payload: Octets, now: int) returns (r: Reported)
      requires Valid() && id in flowsByID
      modifies this
      ensures Reports(r, old(Whole()), HandleUdpData(config, old(Whole()), id, payload, now), Whole())
    {
      var f := flowsByID[id];
      if |payload| > MaximumUdp(config, f.tuple.client) {
        return Packets([]);
      }
      UdpFits(config, f.tuple.client, f.tuple.target, f.tuple.clientPort, f.tuple.targetPort, payload, nextPacketID);
      SetFlow(id, f.(lastActivity := now));
      var e := MakePacket(UdpReply(f.tuple.client, f.tuple.target, f.tuple.clientPort, f.tuple.targetPort, payload));
      r := Packets([e.value]);
    }

    method HandleRelayData(id: nat, payload: Octets, stream: bool, now: int) returns (r: Reported)
      requires Valid()
      modifies this
      ensures Reports(r, old(Whole()), HandleData(config, old(Whole()), id, payload, stream, now), Whole())
    {
      if id !in flowsByID {
        return Packets([]);
      }
      var f := flowsByID[id];
      if f.tcp.peerClosed {
        return Refusal(InvalidFrame);
      }
      if f.kind.TcpStream? {
        if !stream {
          return Refusal(InvalidFrame);
        }
        r := HandleRelayTcpData(id, payload);
      } else if stream && !config.udpOverStream {
        r := Refusal(InvalidFrame);
      } else {
        r := HandleRelayUdpData(id, payload, now);
      }
    }

    method HandleRelayFrame(frame: RelayFrame, now: int, proxyOk: bool) returns (r: Reported)
      requires Valid()
      modifies this
      ensures Reports(r, old(Whole()), Handle(config, old(Whole()), frame, now, proxyOk), Whole())
    {
      match frame
      case Padding => r := Packets([]);
      case DnsMessage(id, payload) => r := HandleRelayDns(id, payload, now);
      case TargetConfirm(id) => r := HandleRelayConfirm(id, proxyOk);
      case FlowClose(id, code) => r := HandleRelayClose(id, code, proxyOk);
      case StreamFrame(id, payload) => r := HandleRelayData(id, payload, true, now);
      case DatagramFrame(id, payload) => r := HandleRelayData(id, payload, false, now);
      case OtherFrame => r := Refusal(InvalidFrame);
    }

    /** Looks at the whole batch and changes nothing. */
    method CheckRelayBatch(frames: seq<RelayFrame>, now: int) returns (check: Option<Shadow>)
      ensures check == CheckAll(config, View(), frames, now)
    {
      check := Some(Shadow(Life({}, {}, {}), 0));
      for i := 0 to |frames|
        invariant check.Some? && check == CheckAll(config, View(), frames[..i], now)
      {
        assert frames[..i + 1][..i] == frames[..i];
        check := Check(config, Tables(flowsByTuple, flowsByID, dnsRequests, pendingFlowCloses, nextFlowID, false),
                       check.value, frames[i], now);
        if check.None? {
          FailedCheckStays(config, View(), frames, i + 1, now);
          return;
        }
      }
      assert frames[..|frames|] == frames;
    }

    /**
     * Handles a batch only after the whole of it has passed the check. A batch that fails the check changes no flow,
     * sequence number or packet identifier; one that passes sends exactly the packets the check counted, unless the
     * proxy stops it.
     */
    method HandleFrameBlocks(frames: seq<RelayFrame>, now: int, proxy: nat -> bool) returns (r: Reported)
      requires Valid()
      modifies this
      ensures Valid() && Whole() == HandleBatch(config, old(Whole()), frames, now, proxy)
      ensures var live := old(Whole()).(tables := ExpireDns(old(View()), now));
              var check := CheckAll(config, live.tables, frames, now);
              if check.None? then r.Refusal? && Whole() == live
              else r == Refusal(ProxyError) || (r.Packets? && |r.packets| == check.value.count <= config.maximumLocal)
    {
      BatchKeepsSound(config, Whole(), frames, now, proxy);
      ExpireDnsKeepsInv(View(), now, config.maximumFlows);
      ExpireDnsRequests(now);
      ghost var live := Whole();
      var check := CheckRelayBatch(frames, now);
      if check.None? {
        return Refusal(InvalidFrame);
      }
      PassedCheckIsKept(config, live, frames, now, proxy);
      r := HandleBlocks(frames, now, proxy);
    }

    /** The loop over the frames, with its own test of the packet limit. */
    method HandleBlocks(frames: seq<RelayFrame>, now: int, proxy: nat -> bool) returns (r: Reported)
      requires Valid()
      modifies this
      ensures Whole() == HandleAll(config, old(Whole()), frames, now, proxy).world
      ensures r == Outcome(HandleAll(config, old(Whole()), frames, now, proxy))
    {
      var sent: seq<Emitted> := [];
      for i := 0 to |frames|
        invariant Valid() && HandleAll(config, old(Whole()), frames[..i], now, proxy) == Sent(Whole(), sent)
      {
        assert frames[..i + 1][..i] == frames[..i];
        BatchKeeps(config, old(Whole()), frames[..i + 1], now, proxy);
        var step := HandleRelayFrame(frames[i], now, proxy(i));
        if step.Refusal? || |step.packets| > config.maximumLocal - |sent| {
          StoppedStays(config, old(Whole()), frames, i + 1, now, proxy);
          return if step.Refusal? then step else Refusal(OverLimit);
        }
        sent := sent + step.packets;
      }
      assert frames[..|frames|] == frames;
      r := Packets(sent);
    }
  }

  lemma RemoveKeepsSound(c: Config, t: Tables, id: nat)
    requires Sound(c, t) && id in t.byId
    ensures Sound(c, Remove(t, id)) && t.byId[id].tuple !in Remove(t, id).byTuple
  {
    RemoveKeepsInv(t, id, c.maximumFlows);
  }

  lemma SynOpensFlow(c: Config, t: Tables, tuple: Tuple, sequence: uint32, flags: byte, payload: Octets, env: TcpEnv)
    requires Sound(c, t) && tuple !in t.byTuple && Has(flags, SYN) && PlainSyn(flags, payload)
    requires Count(t) < c.maximumFlows && env.flow.room
    ensures var ok := env.openOk && env.flow.queue.Accepted?;
            && TcpPacket(t, tuple, sequence, flags, payload, env, c.maximumFlows)
               == Open(t, FlowEntry(tuple, TcpStream, Opened(sequence, env.serverSequence), 0), ok, c.maximumFlows)
            && TcpReplies(t, tuple, sequence, flags, payload, env, c.maximumFlows) == if ok then 1 else 0
  {
    AllocateNeverFails(t, c.maximumFlows);
  }

  function Outcome(b: Batch): Reported {
    if b.Sent? then Packets(b.packets) else Refusal(b.why)
  }

  lemma {:induction false} StoppedStays(c: Config, w: World, frames: seq<RelayFrame>, n: nat, now: int,
                                        proxy: nat -> bool)
    requires n <= |frames| && HandleAll(c, w, frames[..n], now, proxy).Stopped?
    ensures HandleAll(c, w, frames, now, proxy) == HandleAll(c, w, frames[..n], now, proxy)
    decreases |frames| - n
  {
    if n < |frames| {
      assert frames[..n + 1][..n] == frames[..n];
      StoppedStays(c, w, frames, n + 1, now, proxy);
    } else {
      assert frames[..n] == frames;
    }
  }

  datatype Reported = Packets(packets: seq<Emitted>) | Refusal(why: Why)

  /** A handler's report and the adapter it leaves behind are those of the specification. */
  ghost predicate Reports(r: Reported, before: World, h: Handled, after: World) {
    match h
    case Handled(world, packets) => r == Packets(packets) && after == world
    case ProxyRefused => r == Refusal(ProxyError) && after == before
    case Invalid => r == Refusal(InvalidFrame) && after == before
  }

  lemma {:induction false} FailedCheckStays(c: Config, t: Tables, frames: seq<RelayFrame>, n: nat, now: int)
    requires n <= |frames| && CheckAll(c, t, frames[..n], now).None?
    ensures CheckAll(c, t, frames, now).None?
    decreases |frames| - n
  {
    if n < |frames| {
      assert frames[..n + 1][..n] == frames[..n];
      FailedCheckStays(c, t, frames, n + 1, now);
    } else {
      assert frames[..n] == frames;
    }
  }

  lemma BeginUnfolds(t: Tables, ids: seq<nat>)
    requires forall i :: 0 <= i < |ids| ==> ids[i] in t.byId
    requires forall i, j :: 0 <= i < j < |ids| ==> ids[i] != ids[j]
    ensures RemoveAll(t, ids).pending == t.pending
    decreases |ids|
  {
    if ids != [] {
      BeginUnfolds(Remove(t, ids[0]), ids[1..]);
    }
  }
}
