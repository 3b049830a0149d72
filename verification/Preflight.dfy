/** The check of a whole relay batch before any of it is handled. */
module Preflight {
  import opened Bytes
  import opened Segments
  import opened TcpFlow
  import opened FlowTable
  import opened Relay

  /** What the frames looked at so far will have done to flows and requests. */
  datatype Life = Life(retired: set<nat>, peerClosed: set<nat>, dns: set<nat>)

  datatype Shadow = Shadow(life: Life, count: nat)

  function Plus(c: Config, sh: Shadow, packets: nat): Option<Shadow> {
    if packets > c.maximumLocal - sh.count then None else Some(sh.(count := sh.count + packets))
  }

  function Retired(life: Life, id: nat): Life {
    life.(retired := life.retired + {id})
  }

  function HalfClosed(life: Life, id: nat): Life {
    life.(peerClosed := life.peerClosed + {id})
  }

  function Answered(life: Life, id: nat): Life {
    life.(dns := life.dns + {id})
  }

  function CheckDns(c: Config, t: Tables, sh: Shadow, id: nat, payload: Octets, now: int): Option<Shadow> {
    if id in sh.life.dns || id !in t.dns || now >= t.dns[id].expiresAt then Some(sh)
    else if !DnsMatches(payload, t.dns[id].transactionID) then None
    else
      var done := sh.(life := Answered(sh.life, id));
      if |payload| <= MaximumUdp(c, t.dns[id].client) then Plus(c, done, 1) else Some(done)
  }

  function CheckConfirm(t: Tables, sh: Shadow, id: nat): Option<Shadow> {
    if id !in sh.life.retired && id in t.byId && t.byId[id].kind.TcpStream? then None else Some(sh)
  }

  function CheckClose(c: Config, t: Tables, sh: Shadow, id: nat, code: Option<nat>): Option<Shadow> {
    if id in sh.life.retired || id !in t.byId || t.byId[id].tcp.peerClosed || id in sh.life.peerClosed then Some(sh)
    else if code.None? then None
    else if t.byId[id].kind.UdpAssociation? then Some(sh.(life := Retired(sh.life, id)))
    else
      var counted := Plus(c, sh, 1);
      if counted.None? then None
      else if code.value != CLOSE_NORMAL
        || t.byId[id].tcp.localClosed then Some(counted.value.(life := Retired(sh.life, id)))
      else Some(counted.value.(life := HalfClosed(sh.life, id)))
  }

  function CheckData(c: Config, t: Tables, sh: Shadow, id: nat, payload: Octets, stream: bool): Option<Shadow> {
    if id in sh.life.retired || id !in t.byId then Some(sh)
    else
      var f := t.byId[id];
      if f.tcp.peerClosed || id in sh.life.peerClosed then None
      else if f.kind.TcpStream? then
        var layout := RelayTcpLayout(FlowOf(f), |payload|, c.maximumPacket, c.maximumLocal);
        if !stream || layout.NoLayout? then None else Plus(c, sh, layout.count)
      else if stream && !c.udpOverStream then None
      else if |payload| <= MaximumUdp(c, f.tuple.client) then Plus(c, sh, 1)
      else Some(sh)
  }

  function Check(c: Config, t: Tables, sh: Shadow, frame: RelayFrame, now: int): Option<Shadow> {
    match frame
    case Padding => Some(sh)
    case DnsMessage(id, payload) => CheckDns(c, t, sh, id, payload, now)
    case TargetConfirm(id) => CheckConfirm(t, sh, id)
    case FlowClose(id, code) => CheckClose(c, t, sh, id, code)
    case StreamFrame(id, payload) => CheckData(c, t, sh, id, payload, true)
    case DatagramFrame(id, payload) => CheckData(c, t, sh, id, payload, false)
    case OtherFrame => None
  }

  /** Looks at every frame of the batch without changing anything. */
  function CheckAll(c: Config, t: Tables, frames: seq<RelayFrame>, now: int): Option<Shadow> {
    if frames == [] then Some(Shadow(Life({}, {}, {}), 0))
    else
      var before := CheckAll(c, t, frames[..|frames| - 1], now);
      if before.None? then None else Check(c, t, before.value, frames[|frames| - 1], now)
  }

  // ---------- handling the batch ----------

  datatype Why = ProxyError | InvalidFrame | OverLimit

  datatype Batch = Sent(world: World, packets: seq<Emitted>) | Stopped(world: World, why: Why)

  function Collect(c: Config, before: Batch, h: Handled): Batch
    requires before.Sent?
  {
    match h
    case ProxyRefused => Stopped(before.world, ProxyError)
    case Invalid => Stopped(before.world, InvalidFrame)
    case Handled(world, packets) =>
      if |packets| > c.maximumLocal - |before.packets| then Stopped(world, OverLimit)
      else Sent(world, before.packets + packets)
  }

  /** `proxy(i)` is the proxy's answer to frame `i`. */
  function HandleAll(c: Config, w: World, frames: seq<RelayFrame>, now: int, proxy: nat -> bool): Batch {
    if frames == [] then Sent(w, [])
    else
      var last := |frames| - 1;
      var before := HandleAll(c, w, frames[..last], now, proxy);
      if !before.Sent? then before else Collect(c, before, Handle(c, before.world, frames[last], now, proxy(last)))
  }

  // ---------- the shadow follows the tables ----------

  predicate SameFlow(f: FlowEntry, g: FlowEntry) {
    f.tuple == g.tuple && f.kind == g.kind && f.tcp.localClosed == g.tcp.localClosed
  }

  predicate SimFlow(t: Tables, life: Life, n: Tables, id: nat) {
    if id in t.byId && id !in life.retired then
      && id in n.byId && SameFlow(t.byId[id], n.byId[id])
      && (n.byId[id].tcp.peerClosed <==> t.byId[id].tcp.peerClosed || id in life.peerClosed)
    else id !in n.byId
  }

  predicate SimDns(t: Tables, life: Life, n: Tables, now: int, id: nat) {
    if id in t.dns && now < t.dns[id].expiresAt && id !in life.dns then id in n.dns && n.dns[id] == t.dns[id]
    else id in n.dns ==> now >= n.dns[id].expiresAt
  }

  /** `n` is where the batch has brought the tables that started as `t`. */
  ghost predicate Sim(t: Tables, life: Life, n: Tables, now: int) {
    (forall id: nat :: SimFlow(t, life, n, id)) && (forall id: nat :: SimDns(t, life, n, now, id))
  }

  /**
   * A frame that passes the check is handled, with the predicted packets, unless the proxy refuses it; one that
   * fails the check would be refused by its handler or send too many packets.
   */
  ghost predicate Agrees(c: Config, t: Tables, sh: Shadow, now: int, check: Option<Shadow>, h: Handled, proxyOk: bool) {
    && (check.Some? ==> !h.Invalid? && check.value.count <= c.maximumLocal)
    && (check.Some? && h.Handled? ==>
          |h.packets| == check.value.count - sh.count && Sim(t, check.value.life, h.world.tables, now))
    && (check.None? && proxyOk ==> h.Invalid? || (h.Handled? && |h.packets| > c.maximumLocal - sh.count))
    && (h.ProxyRefused? ==> !proxyOk)
  }

  lemma AnsweredSim(t: Tables, life: Life, n: Tables, id: nat, now: int)
    requires Sim(t, life, n, now)
    ensures Sim(t, Answered(life, id), WithoutDns(n, id), now)
    ensures id in n.dns && now >= n.dns[id].expiresAt ==> Sim(t, life, WithoutDns(n, id), now)
  {
    var m := WithoutDns(n, id);
    forall k: nat
      ensures SimFlow(t, Answered(life, id), m, k) && SimFlow(t, life, m, k) && SimDns(t, Answered(life, id), m, now, k)
      ensures id in n.dns && now >= n.dns[id].expiresAt ==> SimDns(t, life, m, now, k)
    {
      assert SimFlow(t, life, n, k) && SimDns(t, life, n, now, k);
    }
  }

  lemma DnsAgrees(c: Config, t: Tables, sh: Shadow, w: World, id: nat, payload: Octets, now: int, proxyOk: bool)
    requires Sound(c, w.tables) && Sim(t, sh.life, w.tables, now) && sh.count <= c.maximumLocal
    ensures Agrees(c, t, sh, now, CheckDns(c, t, sh, id, payload, now), HandleDns(c, w, id, payload, now), proxyOk)
  {
    assert SimDns(t, sh.life, w.tables, now, id);
    if id in w.tables.dns && |payload| <= MaximumUdp(c, w.tables.dns[id].client) {
      var d := w.tables.dns[id];
      UdpFits(c, d.client, d.target, d.clientPort, d.targetPort, payload, w.nextPacketID);
    }
    AnsweredSim(t, sh.life, w.tables, id, now);
  }

  lemma ConfirmAgrees(c: Config, t: Tables, sh: Shadow, w: World, id: nat, now: int, proxyOk: bool)
    requires Sim(t, sh.life, w.tables, now) && sh.count <= c.maximumLocal
    ensures Agrees(c, t, sh, now, CheckConfirm(t, sh, id), HandleConfirm(w, id, proxyOk), proxyOk)
  {
    assert SimFlow(t, sh.life, w.tables, id);
  }

  lemma RetiredSim(t: Tables, life: Life, n: Tables, id: nat, now: int)
    requires Sim(t, life, n, now) && id in n.byId
    ensures Sim(t, Retired(life, id), Remove(n, id), now)
  {
    var m := Remove(n, id);
    forall k: nat ensures SimFlow(t, Retired(life, id), m, k) && SimDns(t, Retired(life, id), m, now, k) {
      assert SimFlow(t, life, n, k) && SimDns(t, life, n, now, k);
    }
  }

  lemma HalfClosedSim(t: Tables, life: Life, n: Tables, id: nat, now: int)
    requires Sim(t, life, n, now) && id in n.byId
    ensures Sim(t, HalfClosed(life, id), Update(n, id, Closed(n.byId[id])), now)
  {
    var m := Update(n, id, Closed(n.byId[id]));
    forall k: nat ensures SimFlow(t, HalfClosed(life, id), m, k) && SimDns(t, HalfClosed(life, id), m, now, k) {
      assert SimFlow(t, life, n, k) && SimDns(t, life, n, now, k);
    }
  }

  lemma CloseSim(t: Tables, life: Life, n: Tables, id: nat, code: nat, now: int)
    requires Sim(t, life, n, now) && id in n.byId && n.byId[id].kind.TcpStream?
    ensures Sim(t, if code != CLOSE_NORMAL || n.byId[id].tcp.localClosed then Retired(life, id)
                else HalfClosed(life, id),
                AfterClose(n, id, code), now)
  {
    if code != CLOSE_NORMAL || n.byId[id].tcp.localClosed {
      RetiredSim(t, life, n, id, now);
    } else {
      HalfClosedSim(t, life, n, id, now);
    }
  }

  lemma TcpCloseHandled(c: Config, w: World, id: nat, code: nat, proxyOk: bool)
    requires Sound(c, w.tables) && id in w.tables.byId && w.tables.byId[id].kind.TcpStream?
    requires !w.tables.byId[id].tcp.peerClosed && (proxyOk || w.tables.byId[id].tcp.localClosed)
    ensures var h := HandleClose(c, w, id, Some(code), proxyOk);
            h.Handled? && h.world.tables == AfterClose(w.tables, id, code) && |h.packets| == 1
  {
    TcpReplyFits(c, w.tables.byId[id], CloseFlags(code), w.nextPacketID);
  }

  lemma LiveCloseAgrees(c: Config, t: Tables, sh: Shadow, w: World, id: nat, code: nat, now: int, proxyOk: bool)
    requires Sound(c, w.tables) && Sim(t, sh.life, w.tables, now) && sh.count <= c.maximumLocal
    requires id in w.tables.byId && !w.tables.byId[id].tcp.peerClosed && (proxyOk || w.tables.byId[id].tcp.localClosed)
    ensures Agrees(c, t, sh, now, CheckClose(c, t, sh, id, Some(code)), HandleClose(c, w, id, Some(code), proxyOk),
                   proxyOk)
  {
    assert SimFlow(t, sh.life, w.tables, id);
    if w.tables.byId[id].kind.TcpStream? {
      TcpCloseAgrees(c, t, sh, w, id, code, now, proxyOk);
    } else {
      RetiredSim(t, sh.life, w.tables, id, now);
    }
  }

  lemma TcpCloseAgrees(c: Config, t: Tables, sh: Shadow, w: World, id: nat, code: nat, now: int, proxyOk: bool)
    requires Sound(c, w.tables) && Sim(t, sh.life, w.tables, now) && sh.count <= c.maximumLocal
    requires id in w.tables.byId && !w.tables.byId[id].tcp.peerClosed && (proxyOk || w.tables.byId[id].tcp.localClosed)
    requires w.tables.byId[id].kind.TcpStream?
    ensures Agrees(c, t, sh, now, CheckClose(c, t, sh, id, Some(code)), HandleClose(c, w, id, Some(code), proxyOk),
                   proxyOk)
  {
    assert SimFlow(t, sh.life, w.tables, id);
    TcpCloseHandled(c, w, id, code, proxyOk);
    CloseSim(t, sh.life, w.tables, id, code, now);
    CheckedClose(c, t, sh, w.tables, id, code);
  }

  /** What the check makes of a close for a stream that is open. */
  lemma CheckedClose(c: Config, t: Tables, sh: Shadow, n: Tables, id: nat, code: nat)
    requires SimFlow(t, sh.life, n, id) && id in n.byId && n.byId[id].kind.TcpStream? && !n.byId[id].tcp.peerClosed
    ensures var check := CheckClose(c, t, sh, id, Some(code));
            if 1 > c.maximumLocal - sh.count then check.None?
            else check == Some(Shadow(if code != CLOSE_NORMAL || n.byId[id].tcp.localClosed then Retired(sh.life, id)
                                      else HalfClosed(sh.life, id), sh.count + 1))
  {
  }

  lemma CloseAgrees(c: Config, t: Tables, sh: Shadow, w: World, id: nat, code: Option<nat>, now: int, proxyOk: bool)
    requires Sound(c, w.tables) && Sim(t, sh.life, w.tables, now) && sh.count <= c.maximumLocal
    ensures Agrees(c, t, sh, now, CheckClose(c, t, sh, id, code), HandleClose(c, w, id, code, proxyOk), proxyOk)
  {
    assert SimFlow(t, sh.life, w.tables, id);
    if id in w.tables.byId && !w.tables.byId[id].tcp.peerClosed && code.Some? {
      if proxyOk || w.tables.byId[id].tcp.localClosed {
        LiveCloseAgrees(c, t, sh, w, id, code.value, now, proxyOk);
      }
    }
  }

  lemma UpdateSim(t: Tables, life: Life, n: Tables, id: nat, f: FlowEntry, now: int)
    requires Sim(t, life, n, now) && id in n.byId && SameFlow(n.byId[id], f)
             && f.tcp.peerClosed == n.byId[id].tcp.peerClosed
    ensures Sim(t, life, Update(n, id, f), now)
  {
    var m := Update(n, id, f);
    forall k: nat ensures SimFlow(t, life, m, k) && SimDns(t, life, m, now, k) {
      assert SimFlow(t, life, n, k) && SimDns(t, life, n, now, k);
    }
  }

  function Relayed(f: FlowEntry, octets: nat): FlowEntry {
    f.(tcp := f.tcp.(relayNext := Advance(f.tcp.relayNext, octets)))
  }

  lemma TcpDataHandled(c: Config, w: World, id: nat, payload: Octets)
    requires Sound(c, w.tables) && id in w.tables.byId
    ensures var f := w.tables.byId[id];
            var layout := RelayTcpLayout(FlowOf(f), |payload|, c.maximumPacket, c.maximumLocal);
            var h := HandleTcpData(c, w, id, payload);
            if layout.NoLayout? then h.Invalid?
            else
              && h.Handled? && h.world.tables == Update(w.tables, id, Relayed(f, |payload|))
              && |h.packets| == layout.count
  {
    var f := w.tables.byId[id];
    var layout := RelayTcpLayout(FlowOf(f), |payload|, c.maximumPacket, c.maximumLocal);
    if layout.Layout? {
      forall i | 0 <= i < layout.count
        ensures var e := StreamPacket(FlowOf(f), payload, layout.size, i, w.nextPacketID); Fits(c, e.packet, e.id)
      {
        StreamFits(c, f, payload, layout.size, i, w.nextPacketID);
      }
    }
  }

  lemma TcpDataAgrees(c: Config, t: Tables, sh: Shadow, w: World, id: nat, payload: Octets, now: int, proxyOk: bool)
    requires Sound(c, w.tables) && Sim(t, sh.life, w.tables, now) && sh.count <= c.maximumLocal
    requires id in w.tables.byId && w.tables.byId[id].kind.TcpStream? && !w.tables.byId[id].tcp.peerClosed
    ensures Agrees(c, t, sh, now, CheckData(c, t, sh, id, payload, true), HandleTcpData(c, w, id, payload), proxyOk)
  {
    assert SimFlow(t, sh.life, w.tables, id);
    TcpDataHandled(c, w, id, payload);
    UpdateSim(t, sh.life, w.tables, id, Relayed(w.tables.byId[id], |payload|), now);
    SameLayout(t.byId[id], w.tables.byId[id], |payload|, c);
  }

  lemma SameLayout(f: FlowEntry, g: FlowEntry, octets: nat, c: Config)
    requires SameFlow(f, g)
    ensures RelayTcpLayout(FlowOf(f), octets, c.maximumPacket, c.maximumLocal)
            == RelayTcpLayout(FlowOf(g), octets, c.maximumPacket, c.maximumLocal)
  {
  }

  lemma UdpDataAgrees(c: Config, t: Tables, sh: Shadow, w: World, id: nat, payload: Octets, stream: bool, now: int,
                      proxyOk: bool)
    requires Sound(c, w.tables) && Sim(t, sh.life, w.tables, now) && sh.count <= c.maximumLocal
    requires id in w.tables.byId && w.tables.byId[id].kind.UdpAssociation? && !w.tables.byId[id].tcp.peerClosed
    requires stream ==> c.udpOverStream
    ensures Agrees(c, t, sh, now, CheckData(c, t, sh, id, payload, stream), HandleUdpData(c, w, id, payload, now),
                   proxyOk)
  {
    assert SimFlow(t, sh.life, w.tables, id);
    var f := w.tables.byId[id];
    if |payload| <= MaximumUdp(c, f.tuple.client) {
      UdpFits(c, f.tuple.client, f.tuple.target, f.tuple.clientPort, f.tuple.targetPort, payload, w.nextPacketID);
      UpdateSim(t, sh.life, w.tables, id, f.(lastActivity := now), now);
    }
  }

  lemma DataAgrees(c: Config, t: Tables, sh: Shadow, w: World, id: nat, payload: Octets, stream: bool, now: int,
                   proxyOk: bool)
    requires Sound(c, w.tables) && Sim(t, sh.life, w.tables, now) && sh.count <= c.maximumLocal
    ensures Agrees(c, t, sh, now, CheckData(c, t, sh, id, payload, stream), HandleData(c, w, id, payload, stream, now),
                   proxyOk)
  {
    assert SimFlow(t, sh.life, w.tables, id);
    if id in w.tables.byId && !w.tables.byId[id].tcp.peerClosed {
      if w.tables.byId[id].kind.TcpStream? {
        if stream {
          TcpDataAgrees(c, t, sh, w, id, payload, now, proxyOk);
        }
      } else if stream ==> c.udpOverStream {
        UdpDataAgrees(c, t, sh, w, id, payload, stream, now, proxyOk);
      }
    }
  }

  lemma FrameAgrees(c: Config, t: Tables, sh: Shadow, w: World, frame: RelayFrame, now: int, proxyOk: bool)
    requires Sound(c, w.tables) && Sim(t, sh.life, w.tables, now) && sh.count <= c.maximumLocal
    ensures Agrees(c, t, sh, now, Check(c, t, sh, frame, now), Handle(c, w, frame, now, proxyOk), proxyOk)
  {
    match frame
    case Padding =>
    case DnsMessage(id, payload) => DnsAgrees(c, t, sh, w, id, payload, now, proxyOk);
    case TargetConfirm(id) => ConfirmAgrees(c, t, sh, w, id, now, proxyOk);
    case FlowClose(id, code) => CloseAgrees(c, t, sh, w, id, code, now, proxyOk);
    case StreamFrame(id, payload) => DataAgrees(c, t, sh, w, id, payload, true, now, proxyOk);
    case DatagramFrame(id, payload) => DataAgrees(c, t, sh, w, id, payload, false, now, proxyOk);
    case OtherFrame =>
  }

  // ---------- the batch ----------

  lemma InitialSim(t: Tables, now: int)
    ensures Sim(t, Life({}, {}, {}), t, now)
  {
  }

  ghost predicate Follows(c: Config, t: Tables, now: int, check: Option<Shadow>, b: Batch) {
    check.Some? && b.Sent? ==>
      && Sound(c, b.world.tables) && Sim(t, check.value.life, b.world.tables, now)
      && |b.packets| == check.value.count <= c.maximumLocal
  }

  predicate StoppedBy(b: Batch, why: Why) {
    b.Stopped? && b.why == why
  }

  lemma BatchStep(c: Config, t: Tables, sh: Shadow, b: Batch, frame: RelayFrame, now: int, proxyOk: bool)
    requires b.Sent? && Follows(c, t, now, Some(sh), b)
    ensures var check := Check(c, t, sh, frame, now);
            var after := Collect(c, b, Handle(c, b.world, frame, now, proxyOk));
            && Follows(c, t, now, check, after)
            && (check.Some? ==> after.Sent? || StoppedBy(after, ProxyError))
            && (check.None? && proxyOk ==> after.Stopped?)
            && (StoppedBy(after, ProxyError) ==> !proxyOk && after.world == b.world)
  {
    FrameAgrees(c, t, sh, b.world, frame, now, proxyOk);
    if Handle(c, b.world, frame, now, proxyOk).Handled? {
      HandleKeeps(c, b.world, frame, now, proxyOk);
    }
  }

  lemma {:induction false} BatchFollows(c: Config, w: World, frames: seq<RelayFrame>, now: int, proxy: nat -> bool)
    requires Sound(c, w.tables)
    ensures var check := CheckAll(c, w.tables, frames, now);
            var b := HandleAll(c, w, frames, now, proxy);
            && Follows(c, w.tables, now, check, b)
            && (check.Some? ==> b.Sent? || StoppedBy(b, ProxyError))
            && (check.None? && (forall i :: 0 <= i < |frames| ==> proxy(i)) ==> b.Stopped?)
            && (StoppedBy(b, ProxyError) ==> exists i :: 0 <= i < |frames| && !proxy(i))
    decreases |frames|
  {
    if frames == [] {
      InitialSim(w.tables, now);
    } else {
      var last := |frames| - 1;
      BatchFollows(c, w, frames[..last], now, proxy);
      var check := CheckAll(c, w.tables, frames[..last], now);
      var b := HandleAll(c, w, frames[..last], now, proxy);
      if b.Sent? {
        if check.Some? {
          BatchStep(c, w.tables, check.value, b, frames[last], now, proxy(last));
        }
      }
    }
  }

  /** Whatever the batch, the tables stay consistent, even when it is stopped half-way. */
  lemma {:induction false} BatchKeeps(c: Config, w: World, frames: seq<RelayFrame>, now: int, proxy: nat -> bool)
    requires Sound(c, w.tables)
    ensures Sound(c, HandleAll(c, w, frames, now, proxy).world.tables)
    decreases |frames|
  {
    if frames != [] {
      var last := |frames| - 1;
      BatchKeeps(c, w, frames[..last], now, proxy);
      var b := HandleAll(c, w, frames[..last], now, proxy);
      if b.Sent? && Handle(c, b.world, frames[last], now, proxy(last)).Handled? {
        HandleKeeps(c, b.world, frames[last], now, proxy(last));
      }
    }
  }

  /**
   * If the check passes, then only the proxy can stop the batch, the packets are as many as predicted, and the limit
   * tested again while handling is never exceeded.
   */
  lemma PassedCheckIsKept(c: Config, w: World, frames: seq<RelayFrame>, now: int, proxy: nat -> bool)
    requires Sound(c, w.tables) && CheckAll(c, w.tables, frames, now).Some?
    ensures var b := HandleAll(c, w, frames, now, proxy);
            && (b.Sent? || StoppedBy(b, ProxyError))
            && (b.Sent? ==> |b.packets| == CheckAll(c, w.tables, frames, now).value.count <= c.maximumLocal)
  {
    BatchFollows(c, w, frames, now, proxy);
  }

  /** With a willing proxy the check refuses exactly the batches that handling would refuse. */
  lemma CheckIsExact(c: Config, w: World, frames: seq<RelayFrame>, now: int, proxy: nat -> bool)
    requires Sound(c, w.tables) && forall i :: 0 <= i < |frames| ==> proxy(i)
    ensures CheckAll(c, w.tables, frames, now).Some? <==> HandleAll(c, w, frames, now, proxy).Sent?
  {
    BatchFollows(c, w, frames, now, proxy);
  }

  // ---------- the proxy ----------

  /**
   * The frame is put to the proxy: the confirmation of an association that is still there, or the first close of a
   * flow whose client has not closed it. `sh` is what the earlier frames will have done.
   */
  predicate Asks(t: Tables, sh: Shadow, frame: RelayFrame) {
    match frame
    case TargetConfirm(id) => id in t.byId && id !in sh.life.retired
    case FlowClose(id, _) =>
      && id in t.byId && id !in sh.life.retired && !t.byId[id].tcp.peerClosed && id !in sh.life.peerClosed
      && !t.byId[id].tcp.localClosed
    case _ => false
  }

  /** Frame `i` of a batch is put to the proxy. */
  predicate AsksAt(c: Config, t: Tables, frames: seq<RelayFrame>, i: nat, now: int)
    requires i < |frames|
  {
    var sh := CheckAll(c, t, frames[..i], now);
    sh.Some? && Asks(t, sh.value, frames[i])
  }

  /** The proxy accepts every frame that is put to it. */
  predicate Willing(c: Config, t: Tables, frames: seq<RelayFrame>, now: int, proxy: nat -> bool) {
    forall i :: 0 <= i < |frames| && AsksAt(c, t, frames, i, now) ==> proxy(i)
  }

  lemma RefusedIff(c: Config, t: Tables, sh: Shadow, w: World, frame: RelayFrame, now: int, proxyOk: bool)
    requires Sim(t, sh.life, w.tables, now) && Check(c, t, sh, frame, now).Some?
    ensures Handle(c, w, frame, now, proxyOk).ProxyRefused? <==> Asks(t, sh, frame) && !proxyOk
  {
    match frame
    case TargetConfirm(id) => assert SimFlow(t, sh.life, w.tables, id);
    case FlowClose(id, _) => assert SimFlow(t, sh.life, w.tables, id);
    case _ =>
  }

  lemma WillingPrefix(c: Config, t: Tables, frames: seq<RelayFrame>, now: int, proxy: nat -> bool)
    requires frames != []
    ensures var last := |frames| - 1;
            Willing(c, t, frames, now, proxy)
            <==> Willing(c, t, frames[..last], now, proxy) && (AsksAt(c, t, frames, last, now) ==> proxy(last))
  {
    var last := |frames| - 1;
    forall i | 0 <= i < last ensures AsksAt(c, t, frames[..last], i, now) <==> AsksAt(c, t, frames, i, now) {
      assert frames[..last][..i] == frames[..i];
    }
  }

  /** The exact condition: a batch that passes its check is sent if and only if the proxy accepts what is put to it. */
  lemma {:induction false} SentIff(c: Config, w: World, frames: seq<RelayFrame>, now: int, proxy: nat -> bool)
    requires Sound(c, w.tables) && CheckAll(c, w.tables, frames, now).Some?
    ensures HandleAll(c, w, frames, now, proxy).Sent? <==> Willing(c, w.tables, frames, now, proxy)
    decreases |frames|
  {
    if frames != [] {
      var last := |frames| - 1;
      SentIff(c, w, frames[..last], now, proxy);
      WillingPrefix(c, w.tables, frames, now, proxy);
      BatchFollows(c, w, frames[..last], now, proxy);
      var sh := CheckAll(c, w.tables, frames[..last], now).value;
      var b := HandleAll(c, w, frames[..last], now, proxy);
      if b.Sent? {
        RefusedIff(c, w.tables, sh, b.world, frames[last], now, proxy(last));
        BatchStep(c, w.tables, sh, b, frames[last], now, proxy(last));
      }
    }
  }

  /**
   * Otherwise it is stopped at the first frame that the proxy refuses. It has then taken effect up to that frame,
   * though none of its packets is sent.
   */
  lemma {:induction false} RefusalKeepsEarlierFrames(c: Config, w: World, frames: seq<RelayFrame>, now: int,
                                                     proxy: nat -> bool)
      returns (n: nat)
    requires Sound(c, w.tables) && CheckAll(c, w.tables, frames, now).Some? && !Willing(c, w.tables, frames, now, proxy)
    ensures n < |frames| && AsksAt(c, w.tables, frames, n, now) && !proxy(n)
    ensures Willing(c, w.tables, frames[..n], now, proxy) && HandleAll(c, w, frames[..n], now, proxy).Sent?
    ensures HandleAll(c, w, frames, now, proxy) == Stopped(HandleAll(c, w, frames[..n], now, proxy).world, ProxyError)
    decreases |frames|
  {
    var last := |frames| - 1;
    SentIff(c, w, frames[..last], now, proxy);
    WillingPrefix(c, w.tables, frames, now, proxy);
    if Willing(c, w.tables, frames[..last], now, proxy) {
      n := last;
      SentIff(c, w, frames, now, proxy);
      BatchFollows(c, w, frames[..last], now, proxy);
      BatchFollows(c, w, frames, now, proxy);
      var sh := CheckAll(c, w.tables, frames[..last], now).value;
      var b := HandleAll(c, w, frames[..last], now, proxy);
      RefusedIff(c, w.tables, sh, b.world, frames[last], now, proxy(last));
    } else {
      n := RefusalKeepsEarlierFrames(c, w, frames[..last], now, proxy);
      assert frames[..last][..n] == frames[..n];
    }
  }
}
