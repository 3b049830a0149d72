/** The adapter's flow, DNS and pending-close tables, and what each local packet does to them. */
module FlowTable {
  import opened Arith
  import opened Bytes
  import opened IpPacket
  import opened Segments
  import opened TcpFlow
  import Wire

  const UDP_IDLE: int := 300_000_000_000
  const DNS_LIFETIME: int := 15_000_000_000

  datatype Kind = TcpStream | UdpAssociation

  datatype Tuple = Tuple(protocol: byte, client: Addr, target: Addr, clientPort: port, targetPort: port)

  datatype FlowEntry = FlowEntry(tuple: Tuple, kind: Kind, tcp: TcpState, lastActivity: int)

  datatype Dns = Dns(client: Addr, target: Addr, clientPort: port, targetPort: port, transactionID: port,
                     expiresAt: int)

  /** A close that the application queue has not taken yet. */
  datatype Close = Close(id: nat, code: nat)

  /** `admitted` marks the packet being processed, whose predecessors' closes have all been queued. */
  datatype Tables = Tables(byTuple: map<Tuple, nat>, byId: map<nat, FlowEntry>, dns: map<nat, Dns>, pending: seq<Close>,
                           nextFlowID: nat, admitted: bool)

  // ---------- invariant ----------

  predicate Inverse(byTuple: map<Tuple, nat>, byId: map<nat, FlowEntry>) {
    && (forall k :: k in byTuple ==> byTuple[k] in byId && byId[byTuple[k]].tuple == k)
    && (forall id :: id in byId ==> byId[id].tuple in byTuple && byTuple[byId[id].tuple] == id)
  }

  predicate ValidId(id: nat) {
    1 <= id <= Wire.MAX_VARINT
  }

  predicate Inv(t: Tables, maximumFlows: nat) {
    && Inverse(t.byTuple, t.byId)
    && t.byId.Keys !! t.dns.Keys
    && ValidId(t.nextFlowID)
    && |t.byId| + |t.dns| + |t.pending| <= maximumFlows
    && (t.admitted ==> t.pending == [])
  }

  function Count(t: Tables): nat {
    |t.byId| + |t.dns|
  }

  function InUse(t: Tables): set<nat> {
    t.byId.Keys + t.dns.Keys
  }

  // ---------- identifiers ----------

  function NextFlowID(id: nat): nat {
    if id + 1 > Wire.MAX_VARINT then 1 else id + 1
  }

  /** The identifier `k` steps on. */
  function IdAfter(start: nat, k: nat): nat {
    if start + k <= Wire.MAX_VARINT then start + k else start + k - Wire.MAX_VARINT
  }

  /** The first free identifier within the given number of attempts, and where the next search starts. */
  function Allocate(used: set<nat>, start: nat, attempts: nat): Option<(nat, nat)>
    decreases attempts
  {
    if attempts == 0 then None
    else if start != 0 && start !in used then Some((start, NextFlowID(start)))
    else Allocate(used, NextFlowID(start), attempts - 1)
  }

  function Candidates(start: nat, n: nat): set<nat> {
    if n == 0 then {} else Candidates(start, n - 1) + {IdAfter(start, n - 1)}
  }

  lemma {:induction false} CandidatesIff(start: nat, n: nat, id: nat)
    requires id in Candidates(start, n)
    ensures exists k :: 0 <= k < n && id == IdAfter(start, k)
  {
    if id != IdAfter(start, n - 1) {
      CandidatesIff(start, n - 1, id);
    }
  }

  lemma {:induction false} CandidatesAreDistinct(start: nat, n: nat)
    requires ValidId(start) && n <= Wire.MAX_VARINT
    ensures |Candidates(start, n)| == n
  {
    if n > 0 {
      CandidatesAreDistinct(start, n - 1);
      var last := IdAfter(start, n - 1);
      if last in Candidates(start, n - 1) {
        CandidatesIff(start, n - 1, last);
      }
    }
  }

  /** A failed search has seen every candidate in use. */
  lemma {:induction false} FailureMeansAllUsed(used: set<nat>, start: nat, k: nat, attempts: nat)
    requires ValidId(start) && k + attempts < Wire.MAX_VARINT
    requires Allocate(used, IdAfter(start, k), attempts).None? && Candidates(start, k) <= used
    ensures Candidates(start, k + attempts) <= used
    decreases attempts
  {
    if attempts > 0 {
      FailureMeansAllUsed(used, start, k + 1, attempts - 1);
    }
  }

  lemma {:induction false} AllocateIsFree(used: set<nat>, start: nat, attempts: nat)
    requires ValidId(start) && Allocate(used, start, attempts).Some?
    ensures var r := Allocate(used, start, attempts).value; ValidId(r.0) && r.0 !in used && ValidId(r.1)
    decreases attempts
  {
    if start in used {
      AllocateIsFree(used, NextFlowID(start), attempts - 1);
    }
  }

  /** More attempts than identifiers in use always find a free one. */
  lemma SearchSucceeds(used: set<nat>, start: nat, attempts: nat)
    requires ValidId(start) && attempts < Wire.MAX_VARINT && |used| < attempts
    ensures Allocate(used, start, attempts).Some?
    ensures var r := Allocate(used, start, attempts).value; ValidId(r.0) && r.0 !in used && ValidId(r.1)
  {
    CandidatesAreDistinct(start, attempts);
    if Allocate(used, start, attempts).None? {
      FailureMeansAllUsed(used, start, 0, attempts);
      SubsetSize(Candidates(start, attempts), used);
    } else {
      AllocateIsFree(used, start, attempts);
    }
  }

  lemma UsedCount(byId: map<nat, FlowEntry>, dns: map<nat, Dns>)
    requires byId.Keys !! dns.Keys
    ensures |byId.Keys + dns.Keys| == |byId| + |dns|
  {
  }

  /** The search makes one attempt more than there can be flows, so the identifier space is never exhausted. */
  lemma AllocateNeverFails(t: Tables, maximumFlows: nat)
    requires Inv(t, maximumFlows) && maximumFlows + 1 < Wire.MAX_VARINT
    ensures Allocate(InUse(t), t.nextFlowID, maximumFlows + 1).Some?
    ensures var r := Allocate(InUse(t), t.nextFlowID, maximumFlows + 1).value;
            ValidId(r.0) && r.0 !in InUse(t) && ValidId(r.1)
  {
    UsedCount(t.byId, t.dns);
    SearchSucceeds(InUse(t), t.nextFlowID, maximumFlows + 1);
  }

  // ---------- adding and removing ----------

  function Add(t: Tables, id: nat, f: FlowEntry): Tables {
    t.(byTuple := t.byTuple[f.tuple := id], byId := t.byId[id := f])
  }

  function Remove(t: Tables, id: nat): Tables
    requires id in t.byId
  {
    t.(byTuple := t.byTuple - {t.byId[id].tuple}, byId := t.byId - {id})
  }

  /** Changes that keep a flow's tuple. */
  function Update(t: Tables, id: nat, f: FlowEntry): Tables {
    t.(byId := t.byId[id := f])
  }

  lemma AddKeepsInv(t: Tables, id: nat, f: FlowEntry, maximumFlows: nat)
    requires Inv(t, maximumFlows) && id !in InUse(t) && f.tuple !in t.byTuple && Count(t) + |t.pending| < maximumFlows
    ensures Inv(Add(t, id, f), maximumFlows)
  {
    var n := Add(t, id, f);
    assert n.byId.Keys == t.byId.Keys + {id};
    AddInverse(t.byTuple, t.byId, id, f);
  }

  lemma AddInverse(byTuple: map<Tuple, nat>, byId: map<nat, FlowEntry>, id: nat, f: FlowEntry)
    requires Inverse(byTuple, byId) && id !in byId && f.tuple !in byTuple
    ensures Inverse(byTuple[f.tuple := id], byId[id := f])
  {
  }

  lemma RemoveKeepsInv(t: Tables, id: nat, maximumFlows: nat)
    requires Inv(t, maximumFlows) && id in t.byId
    ensures Inv(Remove(t, id), maximumFlows)
    ensures |Remove(t, id).byId| == |t.byId| - 1 && t.byId[id].tuple !in Remove(t, id).byTuple
  {
    var n := Remove(t, id);
    assert n.byId.Keys == t.byId.Keys - {id};
    forall j | j in n.byId ensures n.byId[j].tuple in n.byTuple && n.byTuple[n.byId[j].tuple] == j {
      assert t.byTuple[t.byId[j].tuple] == j;
    }
    forall k | k in n.byTuple ensures n.byTuple[k] in n.byId && n.byId[n.byTuple[k]].tuple == k {
      assert t.byId[t.byTuple[k]].tuple == k;
    }
  }

  lemma UpdateKeepsInv(t: Tables, id: nat, f: FlowEntry, maximumFlows: nat)
    requires Inv(t, maximumFlows) && id in t.byId && t.byId[id].tuple == f.tuple
    ensures Inv(Update(t, id, f), maximumFlows)
  {
    assert Update(t, id, f).byId.Keys == t.byId.Keys;
  }

  // ---------- the start of every ingress ----------

  predicate Idle(f: FlowEntry, now: int) {
    f.kind.UdpAssociation? && now - f.lastActivity >= UDP_IDLE
  }

  /** The idle associations, in whatever order the table is walked. */
  predicate ListsIdle(t: Tables, now: int, ids: seq<nat>) {
    && (forall i, j :: 0 <= i < j < |ids| ==> ids[i] != ids[j])
    && (forall i :: 0 <= i < |ids| ==> ids[i] in t.byId && Idle(t.byId[ids[i]], now))
    && (forall id :: id in t.byId && Idle(t.byId[id], now) ==> id in ids)
  }

  function RemoveAll(t: Tables, ids: seq<nat>): Tables
    requires forall i :: 0 <= i < |ids| ==> ids[i] in t.byId
    requires forall i, j :: 0 <= i < j < |ids| ==> ids[i] != ids[j]
    decreases |ids|
  {
    if ids == [] then t else
    var rest := Remove(t, ids[0]);
    RemoveAll(rest, ids[1..])
  }

  function Closes(ids: seq<nat>): seq<Close> {
    seq(|ids|, i requires 0 <= i < |ids| => Close(ids[i], CLOSE_IDLE))
  }

  /** The queue takes a prefix of the pending closes. */
  function Flush(t: Tables, taken: nat): Tables
    requires taken <= |t.pending|
  {
    t.(pending := t.pending[taken..])
  }

  /** Sweeps idle associations, then offers their closes to the queue; the packet goes on only if all were taken. */
  function Begin(t: Tables, ids: seq<nat>, taken: nat): Tables
    requires forall i :: 0 <= i < |ids| ==> ids[i] in t.byId
    requires forall i, j :: 0 <= i < j < |ids| ==> ids[i] != ids[j]
    requires taken <= |t.pending| + |ids|
  {
    var swept := RemoveAll(t, ids);
    var pending := t.pending + Closes(ids);
    swept.(pending := pending[taken..], admitted := pending[taken..] == [])
  }

  lemma {:induction false} RemoveAllKeepsInv(t: Tables, ids: seq<nat>, maximumFlows: nat)
    requires forall i :: 0 <= i < |ids| ==> ids[i] in t.byId
    requires forall i, j :: 0 <= i < j < |ids| ==> ids[i] != ids[j]
    requires Inv(t, maximumFlows)
    ensures Inv(RemoveAll(t, ids), maximumFlows)
    ensures |RemoveAll(t, ids).byId| == |t.byId| - |ids|
    ensures RemoveAll(t, ids).dns == t.dns && RemoveAll(t, ids).pending == t.pending
    decreases |ids|
  {
    if ids != [] {
      RemoveKeepsInv(t, ids[0], maximumFlows);
      RemoveAllKeepsInv(Remove(t, ids[0]), ids[1..], maximumFlows);
    }
  }

  lemma BeginKeepsInv(t: Tables, ids: seq<nat>, taken: nat, maximumFlows: nat)
    requires forall i :: 0 <= i < |ids| ==> ids[i] in t.byId
    requires forall i, j :: 0 <= i < j < |ids| ==> ids[i] != ids[j]
    requires Inv(t, maximumFlows) && taken <= |t.pending| + |ids|
    ensures Inv(Begin(t, ids, taken), maximumFlows)
  {
    RemoveAllKeepsInv(t, ids, maximumFlows);
  }

  // ---------- opening flows ----------

  /** A new flow if there is room for it; `ok` says whether the proxy and the queue accept it. */
  function Open(t: Tables, f: FlowEntry, ok: bool, maximumFlows: nat): Tables {
    if Count(t) >= maximumFlows then t
    else
      var r := Allocate(InUse(t), t.nextFlowID, maximumFlows + 1);
      if r.None? then t
      else
        var moved := t.(nextFlowID := r.value.1);
        if ok then Add(moved, r.value.0, f) else moved
  }

  lemma OpenKeepsInv(t: Tables, f: FlowEntry, ok: bool, maximumFlows: nat)
    requires Inv(t, maximumFlows) && t.pending == [] && f.tuple !in t.byTuple && maximumFlows + 1 < Wire.MAX_VARINT
    ensures Inv(Open(t, f, ok, maximumFlows), maximumFlows)
  {
    if Count(t) < maximumFlows {
      AllocateNeverFails(t, maximumFlows);
      var r := Allocate(InUse(t), t.nextFlowID, maximumFlows + 1).value;
      var moved := t.(nextFlowID := r.1);
      AddKeepsInv(moved, r.0, f, maximumFlows);
    }
  }

  datatype TcpEnv = TcpEnv(flow: Env, openOk: bool, serverSequence: uint32)

  /** The effect of a local TCP packet on the tables. */
  function TcpPacket(t: Tables, tuple: Tuple, sequence: uint32, flags: byte, payload: Octets, env: TcpEnv,
                     maximumFlows: nat): Tables {
    if tuple in t.byTuple && t.byTuple[tuple] in t.byId then
      var id := t.byTuple[tuple];
      var f := t.byId[id];
      var e := Step(f.tcp, Arrival(0, sequence, flags, payload, env.flow));
      if f.kind.UdpAssociation? && !Has(flags, SYN) then t
      else if e.retired then
        var removed := Remove(t, id);
        if e.deferred then removed.(pending := t.pending + [Close(id, CLOSE_RESET)], admitted := false) else removed
      else Update(t, id, f.(tcp := e.flow))
    else if !Has(flags, SYN) || !PlainSyn(flags, payload) || !env.flow.room then t
    else
      Open(t, FlowEntry(tuple, TcpStream, Opened(sequence, env.serverSequence), 0),
           env.openOk && env.flow.queue.Accepted?, maximumFlows)
  }

  /**
   * How many packets are built in answer to a local TCP packet: the acknowledgement of what is forwarded, of an old
   * packet or of a SYN, or the reset that refuses a SYN. One for which the local queue has no room is built too.
   */
  function TcpReplies(t: Tables, tuple: Tuple, sequence: uint32, flags: byte, payload: Octets, env: TcpEnv,
                      maximumFlows: nat): nat {
    if tuple in t.byTuple && t.byTuple[tuple] in t.byId then
      var f := t.byId[t.byTuple[tuple]];
      if f.kind.UdpAssociation? && !Has(flags, SYN) then 0
      else if Builds(f.tcp, sequence, flags, payload, env.flow) then 1
      else 0
    else if !Has(flags, SYN) || !PlainSyn(flags, payload) then 0
    else if Count(t) >= maximumFlows then 1
    else if env.flow.room && env.openOk && env.flow.queue.Accepted?
      && Allocate(InUse(t), t.nextFlowID, maximumFlows + 1).Some? then 1
    else 0
  }

  datatype UdpEnv = UdpEnv(sendOk: bool, hasFlow: bool, openOk: bool, queue: Queue)

  /** The effect of a local UDP packet: an association the proxy lost is replaced. */
  function UdpPacket(t: Tables, tuple: Tuple, now: int, env: UdpEnv, maximumFlows: nat): Tables {
    var entry := FlowEntry(tuple, UdpAssociation, TcpState(0, 0, false, false), now);
    var ok := env.openOk && env.queue.Accepted?;
    if tuple in t.byTuple && t.byTuple[tuple] in t.byId then
      var id := t.byTuple[tuple];
      if env.sendOk then
        if env.queue.Accepted? then Update(t, id, t.byId[id].(lastActivity := now)) else t
      else if env.hasFlow then t
      else Open(Remove(t, id), entry, ok, maximumFlows)
    else Open(t, entry, ok, maximumFlows)
  }

  function ExpireDns(t: Tables, now: int): Tables {
    t.(dns := map id | id in t.dns && now < t.dns[id].expiresAt :: t.dns[id])
  }

  /** A request is remembered for a fixed time. */
  function Pending(d: Dns, now: int): Dns {
    d.(expiresAt := now + DNS_LIFETIME)
  }

  /** A relayed DNS query takes an identifier and a place in the tables. */
  function DnsQuery(t: Tables, d: Dns, now: int, ok: bool, maximumFlows: nat): Tables {
    var live := ExpireDns(t, now);
    if Count(live) >= maximumFlows then live
    else
      var r := Allocate(InUse(live), live.nextFlowID, maximumFlows + 1);
      if r.None? then live
      else
        var moved := live.(nextFlowID := r.value.1);
        if ok then moved.(dns := moved.dns[r.value.0 := Pending(d, now)]) else moved
  }

  /** A query answered locally takes an identifier only. */
  function LocalDns(t: Tables, maximumFlows: nat): Tables {
    var r := Allocate(InUse(t), t.nextFlowID, maximumFlows + 1);
    if r.None? then t else t.(nextFlowID := r.value.1)
  }

  lemma TcpPacketKeepsInv(t: Tables, tuple: Tuple, sequence: uint32, flags: byte, payload: Octets, env: TcpEnv,
                          maximumFlows: nat)
    requires Inv(t, maximumFlows) && t.admitted && maximumFlows + 1 < Wire.MAX_VARINT
    ensures Inv(TcpPacket(t, tuple, sequence, flags, payload, env, maximumFlows), maximumFlows)
  {
    if tuple in t.byTuple {
      var id := t.byTuple[tuple];
      var e := Step(t.byId[id].tcp, Arrival(0, sequence, flags, payload, env.flow));
      RemoveKeepsInv(t, id, maximumFlows);
      UpdateKeepsInv(t, id, t.byId[id].(tcp := e.flow), maximumFlows);
    } else {
      OpenKeepsInv(t, FlowEntry(tuple, TcpStream, Opened(sequence, env.serverSequence), 0),
                   env.openOk && env.flow.queue.Accepted?, maximumFlows);
    }
  }

  lemma UdpPacketKeepsInv(t: Tables, tuple: Tuple, now: int, env: UdpEnv, maximumFlows: nat)
    requires Inv(t, maximumFlows) && t.admitted && maximumFlows + 1 < Wire.MAX_VARINT
    ensures Inv(UdpPacket(t, tuple, now, env, maximumFlows), maximumFlows)
  {
    var f := FlowEntry(tuple, UdpAssociation, TcpState(0, 0, false, false), now);
    var ok := env.openOk && env.queue.Accepted?;
    if tuple in t.byTuple {
      var id := t.byTuple[tuple];
      RemoveKeepsInv(t, id, maximumFlows);
      UpdateKeepsInv(t, id, t.byId[id].(lastActivity := now), maximumFlows);
      OpenKeepsInv(Remove(t, id), f, ok, maximumFlows);
    } else {
      OpenKeepsInv(t, f, ok, maximumFlows);
    }
  }

  lemma ExpireDnsKeepsInv(t: Tables, now: int, maximumFlows: nat)
    requires Inv(t, maximumFlows)
    ensures Inv(ExpireDns(t, now), maximumFlows)
  {
    SubsetSize(ExpireDns(t, now).dns.Keys, t.dns.Keys);
  }

  lemma DnsQueryKeepsInv(t: Tables, d: Dns, now: int, ok: bool, maximumFlows: nat)
    requires Inv(t, maximumFlows) && t.admitted && maximumFlows + 1 < Wire.MAX_VARINT
    ensures Inv(DnsQuery(t, d, now, ok, maximumFlows), maximumFlows)
  {
    ExpireDnsKeepsInv(t, now, maximumFlows);
    var live := ExpireDns(t, now);
    if Count(live) < maximumFlows {
      AllocateNeverFails(live, maximumFlows);
      var r := Allocate(InUse(live), live.nextFlowID, maximumFlows + 1).value;
      AddDnsKeepsInv(live.(nextFlowID := r.1), r.0, Pending(d, now), maximumFlows);
    }
  }

  lemma AddDnsKeepsInv(t: Tables, id: nat, d: Dns, maximumFlows: nat)
    requires Inv(t, maximumFlows) && id !in InUse(t) && Count(t) + |t.pending| < maximumFlows
    ensures Inv(t.(dns := t.dns[id := d]), maximumFlows)
  {
    assert t.dns[id := d].Keys == t.dns.Keys + {id};
  }
}
