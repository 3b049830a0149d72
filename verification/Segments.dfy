/** Cutting relayed stream data into TCP packets that fit the tunnel's packet limit. */
module Segments {
  import opened Bytes
  import opened IpPacket

  const ACK_PSH: byte := 0x18
  const WORD := 0x1_0000_0000

  /** TCP sequence numbers count octets modulo 2^32. */
  function Advance(sequence: uint32, octets: nat): uint32 {
    (sequence + octets) % WORD
  }

  lemma AdvanceTwice(sequence: uint32, a: nat, b: nat)
    ensures Advance(Advance(sequence, a), b) == Advance(sequence, a + b)
  {
    var q := (sequence + a) / WORD;
    assert sequence + a + b == q * WORD + ((sequence + a) % WORD + b);
    ModShift(q, (sequence + a) % WORD + b);
  }

  lemma ModShift(q: int, r: nat)
    ensures (q * WORD + r) % WORD == r % WORD
  {
  }

  datatype Flow = Flow(client: Addr, target: Addr, clientPort: port, targetPort: port,
                       clientNext: uint32, relayNext: uint32)

  predicate ValidFlow(f: Flow) {
    && ValidAddr(f.client) && ValidAddr(f.target) && f.client.V4? == f.target.V4?
    && f.clientPort > 0 && f.targetPort > 0
  }

  // ---------- the layout ----------

  function HeaderOctets(f: Flow): nat {
    if f.client.V4? then 40 else 60
  }

  datatype Layout = Layout(size: nat, count: nat) | NoLayout

  function RelayTcpLayout(f: Flow, octets: nat, maximumPacket: nat, maximumLocal: nat): (r: Layout)
    ensures r.Layout? ==> r.size > 0 && r.count > 0 && Start(r.count - 1, r.size) < octets <= Start(r.count, r.size)
  {
    if octets == 0 || maximumPacket <= HeaderOctets(f) then NoLayout
    else
      var size := maximumPacket - HeaderOctets(f);
      var count := (octets - 1) / size + 1;
      Pieces(octets, size);
      if count > maximumLocal then NoLayout else Layout(size, count)
  }

  /** Where piece `i` starts. */
  function Start(i: nat, size: nat): nat {
    if i == 0 then 0 else Start(i - 1, size) + size
  }

  lemma {:induction false} StartIsProduct(i: nat, size: nat)
    ensures Start(i, size) == i * size
  {
    if i > 0 {
      StartIsProduct(i - 1, size);
      assert i * size == (i - 1) * size + size;
    }
  }

  lemma {:induction false} StartGrows(i: nat, j: nat, size: nat)
    requires i <= j
    ensures Start(i, size) <= Start(j, size)
  {
    if i < j {
      StartGrows(i, j - 1, size);
    }
  }

  lemma Pieces(octets: nat, size: nat)
    requires octets > 0 && size > 0
    ensures var last := (octets - 1) / size; Start(last, size) < octets <= Start(last + 1, size)
  {
    var last := (octets - 1) / size;
    StartIsProduct(last, size);
    assert octets - 1 == last * size + (octets - 1) % size;
  }

  // ---------- the pieces ----------

  /** The piece of the payload that starts at `from`. */
  function PieceAt(f: Flow, payload: Octets, size: nat, from: nat): Packet
    requires from <= |payload|
  {
    var end := Min(from + size, |payload|);
    Packet(f.target, f.client,
           TcpSegment(f.targetPort, f.clientPort, Advance(f.relayNext, from), f.clientNext, ACK_PSH,
                      payload[from..end]))
  }

  function Id(first: port, i: nat): port {
    (first + i) % 65536
  }

  lemma NextId(first: port, i: nat)
    ensures (Id(first, i) + 1) % 65536 == Id(first, i + 1)
  {
  }

  /** The packets are the payload's pieces in order, with consecutive packet identifiers. */
  predicate IsCut(packets: seq<Octets>, f: Flow, payload: Octets, size: nat, id: port) {
    && ValidFlow(f) && size > 0
    && forall i :: 0 <= i < |packets| ==> IsPiece(packets[i], f, payload, size, i, id)
  }

  predicate IsPiece(packet: Octets, f: Flow, payload: Octets, size: nat, i: nat, id: port)
    requires ValidFlow(f)
  {
    var from := Start(i, size);
    from < |payload| && Build(PieceAt(f, payload, size, from), Id(id, i)) == Some(packet)
  }

  lemma PieceBuilds(f: Flow, payload: Octets, size: nat, from: nat, id: port, maximumPacket: nat)
    requires ValidFlow(f) && from <= |payload| && maximumPacket <= 65535 && HeaderOctets(f) + size == maximumPacket
    ensures var packet := Build(PieceAt(f, payload, size, from), id);
            packet.Some? && |packet.value| == HeaderOctets(f) + Min(size, |payload| - from) <= maximumPacket
  {
    var p := PieceAt(f, payload, size, from);
    var built := BuildSegment(p).value;
    assert |built| == 20 + Min(size, |payload| - from);
  }

  lemma CutGrows(f: Flow, packets: seq<Octets>, packet: Octets, payload: Octets, size: nat, id: port)
    requires IsCut(packets, f, payload, size, id) && IsPiece(packet, f, payload, size, |packets|, id)
    ensures IsCut(packets + [packet], f, payload, size, id)
  {
  }

  lemma CutSizes(f: Flow, packets: seq<Octets>, payload: Octets, size: nat, id: port, maximumPacket: nat)
    requires IsCut(packets, f, payload, size, id) && maximumPacket <= 65535 && HeaderOctets(f) + size == maximumPacket
    requires packets != [] ==> Start(|packets| - 1, size) < |payload|
    ensures forall i :: 0 <= i < |packets| ==> |packets[i]| <= maximumPacket
    ensures forall i :: 0 <= i < |packets| - 1 ==> |packets[i]| == maximumPacket
  {
    forall i | 0 <= i < |packets|
      ensures |packets[i]| <= maximumPacket && (i < |packets| - 1 ==> |packets[i]| == maximumPacket)
    {
      assert IsPiece(packets[i], f, payload, size, i, id);
      PieceBuilds(f, payload, size, Start(i, size), Id(id, i), maximumPacket);
      if i < |packets| - 1 {
        StartGrows(i + 1, |packets| - 1, size);
      }
    }
  }

  // ---------- what a receiving TCP hears ----------

  datatype Heard = Heard(stream: Octets, next: uint32) | Broken

  /** A receiver that accepts only this flow's packets, each starting at the sequence number it expects next. */
  function Hear(f: Flow, packets: seq<Parsed>): Heard
    decreases |packets|
  {
    if packets == [] then Heard([], f.relayNext)
    else HearNext(f, Hear(f, packets[..|packets| - 1]), packets[|packets| - 1])
  }

  function HearNext(f: Flow, before: Heard, parsed: Parsed): Heard {
    if before.Heard? && parsed.Ok? && Continues(f, parsed.packet, before.next) then
      var payload := parsed.packet.segment.payload;
      Heard(before.stream + payload, Advance(before.next, |payload|))
    else Broken
  }

  function ParseAll(packets: seq<Octets>, maximumPacket: nat): seq<Parsed> {
    seq(|packets|, i requires 0 <= i < |packets| => Parse(packets[i], maximumPacket))
  }

  predicate Continues(f: Flow, p: Packet, next: uint32) {
    && p.source == f.target && p.target == f.client
    && p.segment.TcpSegment? && p.segment.sourcePort == f.targetPort && p.segment.targetPort == f.clientPort
    && p.segment.sequence == next && p.segment.acknowledgment == f.clientNext
  }

  predicate ArePieces(parsed: seq<Parsed>, f: Flow, payload: Octets, size: nat) {
    forall i :: 0 <= i < |parsed|
      ==> Start(i, size) < |payload| && parsed[i] == Ok(PieceAt(f, payload, size, Start(i, size)))
  }

  lemma PieceIsHeard(f: Flow, payload: Octets, size: nat, from: nat)
    requires from <= |payload|
    ensures var n := Min(from + size, |payload|);
            HearNext(f, Heard(payload[..from], Advance(f.relayNext, from)), Ok(PieceAt(f, payload, size, from)))
            == Heard(payload[..n], Advance(f.relayNext, n))
  {
    var n := Min(from + size, |payload|);
    assert payload[..from] + payload[from..n] == payload[..n];
    AdvanceTwice(f.relayNext, from, n - from);
  }

  /** The first packets of a cut carry the first pieces of the stream, and nothing else. */
  lemma {:induction false} PiecesAreHeard(f: Flow, parsed: seq<Parsed>, payload: Octets, size: nat)
    requires ArePieces(parsed, f, payload, size)
    ensures var n := Min(Start(|parsed|, size), |payload|);
            Hear(f, parsed) == Heard(payload[..n], Advance(f.relayNext, n))
    decreases |parsed|
  {
    if parsed == [] {
      assert payload[..0] == [];
    } else {
      var last := |parsed| - 1;
      PiecesAreHeard(f, parsed[..last], payload, size);
      PieceIsHeard(f, payload, size, Start(last, size));
    }
  }

  lemma CutParses(f: Flow, packets: seq<Octets>, payload: Octets, size: nat, id: port, maximumPacket: nat)
    requires IsCut(packets, f, payload, size, id) && maximumPacket <= 65535 && HeaderOctets(f) + size == maximumPacket
    ensures ArePieces(ParseAll(packets, maximumPacket), f, payload, size)
  {
    forall i | 0 <= i < |packets|
      ensures Start(i, size) < |payload|
              && Parse(packets[i], maximumPacket) == Ok(PieceAt(f, payload, size, Start(i, size)))
    {
      assert IsPiece(packets[i], f, payload, size, i, id);
      PieceBuilds(f, payload, size, Start(i, size), Id(id, i), maximumPacket);
      BuildParsesBack(PieceAt(f, payload, size, Start(i, size)), Id(id, i), maximumPacket);
    }
  }

  /** A complete cut is heard as exactly the payload, and leaves the receiver expecting the relay's next octet. */
  lemma WholeStreamIsHeard(f: Flow, packets: seq<Octets>, payload: Octets, size: nat, id: port, maximumPacket: nat)
    requires IsCut(packets, f, payload, size, id) && maximumPacket <= 65535 && HeaderOctets(f) + size == maximumPacket
    requires |payload| <= Start(|packets|, size)
    ensures Hear(f, ParseAll(packets, maximumPacket)) == Heard(payload, Advance(f.relayNext, |payload|))
  {
    CutParses(f, packets, payload, size, id, maximumPacket);
    PiecesAreHeard(f, ParseAll(packets, maximumPacket), payload, size);
    assert payload[..|payload|] == payload;
  }

  /** The packets fit the limit, all but the last are full, and a receiver hears exactly the payload. */
  predicate Delivers(f: Flow, packets: seq<Octets>, payload: Octets, maximumPacket: nat) {
    && Hear(f, ParseAll(packets, maximumPacket)) == Heard(payload, Advance(f.relayNext, |payload|))
    && (forall i :: 0 <= i < |packets| ==> |packets[i]| <= maximumPacket)
    && (forall i :: 0 <= i < |packets| - 1 ==> |packets[i]| == maximumPacket)
  }

  lemma CutDelivers(f: Flow, packets: seq<Octets>, payload: Octets, size: nat, id: port, maximumPacket: nat)
    requires IsCut(packets, f, payload, size, id) && maximumPacket <= 65535 && HeaderOctets(f) + size == maximumPacket
    requires packets != [] && Start(|packets| - 1, size) < |payload| <= Start(|packets|, size)
    ensures Delivers(f, packets, payload, maximumPacket)
  {
    WholeStreamIsHeard(f, packets, payload, size, id, maximumPacket);
    CutSizes(f, packets, payload, size, id, maximumPacket);
  }

  // ---------- the operation ----------

  /** What one turn of the cutting loop moves. */
  lemma NextPiece(start: uint32, length: nat, size: nat, count: nat, made: nat, offset: nat, end: nat)
    requires made < count && offset == Start(made, size) < length && end == Min(offset + size, length)
    requires size > 0 && Start(count - 1, size) < length <= Start(count, size)
    ensures offset + size == Start(made + 1, size) && (made + 1 < count <==> offset + size < length)
    ensures Advance(Advance(start, Min(offset, length)), end - offset) == Advance(start, Min(offset + size, length))
  {
    if made < count - 1 {
      StartGrows(made + 1, count - 1, size);
    }
    AdvanceTwice(start, offset, end - offset);
  }

  class RelayWriter {
    const maximumPacket: nat
    const maximumLocal: nat
    var nextPacketID: port
    var flow: Flow

    ghost predicate Valid()
      reads this
    {
      128 <= maximumPacket <= 65535 && ValidFlow(flow)
    }

    constructor (maximumPacket: nat, maximumLocal: nat, flow: Flow)
      requires 128 <= maximumPacket <= 65535 && ValidFlow(flow)
      ensures Valid() && this.flow == flow && this.maximumPacket == maximumPacket && this.maximumLocal == maximumLocal
    {
      this.maximumPacket, this.maximumLocal, this.flow, nextPacketID := maximumPacket, maximumLocal, flow, 1;
    }

    function Outgoing(sequence: uint32, data: Octets): Packet
      reads this`flow
    {
      Packet(flow.target, flow.client,
             TcpSegment(flow.targetPort, flow.clientPort, sequence, flow.clientNext, ACK_PSH, data))
    }

    method MakeTcpPacket(sequence: uint32, data: Octets) returns (packet: Option<Octets>)
      requires Valid()
      modifies this`nextPacketID
      ensures packet == (var built := Build(Outgoing(sequence, data), old(nextPacketID));
                         if built.Some? && 0 < |built.value| <= maximumPacket then built else None)
      ensures nextPacketID == if packet.Some? then (old(nextPacketID) + 1) % 65536 else old(nextPacketID)
    {
      packet := Build(Outgoing(sequence, data), nextPacketID);
      if packet.None? || packet.value == [] || |packet.value| > maximumPacket {
        packet := None;
        return;
      }
      nextPacketID := (nextPacketID + 1) % 65536;
    }

    /** One pass of the loop: the next piece never fails to build. */
    method AppendPiece(made: seq<Octets>, sequence: uint32, data: Octets, ghost payload: Octets, ghost size: nat,
                       ghost first: port)
      returns (more: seq<Octets>)
      requires Valid() && IsCut(made, flow, payload, size, first) && HeaderOctets(flow) + size == maximumPacket
      requires nextPacketID == Id(first, |made|) && Start(|made|, size) < |payload|
      requires Outgoing(sequence, data) == PieceAt(flow, payload, size, Start(|made|, size))
      modifies this`nextPacketID
      ensures nextPacketID == Id(first, |made| + 1)
      ensures |more| == |made| + 1 && IsCut(more, flow, payload, size, first)
    {
      PieceBuilds(flow, payload, size, Start(|made|, size), nextPacketID, maximumPacket);
      NextId(first, |made|);
      var packet := MakeTcpPacket(sequence, data);
      CutGrows(flow, made, packet.value, payload, size, first);
      more := made + [packet.value];
    }

    /**
     * Refuses exactly when the layout does, and then changes nothing. Otherwise the packets deliver the payload
     * and the relay's sequence moves past it.
     */
    method MakeRelayTcpPackets(payload: Octets) returns (packets: Option<seq<Octets>>)
      requires Valid()
      modifies this
      ensures Valid()
      ensures packets.None? <==> RelayTcpLayout(old(flow), |payload|, maximumPacket, maximumLocal).NoLayout?
      ensures packets.None? ==> flow == old(flow) && nextPacketID == old(nextPacketID)
      ensures packets.Some? ==>
        && |packets.value| == RelayTcpLayout(old(flow), |payload|, maximumPacket, maximumLocal).count
        && Delivers(old(flow), packets.value, payload, maximumPacket)
        && flow == old(flow).(relayNext := Advance(old(flow.relayNext), |payload|))
        && nextPacketID == Id(old(nextPacketID), |packets.value|)
    {
      var layout := RelayTcpLayout(flow, |payload|, maximumPacket, maximumLocal);
      if layout.NoLayout? {
        return None;
      }
      var made, sequence := CutPayload(payload, layout.size, layout.count);
      CutDelivers(flow, made, payload, layout.size, old(nextPacketID), maximumPacket);
      flow := flow.(relayNext := sequence);
      packets := Some(made);
    }

    /** The loop over the payload. */
    method CutPayload(payload: Octets, size: nat, ghost count: nat) returns (made: seq<Octets>, sequence: uint32)
      requires Valid() && size > 0 && HeaderOctets(flow) + size == maximumPacket
      requires count > 0 && Start(count - 1, size) < |payload| <= Start(count, size)
      modifies this`nextPacketID
      ensures |made| == count && IsCut(made, flow, payload, size, old(nextPacketID))
      ensures sequence == Advance(flow.relayNext, |payload|) && nextPacketID == Id(old(nextPacketID), count)
    {
      made, sequence := [], flow.relayNext;
      var offset := 0;
      while offset < |payload|
        invariant |made| <= count && offset == Start(|made|, size)
        invariant |made| < count <==> offset < |payload|
        invariant sequence == Advance(flow.relayNext, Min(offset, |payload|))
        invariant nextPacketID == Id(old(nextPacketID), |made|)
        invariant IsCut(made, flow, payload, size, old(nextPacketID))
        decreases |payload| - offset
      {
        var end := if offset + size > |payload| then |payload| else offset + size;
        NextPiece(flow.relayNext, |payload|, size, count, |made|, offset, end);
        made := AppendPiece(made, sequence, payload[offset..end], payload, size, old(nextPacketID));
        sequence := Advance(sequence, end - offset);
        offset := offset + size;
      }
    }
  }
}
