/** Building and parsing the IP, TCP and UDP packets that cross the local tunnel. */
module IpPacket {
  import opened Bytes
  import opened Checksum

  const TCP: byte := 6
  const UDP: byte := 17
  const HOP_BY_HOP: byte := 0
  const FRAGMENT: byte := 44
  const DESTINATION: byte := 60

  datatype Addr = V4(octets: Octets) | V6(octets: Octets)

  predicate ValidAddr(a: Addr) {
    |a.octets| == if a.V4? then 4 else 16
  }

  type port = x: int | 0 <= x < 65536
  type uint32 = x: int | 0 <= x < 0x1_0000_0000

  datatype Segment =
    | TcpSegment(sourcePort: port, targetPort: port, sequence: uint32, acknowledgment: uint32, flags: byte,
                 payload: Octets)
    | UdpSegment(sourcePort: port, targetPort: port, payload: Octets)

  datatype Packet = Packet(source: Addr, target: Addr, segment: Segment)

  datatype Parsed = Ok(packet: Packet) | Unsupported | Malformed

  // ---------- transport checksum ----------

  /** The pseudo-header that the transport checksum covers. */
  function Pseudo(source: Addr, target: Addr, protocol: byte, length: nat): Octets {
    if source.V4? then source.octets + target.octets + [0, protocol] + EncodeBE(length, 2)
    else source.octets + target.octets + EncodeBE(length, 4) + [0, 0, 0, protocol]
  }

  function TransportSum(source: Addr, target: Addr, protocol: byte, segment: Octets): nat {
    Sum(Pseudo(source, target, protocol, |segment|) + segment)
  }

  // ---------- building ----------

  function TcpHead(sourcePort: port, targetPort: port, sequence: uint32, acknowledgment: uint32,
                   flags: byte): (h: Octets)
    ensures |h| == 16
  {
    EncodeBE(sourcePort, 2) + EncodeBE(targetPort, 2) + EncodeBE(sequence, 4) + EncodeBE(acknowledgment, 4)
    + [0x50, flags] + EncodeBE(65535, 2)
  }

  /** A TCP segment without options: its checksum is computed with the field zeroed, then written. */
  function BuildTcp(source: Addr, target: Addr, s: Segment): (r: Octets)
    requires s.TcpSegment?
    ensures |r| == 20 + |s.payload|
  {
    var head := TcpHead(s.sourcePort, s.targetPort, s.sequence, s.acknowledgment, s.flags);
    var sum := TransportSum(source, target, TCP, head + [0, 0] + ([0, 0] + s.payload));
    head + EncodeBE(sum, 2) + ([0, 0] + s.payload)
  }

  function UdpHead(sourcePort: port, targetPort: port, length: nat): (h: Octets)
    ensures |h| == 6
  {
    EncodeBE(sourcePort, 2) + EncodeBE(targetPort, 2) + EncodeBE(length, 2)
  }

  /** A UDP datagram; a computed checksum of zero is sent as 65535. */
  function BuildUdp(source: Addr, target: Addr, s: Segment): (r: Option<Octets>)
    requires s.UdpSegment?
    ensures r.Some? ==> |r.value| == 8 + |s.payload|
  {
    if |s.payload| > 65527 then None
    else
      var head := UdpHead(s.sourcePort, s.targetPort, 8 + |s.payload|);
      var sum := TransportSum(source, target, UDP, head + [0, 0] + s.payload);
      Some(head + EncodeBE(if sum == 0 then 0xffff else sum, 2) + s.payload)
  }

  function V4Head(length: nat, id: port, protocol: byte): (h: Octets)
    ensures |h| == 10
  {
    [0x45, 0] + EncodeBE(length, 2) + EncodeBE(id, 2) + [0x40, 0, 64, protocol]
  }

  function V6Head(length: nat, protocol: byte): (h: Octets)
    ensures |h| == 8
  {
    [0x60, 0, 0, 0] + EncodeBE(length, 2) + [protocol, 64]
  }

  /** Wraps a transport segment in an IP header of the addresses' version. */
  function BuildIp(version: byte, source: Addr, target: Addr, protocol: byte, payload: Octets,
                   id: port): (r: Option<Octets>)
    requires ValidAddr(source) && ValidAddr(target)
    ensures r.Some? ==> |r.value| == (if version == 4 then 20 else 40) + |payload|
  {
    if source.V4? != target.V4? then None
    else if version == 4 then
      if source.V6? || |payload| > 65515 then None
      else
        var head := V4Head(20 + |payload|, id, protocol);
        var addresses := source.octets + target.octets;
        Some(head + EncodeBE(Sum(head + [0, 0] + addresses), 2) + addresses + payload)
    else if version == 6 then
      if source.V4? || |payload| > 65535 then None
      else Some(V6Head(|payload|, protocol) + source.octets + target.octets + payload)
    else None
  }

  function ProtocolOf(s: Segment): byte {
    if s.TcpSegment? then TCP else UDP
  }

  function BuildSegment(p: Packet): Option<Octets> {
    if p.segment.TcpSegment? then Some(BuildTcp(p.source, p.target, p.segment))
    else BuildUdp(p.source, p.target, p.segment)
  }

  function VersionOf(a: Addr): byte {
    if a.V4? then 4 else 6
  }

  function Build(p: Packet, id: port): Option<Octets>
    requires ValidAddr(p.source) && ValidAddr(p.target)
  {
    var segment := BuildSegment(p);
    if segment.None? then None
    else BuildIp(VersionOf(p.source), p.source, p.target, ProtocolOf(p.segment), segment.value, id)
  }

  // ---------- parsing ----------

  function ParseTransport(source: Addr, target: Addr, protocol: byte, segment: Octets,
                          requireUdpChecksum: bool): Parsed {
    if protocol == TCP then
      if |segment| < 20 || segment[12] / 16 < 5 || (segment[12] / 16) * 4 > |segment|
         || TransportSum(source, target, TCP, segment) != 0 then Malformed
      else if (segment[12] / 2) % 8 != 0 || DecodeBE(segment[..2]) == 0 || DecodeBE(segment[2..4]) == 0 then Malformed
      else
        HeaderWidths(segment);
        Ok(Packet(source, target, TcpSegment(DecodeBE(segment[..2]), DecodeBE(segment[2..4]), DecodeBE(segment[4..8]),
                                             DecodeBE(segment[8..12]), segment[13], segment[(segment[12] / 16) * 4..])))
    else if protocol == UDP then
      if |segment| < 8 || DecodeBE(segment[4..6]) != |segment| || DecodeBE(segment[..2]) == 0
        || DecodeBE(segment[2..4]) == 0
      then Malformed
      else
        var sum := DecodeBE(segment[6..8]);
        if (requireUdpChecksum && sum == 0)
          || (sum != 0 && TransportSum(source, target, UDP, segment) != 0) then Malformed
        else
          Short(segment[..2]);
          Short(segment[2..4]);
          Ok(Packet(source, target, UdpSegment(DecodeBE(segment[..2]), DecodeBE(segment[2..4]), segment[8..])))
    else Unsupported
  }

  lemma Short(s: Octets)
    requires |s| == 2 || |s| == 4
    ensures DecodeBE(s) < if |s| == 2 then 0x1_0000 else 0x1_0000_0000
  {
    EncodeDecodeBE(s);
    assert Pow256(2) == 0x1_0000;
    assert Pow256(4) == 256 * (256 * Pow256(2));
  }

  lemma HeaderWidths(segment: Octets)
    requires |segment| >= 12
    ensures DecodeBE(segment[..2]) < 65536 && DecodeBE(segment[2..4]) < 65536
    ensures DecodeBE(segment[4..8]) < 0x1_0000_0000 && DecodeBE(segment[8..12]) < 0x1_0000_0000
  {
    Short(segment[..2]);
    Short(segment[2..4]);
    Short(segment[4..8]);
    Short(segment[8..12]);
  }

  function ParseV4(s: Octets): Parsed {
    if |s| < 20 || s[0] % 16 < 5 then Malformed
    else
      var header := (s[0] % 16) * 4;
      if header > |s| || DecodeBE(s[2..4]) != |s| || Sum(s[..header]) != 0 then Malformed
      else if DecodeBE(s[6..8]) % 0x4000 != 0 || s[8] == 0 then Malformed
      else ParseTransport(V4(s[12..16]), V4(s[16..20]), s[9], s[header..], false)
  }

  datatype Skip = Skipped | BadOption(why: Parsed)

  /** Options that may be skipped; the top two bits of any other kind ask for handling the tunnel does not give. */
  function SkipOptions(s: Octets): Skip
    decreases |s|
  {
    if s == [] then Skipped
    else if s[0] == 0 then SkipOptions(s[1..])
    else if |s| < 2 || s[1] > |s| - 2 then BadOption(Malformed)
    else if s[0] / 64 != 0 then BadOption(Unsupported)
    else SkipOptions(s[2 + s[1]..])
  }

  /** An extension header's length field counts eight-octet units beyond the first. */
  function UnitLength(units: int): int {
    (units + 1) * 8
  }

  datatype Headers = Headers(protocol: byte, offset: nat) | BadHeaders(why: Parsed)

  /** Walks the IPv6 extension headers: one hop-by-hop first, one destination, one atomic fragment, two in all. */
  function ParseHeaders(s: Octets, next: byte, offset: nat, count: nat, seenDestination: bool,
                        seenFragment: bool): (h: Headers)
    requires 40 <= offset && count <= 2
    ensures h.Headers? ==> h.offset <= |s| || h.offset == offset
    decreases 3 - count
  {
    if next == TCP || next == UDP then Headers(next, offset)
    else if next != HOP_BY_HOP && next != DESTINATION && next != FRAGMENT then BadHeaders(Unsupported)
    else if (next == HOP_BY_HOP && count != 0) || (next == DESTINATION && seenDestination)
      || (next == FRAGMENT && seenFragment)
    then BadHeaders(Malformed)
    else if count >= 2 then BadHeaders(Malformed)
    else if next == FRAGMENT then
      if offset + 8 > |s| || s[offset + 1] != 0 then BadHeaders(Malformed)
      else
        var flags := DecodeBE(s[offset + 2..offset + 4]);
        if (flags / 2) % 4 != 0 || flags / 8 != 0 || flags % 2 != 0 then BadHeaders(Malformed)
        else ParseHeaders(s, s[offset], offset + 8, count + 1, seenDestination, true)
    else
      if offset + 2 > |s| || UnitLength(s[offset + 1]) > |s| - offset then BadHeaders(Malformed)
      else
        var length := UnitLength(s[offset + 1]);
        var options := SkipOptions(s[offset + 2..offset + length]);
        if options.BadOption? then BadHeaders(options.why)
        else ParseHeaders(s, s[offset], offset + length, count + 1, seenDestination || next == DESTINATION,
                          seenFragment)
  }

  function ParseV6(s: Octets): Parsed {
    if |s| < 40 || DecodeBE(s[4..6]) != |s| - 40 || s[7] == 0 then Malformed
    else
      var h := ParseHeaders(s, s[6], 40, 0, false, false);
      if h.BadHeaders? then h.why
      else ParseTransport(V6(s[8..24]), V6(s[24..40]), h.protocol, s[h.offset..], true)
  }

  function Parse(s: Octets, maximum: nat): Parsed {
    if |s| < 1 || |s| > maximum then Malformed
    else if s[0] / 16 == 4 then ParseV4(s)
    else if s[0] / 16 == 6 then ParseV6(s)
    else Malformed
  }

  // ---------- every built packet parses back ----------

  lemma PseudoIsEven(source: Addr, target: Addr, protocol: byte, length: nat)
    requires ValidAddr(source) && ValidAddr(target) && source.V4? == target.V4?
    ensures |Pseudo(source, target, protocol, length)| % 2 == 0
  {
  }

  lemma TcpVerifies(source: Addr, target: Addr, s: Segment)
    requires ValidAddr(source) && ValidAddr(target) && source.V4? == target.V4? && s.TcpSegment?
    ensures TransportSum(source, target, TCP, BuildTcp(source, target, s)) == 0
  {
    var head := TcpHead(s.sourcePort, s.targetPort, s.sequence, s.acknowledgment, s.flags);
    var pseudo := Pseudo(source, target, TCP, 20 + |s.payload|);
    var rest := [0, 0] + s.payload;
    var sum := TransportSum(source, target, TCP, head + [0, 0] + rest);
    PseudoIsEven(source, target, TCP, 20 + |s.payload|);
    assert pseudo + (head + [0, 0] + rest) == (pseudo + head) + [0, 0] + rest;
    assert pseudo + (head + EncodeBE(sum, 2) + rest) == (pseudo + head) + EncodeBE(sum, 2) + rest;
    InsertedChecksumVerifies(pseudo + head, rest);
  }

  lemma UdpVerifies(source: Addr, target: Addr, s: Segment)
    requires ValidAddr(source) && ValidAddr(target) && source.V4? == target.V4? && s.UdpSegment?
    requires BuildUdp(source, target, s).Some?
    ensures TransportSum(source, target, UDP, BuildUdp(source, target, s).value) == 0
  {
    var head := UdpHead(s.sourcePort, s.targetPort, 8 + |s.payload|);
    var pseudo := Pseudo(source, target, UDP, 8 + |s.payload|);
    PseudoIsEven(source, target, UDP, 8 + |s.payload|);
    Regroup(pseudo, head, [0, 0], s.payload);
    if TransportSum(source, target, UDP, head + [0, 0] + s.payload) == 0 {
      Regroup(pseudo, head, EncodeBE(0xffff, 2), s.payload);
      InsertedOnesVerify(pseudo + head, s.payload);
    } else {
      Regroup(pseudo, head, EncodeBE(TransportSum(source, target, UDP, head + [0, 0] + s.payload), 2), s.payload);
      InsertedChecksumVerifies(pseudo + head, s.payload);
    }
  }

  lemma Regroup(a: Octets, b: Octets, c: Octets, d: Octets)
    ensures a + (b + c + d) == (a + b) + c + d
  {
  }

  lemma ReadBack(n: nat, width: nat)
    requires (width == 2 && n < 65536) || (width == 4 && n < 0x1_0000_0000)
    ensures DecodeBE(EncodeBE(n, width)) == n
  {
    assert Pow256(2) == 0x1_0000;
    assert Pow256(4) == 256 * (256 * Pow256(2));
    DecodeEncodeBE(n, width);
  }

  lemma TcpFields(source: Addr, target: Addr, s: Segment)
    requires s.TcpSegment?
    ensures var r := BuildTcp(source, target, s);
            && r[..2] == EncodeBE(s.sourcePort, 2) && r[2..4] == EncodeBE(s.targetPort, 2)
            && r[4..8] == EncodeBE(s.sequence, 4) && r[8..12] == EncodeBE(s.acknowledgment, 4)
            && r[12] == 0x50 && r[13] == s.flags && r[20..] == s.payload
  {
    var r := BuildTcp(source, target, s);
    var head := TcpHead(s.sourcePort, s.targetPort, s.sequence, s.acknowledgment, s.flags);
    assert r[..16] == head;
    assert head[..2] == EncodeBE(s.sourcePort, 2) && head[2..4] == EncodeBE(s.targetPort, 2);
    assert head[4..8] == EncodeBE(s.sequence, 4) && head[8..12] == EncodeBE(s.acknowledgment, 4);
    assert r[..2] == head[..2] && r[2..4] == head[2..4] && r[4..8] == head[4..8] && r[8..12] == head[8..12];
    assert head[12] == 0x50 && head[13] == s.flags && r[12] == head[12] && r[13] == head[13];
  }

  lemma TcpParsesBack(source: Addr, target: Addr, s: Segment, require: bool)
    requires ValidAddr(source) && ValidAddr(target) && source.V4? == target.V4?
    requires s.TcpSegment? && s.sourcePort > 0 && s.targetPort > 0
    ensures ParseTransport(source, target, TCP, BuildTcp(source, target, s), require) == Ok(Packet(source, target, s))
  {
    TcpFields(source, target, s);
    TcpVerifies(source, target, s);
    ReadBack(s.sourcePort, 2);
    ReadBack(s.targetPort, 2);
    ReadBack(s.sequence, 4);
    ReadBack(s.acknowledgment, 4);
  }

  lemma UdpFields(source: Addr, target: Addr, s: Segment)
    requires s.UdpSegment? && BuildUdp(source, target, s).Some?
    ensures var r := BuildUdp(source, target, s).value;
            && r[..2] == EncodeBE(s.sourcePort, 2) && r[2..4] == EncodeBE(s.targetPort, 2)
            && r[4..6] == EncodeBE(8 + |s.payload|, 2) && r[8..] == s.payload
            && DecodeBE(r[6..8]) != 0
  {
    var r := BuildUdp(source, target, s).value;
    var head := UdpHead(s.sourcePort, s.targetPort, 8 + |s.payload|);
    assert r[..6] == head;
    assert head[..2] == EncodeBE(s.sourcePort, 2) && head[2..4] == EncodeBE(s.targetPort, 2);
    assert head[4..6] == EncodeBE(8 + |s.payload|, 2);
    assert r[..2] == head[..2] && r[2..4] == head[2..4] && r[4..6] == head[4..6];
    var sum := TransportSum(source, target, UDP, head + [0, 0] + s.payload);
    assert r[6..8] == EncodeBE(if sum == 0 then 0xffff else sum, 2);
    ReadBack(if sum == 0 then 0xffff else sum, 2);
  }

  lemma UdpParsesBack(source: Addr, target: Addr, s: Segment, require: bool)
    requires ValidAddr(source) && ValidAddr(target) && source.V4? == target.V4?
    requires s.UdpSegment? && s.sourcePort > 0 && s.targetPort > 0 && BuildUdp(source, target, s).Some?
    ensures ParseTransport(source, target, UDP, BuildUdp(source, target, s).value, require)
            == Ok(Packet(source, target, s))
  {
    UdpFields(source, target, s);
    UdpVerifies(source, target, s);
    ReadBack(s.sourcePort, 2);
    ReadBack(s.targetPort, 2);
    ReadBack(8 + |s.payload|, 2);
  }

  lemma SegmentParsesBack(p: Packet, require: bool)
    requires ValidAddr(p.source) && ValidAddr(p.target) && p.source.V4? == p.target.V4?
    requires p.segment.sourcePort > 0 && p.segment.targetPort > 0 && BuildSegment(p).Some?
    ensures ParseTransport(p.source, p.target, ProtocolOf(p.segment), BuildSegment(p).value, require) == Ok(p)
  {
    if p.segment.TcpSegment? {
      TcpParsesBack(p.source, p.target, p.segment, require);
    } else {
      UdpParsesBack(p.source, p.target, p.segment, require);
    }
  }

  lemma V4HeadFields(length: nat, id: port, protocol: byte)
    ensures var h := V4Head(length, id, protocol);
            h[0] == 0x45 && h[2..4] == EncodeBE(length, 2) && h[6..8] == [0x40, 0] && h[8] == 64 && h[9] == protocol
  {
    var h := V4Head(length, id, protocol);
    var rest := EncodeBE(id, 2) + [0x40, 0, 64, protocol];
    assert h == [0x45, 0] + (EncodeBE(length, 2) + rest);
    assert h[6..] == [0x40, 0, 64, protocol];
    assert h[6..8] == h[6..][..2] == [0x40, 0];
  }

  lemma V6HeadFields(length: nat, protocol: byte)
    ensures var h := V6Head(length, protocol);
            h[0] == 0x60 && h[4..6] == EncodeBE(length, 2) && h[6] == protocol && h[7] == 64
  {
    var h := V6Head(length, protocol);
    assert h[4..6] == EncodeBE(length, 2);
  }

  lemma HeadPrefix(head: Octets, rest: Octets)
    requires |head| >= 8
    ensures var r := head + rest;
            && (forall i :: 0 <= i < |head| ==> r[i] == head[i])
            && r[2..4] == head[2..4] && r[4..6] == head[4..6] && r[6..8] == head[6..8]
  {
  }

  /** Where the parser finds the pieces of an IPv4 header and its payload. */
  lemma V4Slices(head: Octets, check: Octets, source: Octets, target: Octets, payload: Octets)
    requires |head| == 10 && |check| == 2 && |source| == 4 && |target| == 4
    ensures var r := head + check + (source + target) + payload;
            && r == head + (check + (source + target) + payload)
            && r[..20] == head + check + (source + target)
            && r[12..16] == source && r[16..20] == target && r[20..] == payload
  {
    var r := head + check + (source + target) + payload;
    assert r[12..20] == source + target;
    assert r[12..16] == r[12..20][..4] && r[16..20] == r[12..20][4..];
  }

  lemma V6Slices(head: Octets, source: Octets, target: Octets, payload: Octets)
    requires |head| == 8 && |source| == 16 && |target| == 16
    ensures var r := head + source + target + payload;
            && r == head + (source + target + payload)
            && r[8..24] == source && r[24..40] == target && r[40..] == payload
  {
  }

  lemma V4ParsesTo(source: Addr, target: Addr, protocol: byte, payload: Octets, id: port)
    requires ValidAddr(source) && ValidAddr(target) && source.V4? && target.V4? && |payload| <= 65515
    ensures ParseV4(BuildIp(4, source, target, protocol, payload, id).value)
            == ParseTransport(source, target, protocol, payload, false)
  {
    var head := V4Head(20 + |payload|, id, protocol);
    var addresses := source.octets + target.octets;
    var check := EncodeBE(Sum(head + [0, 0] + addresses), 2);
    V4HeadFields(20 + |payload|, id, protocol);
    InsertedChecksumVerifies(head, addresses);
    ReadBack(20 + |payload|, 2);
    DontFragment();
    V4Parses(head, check, source.octets, target.octets, payload, protocol);
  }

  lemma DontFragment()
    ensures DecodeBE([0x40, 0]) == 0x4000
  {
    assert [0x40, 0][..1] == [0x40];
  }

  /** What the parser makes of a header whose fields are in order. */
  lemma V4Parses(head: Octets, check: Octets, source: Octets, target: Octets, payload: Octets, protocol: byte)
    requires |head| == 10 && |check| == 2 && |source| == 4 && |target| == 4
    requires head[0] == 0x45 && DecodeBE(head[2..4]) == 20 + |payload| && DecodeBE(head[6..8]) == 0x4000
    requires head[8] == 64 && head[9] == protocol && Sum(head + check + (source + target)) == 0
    ensures ParseV4(head + check + (source + target) + payload)
            == ParseTransport(V4(source), V4(target), protocol, payload, false)
  {
    V4Slices(head, check, source, target, payload);
    HeadPrefix(head, check + (source + target) + payload);
  }

  lemma V6ParsesTo(source: Addr, target: Addr, protocol: byte, payload: Octets, id: port)
    requires ValidAddr(source) && ValidAddr(target) && source.V6? && target.V6? && |payload| <= 65535
    requires protocol == TCP || protocol == UDP
    ensures ParseV6(BuildIp(6, source, target, protocol, payload, id).value)
            == ParseTransport(source, target, protocol, payload, true)
  {
    var head := V6Head(|payload|, protocol);
    V6HeadFields(|payload|, protocol);
    V6Slices(head, source.octets, target.octets, payload);
    HeadPrefix(head, source.octets + target.octets + payload);
    ReadBack(|payload|, 2);
  }

  lemma BuiltVersion(source: Addr, target: Addr, protocol: byte, payload: Octets, id: port)
    requires ValidAddr(source) && ValidAddr(target) && source.V4? == target.V4?
    requires BuildIp(VersionOf(source), source, target, protocol, payload, id).Some?
    ensures BuildIp(VersionOf(source), source, target, protocol, payload, id).value[0] / 16 == VersionOf(source)
  {
  }

  /** Every packet the adapter builds is accepted by its own parser, field for field. */
  lemma BuildParsesBack(p: Packet, id: port, maximum: nat)
    requires ValidAddr(p.source) && ValidAddr(p.target)
    requires p.segment.sourcePort > 0 && p.segment.targetPort > 0
    requires Build(p, id).Some? && |Build(p, id).value| <= maximum
    ensures Parse(Build(p, id).value, maximum) == Ok(p)
  {
    var payload := BuildSegment(p).value;
    var protocol := ProtocolOf(p.segment);
    BuiltVersion(p.source, p.target, protocol, payload, id);
    if p.source.V4? {
      V4ParsesTo(p.source, p.target, protocol, payload, id);
      SegmentParsesBack(p, false);
    } else {
      V6ParsesTo(p.source, p.target, protocol, payload, id);
      SegmentParsesBack(p, true);
    }
  }
}
