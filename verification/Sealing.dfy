/** Packet protection: nonces, associated data, and the single-buffer form of sealing. */
module Sealing {
  import opened Arith
  import opened Bytes
  import opened Wire

  // ---------- exclusive or ----------

  /** Bitwise exclusive or of the lowest `bits` bits. */
  function Xor(a: nat, b: nat, bits: nat): (r: nat) {
    if bits == 0 then 0 else (a % 2 + b % 2) % 2 + 2 * Xor(a / 2, b / 2, bits - 1)
  }

  lemma {:induction false} XorBounded(a: nat, b: nat, bits: nat)
    ensures Xor(a, b, bits) < Pow2(bits)
  {
    if bits > 0 {
      XorBounded(a / 2, b / 2, bits - 1);
    }
  }

  lemma {:induction false} XorCancels(a: nat, b: nat, bits: nat)
    requires b < Pow2(bits)
    ensures Xor(a, Xor(a, b, bits), bits) == b
  {
    if bits > 0 {
      XorCancels(a / 2, b / 2, bits - 1);
      var low, high := (a % 2 + b % 2) % 2, Xor(a / 2, b / 2, bits - 1);
      LowBit(low, high);
      BitCancels(a % 2, b % 2);
    }
  }

  lemma LowBit(low: nat, high: nat)
    requires low < 2
    ensures (low + 2 * high) % 2 == low && (low + 2 * high) / 2 == high
  {
  }

  lemma BitCancels(a: nat, b: nat)
    requires a < 2 && b < 2
    ensures (a + (a + b) % 2) % 2 == b
  {
  }

  lemma Bits8()
    ensures Pow2(8) == 256
  {
    assert Pow2(4) == 16;
    assert Pow2(6) == 4 * Pow2(4);
  }

  function XorByte(a: byte, b: byte): (r: byte) {
    Bits8();
    XorBounded(a, b, 8);
    Xor(a, b, 8)
  }

  lemma XorByteCancels(a: byte, b: byte)
    ensures XorByte(a, XorByte(a, b)) == b
  {
    Bits8();
    XorCancels(a, b, 8);
  }

  // ---------- nonces ----------

  /** The nonce of packet `n`: its 64-bit number mixed into the last eight octets of the static IV. */
  function Nonce(iv: Octets, n: uint64): (r: Octets)
    requires |iv| == 12
    ensures |r| == 12
  {
    iv[..4] + seq(8, i requires 0 <= i < 8 => XorByte(iv[4 + i], EncodeBE(n, 8)[i]))
  }

  /** Different packet numbers under one IV never share a nonce. */
  lemma NonceInjective(iv: Octets, a: uint64, b: uint64)
    requires |iv| == 12 && Nonce(iv, a) == Nonce(iv, b)
    ensures a == b
  {
    forall i | 0 <= i < 8 ensures EncodeBE(a, 8)[i] == EncodeBE(b, 8)[i] {
      assert Nonce(iv, a)[4 + i] == Nonce(iv, b)[4 + i];
      XorByteCancels(iv[4 + i], EncodeBE(a, 8)[i]);
      XorByteCancels(iv[4 + i], EncodeBE(b, 8)[i]);
    }
    assert EncodeBE(a, 8) == EncodeBE(b, 8);
    Widths();
    DecodeEncodeBE(a, 8);
    DecodeEncodeBE(b, 8);
  }

  /** Octet `i` from the right of a big-endian encoding, as a shift computes it. */
  lemma {:induction false} OctetFromRight(n: nat, width: nat, i: nat)
    requires i < width
    ensures EncodeBE(n, width)[width - 1 - i] == (n / Pow256(i)) % 256
  {
    if i > 0 {
      OctetFromRight(n / 256, width - 1, i - 1);
      DivideTwice(n, Pow256(i - 1));
    }
  }

  /** The loop of the source: XOR the octets of `n` into the copied IV, from the right. */
  method AppendXORNonce96(dst: Octets, iv: Octets, n: uint64) returns (out: Option<Octets>)
    ensures |iv| != 12 ==> out == None
    ensures |iv| == 12 ==> out == Some(dst + Nonce(iv, n))
  {
    if |iv| != 12 {
      return None;
    }
    var buffer := new byte[|dst| + 12](i requires 0 <= i < |dst| + 12 => (dst + iv)[i]);
    var last := |dst| + 11;
    for i := 0 to 8
      invariant forall j :: 0 <= j < |dst| + 12 && j <= last - i ==> buffer[j] == (dst + iv)[j]
      invariant forall j :: last - i < j <= last ==> buffer[j] == (dst + Nonce(iv, n))[j]
    {
      OctetFromRight(n, 8, i);
      buffer[last - i] := XorByte(buffer[last - i], (n / Pow256(i)) % 256);
      assert (dst + Nonce(iv, n))[last - i] == Nonce(iv, n)[11 - i];
      assert (dst + iv)[last - i] == iv[11 - i];
    }
    assert buffer[..] == dst + Nonce(iv, n);
    return Some(buffer[..]);
  }

  // ---------- frames ----------

  datatype Frame = Frame(kind: uint64, flowId: uint64, flags: uint64, payload: Octets)
  type Block = seq<Frame>

  predicate FrameFits(f: Frame) {
    f.kind <= MAX_VARINT && f.flowId <= MAX_VARINT && f.flags <= MAX_VARINT && |f.payload| <= 0xff_ffff
  }

  function EncodeFrame(f: Frame): (s: Octets)
    requires FrameFits(f)
  {
    Varint(f.kind) + Varint(f.flowId) + Varint(f.flags) + EncodeBE(|f.payload|, 3) + f.payload
  }

  predicate BlockFits(b: Block) {
    |b| <= MAX_VARINT && forall i :: 0 <= i < |b| ==> FrameFits(b[i])
  }

  function EncodeFrames(b: Block): Octets
    requires forall i :: 0 <= i < |b| ==> FrameFits(b[i])
  {
    if b == [] then [] else EncodeFrame(b[0]) + EncodeFrames(b[1..])
  }

  function EncodeBlock(b: Block): Octets
    requires BlockFits(b)
  {
    Varint(|b|) + EncodeFrames(b)
  }

  /** The length computed without encoding. */
  function FrameLength(f: Frame): nat
    requires FrameFits(f)
  {
    3 + |f.payload| + VarintLength(f.kind) + VarintLength(f.flowId) + VarintLength(f.flags)
  }

  function FramesLength(b: Block): nat
    requires forall i :: 0 <= i < |b| ==> FrameFits(b[i])
  {
    if b == [] then 0 else FrameLength(b[0]) + FramesLength(b[1..])
  }

  function EncodedLength(b: Block): Option<nat> {
    if BlockFits(b) then Some(VarintLength(|b|) + FramesLength(b)) else None
  }

  lemma {:induction false} FramesLengthExact(b: Block)
    requires forall i :: 0 <= i < |b| ==> FrameFits(b[i])
    ensures |EncodeFrames(b)| == FramesLength(b)
  {
    if b != [] {
      FramesLengthExact(b[1..]);
    }
  }

  /** The predicted length is the length of the encoding, and is never zero. */
  lemma LengthExact(b: Block)
    requires BlockFits(b)
    ensures EncodedLength(b) == Some(|EncodeBlock(b)|) && |EncodeBlock(b)| > 0
  {
    FramesLengthExact(b);
  }

  // ---------- protectors ----------

  const TAG_OCTETS: nat := 16

  /**
   * The foreign parts, as parameters: the AEAD of each suite, the digest of the associated data, which keys the
   * AEAD accepts, and which blocks may travel in a direction.
   */
  datatype Foreign = Foreign(
    seal: (uint64, Octets, Octets, Octets, Octets) -> Octets,
    digest: Octets -> Octets,
    accepts: (uint64, Octets) -> bool,
    permits: (Block, byte) -> bool)

  /** The AEAD adds exactly its tag. */
  ghost predicate Lawful(x: Foreign) {
    forall s, k, n, a, p :: |x.seal(s, k, n, a, p)| == |p| + TAG_OCTETS
  }

  datatype Protector = Protector(
    suite: uint64, route: uint64, hop: byte, direction: byte, phase: byte, key: Octets, iv: Octets, next: uint64)

  datatype Packet = Packet(
    route: uint64, hop: byte, direction: byte, phase: byte, number: uint64, ciphertext: Octets, tag: Octets)

  function AssociatedData(x: Foreign, p: Protector): Option<Octets> {
    if p.route > MAX_VARINT || p.next > MAX_VARINT then None
    else Some(x.digest(Ascii("aurora v2.0 packet ad") + Varint(p.route) + [p.hop, p.direction, p.phase]
                       + Varint(p.next)))
  }

  datatype Sealed = Sealed(packet: Option<Packet>, protector: Protector)

  /** Seals a block under the next packet number; the number is used up only when sealing succeeds. */
  function Seal(x: Foreign, p: Protector, b: Block): Sealed {
    if p.direction > 1 || !x.permits(b, p.direction) || !BlockFits(b) then Sealed(None, p)
    else
      var aad := AssociatedData(x, p);
      if aad.None? || |p.iv| != 12 || !x.accepts(p.suite, p.key) then Sealed(None, p)
      else
        var sealed := x.seal(p.suite, p.key, Nonce(p.iv, p.next), aad.value, EncodeBlock(b));
        if |sealed| < TAG_OCTETS then Sealed(None, p)
        else
          var n := |sealed| - TAG_OCTETS;
          Sealed(Some(Packet(p.route, p.hop, p.direction, p.phase, p.next, sealed[..n], sealed[n..])),
                 p.(next := p.next + 1))
  }

  function Header(route: uint64, hop: byte, direction: byte, phase: byte, number: uint64, length: nat): Octets
    requires route <= MAX_VARINT && number <= MAX_VARINT
  {
    Varint(route) + [hop, direction, phase] + Varint(number) + EncodeBE(length, 3)
  }

  function EncodePacket(p: Packet): Option<Octets> {
    if p.route > MAX_VARINT || p.number > MAX_VARINT || |p.ciphertext| > 0xff_ffff || |p.tag| != TAG_OCTETS then None
    else Some(Header(p.route, p.hop, p.direction, p.phase, p.number, |p.ciphertext|) + p.ciphertext + p.tag)
  }

  datatype Layout = Layout(header: nat, plaintext: nat)

  function SealedLayout(p: Protector, b: Block): Option<Layout> {
    var n := EncodedLength(b);
    if n.None? || n.value == 0 || n.value > 0xff_ffff || p.route > MAX_VARINT || p.next > MAX_VARINT then None
    else Some(Layout(VarintLength(p.route) + 3 + VarintLength(p.next) + 3, n.value))
  }

  datatype Emitted = Emitted(octets: Option<Octets>, protector: Protector)

  /** The simple form: seal, then encode. */
  function SealThenEncode(x: Foreign, p: Protector, b: Block): Emitted {
    var s := Seal(x, p, b);
    Emitted(if s.packet.None? then None else EncodePacket(s.packet.value), s.protector)
  }

  predicate Ready(x: Foreign, p: Protector, b: Block) {
    && p.direction <= 1 && x.permits(b, p.direction) && |p.iv| == 12 && x.accepts(p.suite, p.key)
    && SealedLayout(p, b).Some?
  }

  /** What sealing then encoding gives when the layout is known: the header, then the sealed block. */
  lemma EncodedWhenReady(x: Foreign, p: Protector, b: Block)
    requires Lawful(x) && Ready(x, p, b)
    ensures AssociatedData(x, p).Some?
    ensures var sealed := x.seal(p.suite, p.key, Nonce(p.iv, p.next), AssociatedData(x, p).value, EncodeBlock(b));
            var n := SealedLayout(p, b).value.plaintext;
            SealThenEncode(x, p, b) ==
              Emitted(Some(Header(p.route, p.hop, p.direction, p.phase, p.next, n) + sealed), p.(next := p.next + 1))
  {
    LengthExact(b);
    var sealed := x.seal(p.suite, p.key, Nonce(p.iv, p.next), AssociatedData(x, p).value, EncodeBlock(b));
    var n := SealedLayout(p, b).value.plaintext;
    assert |sealed| == n + TAG_OCTETS;
    assert sealed == sealed[..n] + sealed[n..];
    var header := Header(p.route, p.hop, p.direction, p.phase, p.next, n);
    assert header + sealed[..n] + sealed[n..] == header + sealed;
  }

  /** When the layout is known and something else is missing, nothing is sealed and no number is used. */
  lemma NothingSealed(x: Foreign, p: Protector, b: Block)
    requires !Ready(x, p, b) && SealedLayout(p, b).Some?
    ensures SealThenEncode(x, p, b) == Emitted(None, p)
  {
  }

  /** Writes header and plaintext into one buffer and seals the plaintext where it lies. */
  method SealInPlace(x: Foreign, suite: uint64, key: Octets, nonce: Octets, aad: Octets, header: Octets,
                     plaintext: Octets)
    returns (out: Octets)
    requires Lawful(x)
    ensures out == header + x.seal(suite, key, nonce, aad, plaintext)
  {
    var h, n := |header|, |plaintext|;
    var text := header + plaintext;
    var buffer := new byte[h + n + TAG_OCTETS](i requires 0 <= i < h + n + TAG_OCTETS => if i < |text| then text[i]
                                               else 0);
    assert buffer[h..h + n] == plaintext;
    var sealed := x.seal(suite, key, nonce, aad, buffer[h..h + n]);
    for i := 0 to |sealed|
      invariant forall j :: 0 <= j < h ==> buffer[j] == header[j]
      invariant forall j :: 0 <= j < i ==> buffer[h + j] == sealed[j]
    {
      buffer[h + i] := sealed[i];
    }
    assert buffer[..] == header + sealed;
    return buffer[..];
  }

  /** The protector object: sealing advances its packet number and keeps the AEAD of its current key. */
  class PacketProtector {
    const x: Foreign
    var p: Protector
    var cached: Option<(uint64, Octets)>

    constructor (x: Foreign, p: Protector)
      ensures this.x == x && this.p == p && cached == None
    {
      this.x, this.p, cached := x, p, None;
    }

    ghost predicate Valid()
      reads this
    {
      Lawful(x) && (cached.Some? ==> x.accepts(cached.value.0, cached.value.1))
    }

    /** The AEAD that is used always belongs to the current suite and key. */
    method CachedAEAD() returns (aead: Option<(uint64, Octets)>)
      requires Valid()
      modifies this`cached
      ensures Valid()
      ensures aead == if x.accepts(p.suite, p.key) then Some((p.suite, p.key)) else None
    {
      if cached == Some((p.suite, p.key)) {
        return cached;
      }
      if !x.accepts(p.suite, p.key) {
        return None;
      }
      cached := Some((p.suite, p.key));
      return cached;
    }

    /**
     * The single-buffer form returns what sealing and then encoding returns, octet for octet, and
     * moves the packet number the same way.
     */
    method SealEncoded(b: Block) returns (out: Option<Octets>)
      requires Valid()
      modifies this
      ensures Valid()
      ensures var e := SealThenEncode(x, old(p), b); out == e.octets && p == e.protector
    {
      if p.direction > 1 || !x.permits(b, p.direction) {
        return None;
      }
      var layout := SealedLayout(p, b);
      if layout.None? {
        var s := Seal(x, p, b);
        p := s.protector;
        return if s.packet.None? then None else EncodePacket(s.packet.value);
      }
      if !Ready(x, p, b) {
        NothingSealed(x, p, b);
      } else {
        EncodedWhenReady(x, p, b);
      }
      var aad := AssociatedData(x, p);
      var nonce := AppendXORNonce96([], p.iv, p.next);
      if aad.None? || nonce.None? {
        return None;
      }
      var aead := CachedAEAD();
      if aead.None? {
        return None;
      }
      var header := Header(p.route, p.hop, p.direction, p.phase, p.next, layout.value.plaintext);
      assert [] + Nonce(p.iv, p.next) == Nonce(p.iv, p.next);
      var sealed := SealInPlace(x, aead.value.0, aead.value.1, nonce.value, aad.value, header, EncodeBlock(b));
      p := p.(next := p.next + 1);
      return Some(sealed);
    }
  }

  // ---------- runs ----------

  /** The protector after a run of sealing calls under one key; calls may fail. */
  function AfterSeals(x: Foreign, p: Protector, blocks: seq<Block>): Protector
    decreases |blocks|
  {
    if blocks == [] then p else AfterSeals(x, Seal(x, p, blocks[0]).protector, blocks[1..])
  }

  lemma {:induction false} NumbersGrow(x: Foreign, p: Protector, blocks: seq<Block>)
    ensures var q := AfterSeals(x, p, blocks); q == p.(next := q.next) && q.next >= p.next
    decreases |blocks|
  {
    if blocks != [] {
      NumbersGrow(x, Seal(x, p, blocks[0]).protector, blocks[1..]);
    }
  }

  /** No two packets sealed under one key in any run share a packet number or a nonce. */
  lemma NoncesAreUnique(x: Foreign, p: Protector, before: seq<Block>, first: Block, between: seq<Block>, second: Block)
    requires var a := Seal(x, AfterSeals(x, p, before), first);
             var b := Seal(x, AfterSeals(x, a.protector, between), second);
             a.packet.Some? && b.packet.Some?
    ensures var a := Seal(x, AfterSeals(x, p, before), first);
            var b := Seal(x, AfterSeals(x, a.protector, between), second);
            && |p.iv| == 12
            && a.packet.value.number < b.packet.value.number <= MAX_VARINT
            && Nonce(p.iv, a.packet.value.number) != Nonce(p.iv, b.packet.value.number)
  {
    NumbersGrow(x, p, before);
    var a := Seal(x, AfterSeals(x, p, before), first);
    NumbersGrow(x, a.protector, between);
    var b := Seal(x, AfterSeals(x, a.protector, between), second);
    if Nonce(p.iv, a.packet.value.number) == Nonce(p.iv, b.packet.value.number) {
      NonceInjective(p.iv, a.packet.value.number, b.packet.value.number);
    }
  }

  // ---------- what a session hands to its queue ----------

  /** A block that a session seals; one that is not `kept` is dropped after sealing, and its number is taken back. */
  datatype Sending = Sending(block: Block, kept: bool)

  function AfterSending(x: Foreign, p: Protector, s: Sending): Protector {
    if s.kept then Seal(x, p, s.block).protector else p
  }

  /** The packets that reach the queue, in order. */
  function Queued(x: Foreign, p: Protector, sendings: seq<Sending>): seq<Packet>
    decreases |sendings|
  {
    if sendings == [] then []
    else
      var s := sendings[0];
      var sealed := Seal(x, p, s.block).packet;
      (if s.kept && sealed.Some? then [sealed.value] else []) + Queued(x, AfterSending(x, p, s), sendings[1..])
  }

  /** Every packet in `q` has a number of at least `low`, and the numbers grow. */
  predicate Numbered(q: seq<Packet>, low: nat) {
    && (forall i :: 0 <= i < |q| ==> low <= q[i].number <= MAX_VARINT)
    && (forall i, j :: 0 <= i < j < |q| ==> q[i].number < q[j].number)
  }

  lemma NumberedCons(first: Packet, q: seq<Packet>)
    requires Numbered(q, first.number + 1) && first.number <= MAX_VARINT
    ensures Numbered([first] + q, first.number)
  {
  }

  lemma {:induction false} QueuedNumbersGrow(x: Foreign, p: Protector, sendings: seq<Sending>)
    ensures Numbered(Queued(x, p, sendings), p.next)
    ensures Queued(x, p, sendings) != [] ==> |p.iv| == 12
    decreases |sendings|
  {
    if sendings != [] {
      var s := sendings[0];
      QueuedNumbersGrow(x, AfterSending(x, p, s), sendings[1..]);
      SendingNumbers(x, p, s, Queued(x, AfterSending(x, p, s), sendings[1..]));
    }
  }

  lemma SendingNumbers(x: Foreign, p: Protector, s: Sending, q: seq<Packet>)
    requires Numbered(q, AfterSending(x, p, s).next)
    ensures var sealed := Seal(x, p, s.block).packet;
            && Numbered((if s.kept && sealed.Some? then [sealed.value] else []) + q, p.next)
            && (s.kept && sealed.Some? ==> |p.iv| == 12) && AfterSending(x, p, s).iv == p.iv
  {
    var r := Seal(x, p, s.block);
    assert [] + q == q;
    if s.kept && r.packet.Some? {
      NumberedCons(r.packet.value, q);
    }
  }

  /** No two packets that a session queues under one key share a number or a nonce, whatever it drops in between. */
  lemma QueuedNoncesAreUnique(x: Foreign, p: Protector, sendings: seq<Sending>, i: nat, j: nat)
    requires i < j < |Queued(x, p, sendings)|
    ensures var q := Queued(x, p, sendings);
            && |p.iv| == 12 && q[i].number < q[j].number
            && Nonce(p.iv, q[i].number) != Nonce(p.iv, q[j].number)
  {
    QueuedNumbersGrow(x, p, sendings);
    var q := Queued(x, p, sendings);
    if Nonce(p.iv, q[i].number) == Nonce(p.iv, q[j].number) {
      NonceInjective(p.iv, q[i].number, q[j].number);
    }
  }

  /** A packet that was sealed and dropped shares its number with the next one, so both are sealed under one nonce. */
  lemma DroppedNumberIsReused(x: Foreign, p: Protector, dropped: Block, next: Block)
    requires Seal(x, p, dropped).packet.Some?
    ensures var q := AfterSending(x, p, Sending(dropped, false));
            Seal(x, q, next).packet.Some? ==>
              Seal(x, q, next).packet.value.number == Seal(x, p, dropped).packet.value.number
  {
  }

  /** The protector after the first `n` blocks. */
  function AfterSendings(x: Foreign, p: Protector, sendings: seq<Sending>, n: nat): Protector
    requires n <= |sendings|
  {
    if n == 0 then p else AfterSending(x, AfterSendings(x, p, sendings, n - 1), sendings[n - 1])
  }

  /** What sealing block `i` gives, whether it is queued or dropped. */
  function SealedAt(x: Foreign, p: Protector, sendings: seq<Sending>, i: nat): Option<Packet>
    requires i < |sendings|
  {
    Seal(x, AfterSendings(x, p, sendings, i), sendings[i].block).packet
  }

  predicate QueuedAt(x: Foreign, p: Protector, sendings: seq<Sending>, i: nat)
    requires i < |sendings|
  {
    sendings[i].kept && SealedAt(x, p, sendings, i).Some?
  }

  lemma SendingMoves(x: Foreign, p: Protector, sendings: seq<Sending>, n: nat)
    requires n < |sendings|
    ensures AfterSendings(x, p, sendings, n + 1).next
            == AfterSendings(x, p, sendings, n).next + if QueuedAt(x, p, sendings, n) then 1 else 0
  {
  }

  lemma {:induction false} NumberStaysIff(x: Foreign, p: Protector, sendings: seq<Sending>, i: nat, j: nat)
    requires i <= j <= |sendings|
    ensures AfterSendings(x, p, sendings, i).next <= AfterSendings(x, p, sendings, j).next
    ensures AfterSendings(x, p, sendings, i).next == AfterSendings(x, p, sendings, j).next
            <==> forall m :: i <= m < j ==> !QueuedAt(x, p, sendings, m)
    decreases j
  {
    if i < j {
      NumberStaysIff(x, p, sendings, i, j - 1);
      SendingMoves(x, p, sendings, j - 1);
    }
  }

  /** Two sealed packets share their number, and with it the nonce, exactly when none is queued from the first on. */
  lemma NumberSharedIff(x: Foreign, p: Protector, sendings: seq<Sending>, i: nat, j: nat)
    requires i < j < |sendings|
    requires SealedAt(x, p, sendings, i).Some? && SealedAt(x, p, sendings, j).Some?
    ensures SealedAt(x, p, sendings, i).value.number == SealedAt(x, p, sendings, j).value.number
            <==> forall m :: i <= m < j ==> !QueuedAt(x, p, sendings, m)
  {
    NumberStaysIff(x, p, sendings, i, j);
  }

  // ---------- decoding ----------

  /** The part of a packet that follows its packet number. */
  function DecodePayload(route: nat, fixed: Octets, number: nat, rest: Octets): Option<Packet>
    requires |fixed| >= 3 && route <= MAX_VARINT && number <= MAX_VARINT
  {
    if |rest| < 3 then None
    else
      var n := DecodeBE(rest[..3]);
      if |rest| != 3 + n + TAG_OCTETS then None
      else Some(Packet(route, fixed[0], fixed[1], fixed[2], number, rest[3..3 + n], rest[3 + n..]))
  }

  /** Reads an encoded packet back; trailing octets are refused. */
  function DecodePacket(s: Octets): Option<Packet> {
    var route := DecodeVarint(s);
    if route.None? || |route.value.rest| < 3 then None
    else
      var number := DecodeVarint(route.value.rest[3..]);
      if number.None? then None
      else DecodePayload(route.value.value, route.value.rest, number.value.value, number.value.rest)
  }

  lemma PayloadRoundTrip(p: Packet, fixed: Octets)
    requires EncodePacket(p).Some? && |fixed| >= 3 && fixed[0] == p.hop && fixed[1] == p.direction
             && fixed[2] == p.phase
    ensures DecodePayload(p.route, fixed, p.number, EncodeBE(|p.ciphertext|, 3) + p.ciphertext + p.tag) == Some(p)
  {
    var n := |p.ciphertext|;
    var body := EncodeBE(n, 3) + p.ciphertext + p.tag;
    assert body[..3] == EncodeBE(n, 3) && body[3..3 + n] == p.ciphertext && body[3 + n..] == p.tag;
    Widths();
    DecodeEncodeBE(n, 3);
  }

  /** Every packet that can be encoded is read back unchanged. */
  lemma PacketRoundTrip(p: Packet)
    requires EncodePacket(p).Some?
    ensures DecodePacket(EncodePacket(p).value) == Some(p)
  {
    var body := EncodeBE(|p.ciphertext|, 3) + p.ciphertext + p.tag;
    var fixed := [p.hop, p.direction, p.phase] + (Varint(p.number) + body);
    assert EncodePacket(p).value == Varint(p.route) + fixed;
    assert fixed[3..] == Varint(p.number) + body;
    VarintRoundTrip(p.route, fixed);
    VarintRoundTrip(p.number, body);
    PayloadRoundTrip(p, fixed);
  }
}
