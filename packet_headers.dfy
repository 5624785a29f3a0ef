/**
 * The protocol header records of packet/packet.go and the byte-order helpers
 * SwapBytesUint16, SwapBytesUint32 and SwapBytesIPv4Addr.
 *
 * A Go header struct is laid over the frame bytes on a little-endian host, so
 * a 16- or 32-bit field holds the little-endian reading of bytes that are in
 * network (big-endian) order. The header datatypes below hold exactly those
 * host values; `SwapBytes*` converts them to network order (SwapOfLoadIsBigEndian).
 */
module PacketHeaders {
  import opened Types

  // ---------------------------------------------------------------------------
  // Loads and stores of host-order fields
  // ---------------------------------------------------------------------------

  /** The value a little-endian host loads from the two bytes b0 b1. */
  function LE16(b0: u8, b1: u8): u16 { b0 + 0x100 * b1 }

  /** The value a little-endian host loads from the four bytes b0 b1 b2 b3. */
  function LE32(b0: u8, b1: u8, b2: u8, b3: u8): u32 { LE16(b0, b1) + 0x1_0000 * LE16(b2, b3) }

  /** The network-order (big-endian) reading of b0 b1. */
  function BE16(b0: u8, b1: u8): u16 { 0x100 * b0 + b1 }

  /** The bytes a little-endian host stores for a 16-bit field. */
  function Bytes16(v: u16): (b: seq<u8>)
    ensures |b| == 2 && LE16(b[0], b[1]) == v
  {
    [v % 0x100, v / 0x100]
  }

  /** uint16(x) and uint16(x >> 16) of a 32-bit value. */
  function Lo16(x: u32): u16 { x % 0x1_0000 }
  function Hi16(x: u32): u16 { x / 0x1_0000 }

  /** The bytes a little-endian host stores for a 32-bit field. */
  function Bytes32(v: u32): (b: seq<u8>)
    ensures |b| == 4 && LE32(b[0], b[1], b[2], b[3]) == v
  {
    Bytes16(Lo16(v)) + Bytes16(Hi16(v))
  }

  lemma Bytes16OfLoad(b0: u8, b1: u8)
    ensures Bytes16(LE16(b0, b1)) == [b0, b1]
  {
  }

  /** The two halves of lo + 2^16 * hi are lo and hi. */
  lemma Halves(lo: u16, hi: u16)
    ensures Lo16(lo + 0x1_0000 * hi) == lo && Hi16(lo + 0x1_0000 * hi) == hi
  {
    var x := lo + 0x1_0000 * hi;
    assert x / 0x1_0000 == hi by {
      assert 0x1_0000 * hi <= x < 0x1_0000 * (hi + 1);
    }
  }

  lemma Bytes32OfLoad(b0: u8, b1: u8, b2: u8, b3: u8)
    ensures Bytes32(LE32(b0, b1, b2, b3)) == [b0, b1, b2, b3]
  {
    var x := LE32(b0, b1, b2, b3);
    Halves(LE16(b0, b1), LE16(b2, b3));
    Bytes16OfLoad(b0, b1);
    Bytes16OfLoad(b2, b3);
    assert x == LE16(b0, b1) + 0x1_0000 * LE16(b2, b3);
    assert Lo16(x) == LE16(b0, b1);
    assert Hi16(x) == LE16(b2, b3);
    calc {
      Bytes32(x);
      Bytes16(Lo16(x)) + Bytes16(Hi16(x));
      Bytes16(LE16(b0, b1)) + Bytes16(LE16(b2, b3));
      [b0, b1] + [b2, b3];
    }
  }

  /** Replace the bytes of s from off on by b. */
  function Splice(s: seq<u8>, off: nat, b: seq<u8>): (r: seq<u8>)
    requires off + |b| <= |s|
    ensures |r| == |s|
    ensures forall i | 0 <= i < |s| :: r[i] == if off <= i < off + |b| then b[i - off] else s[i]
  {
    s[..off] + b + s[off + |b|..]
  }

  // ---------------------------------------------------------------------------
  // Byte swapping (packet/packet.go:750-761)
  // ---------------------------------------------------------------------------

  /** x<<8 | x>>8 on a uint16. */
  function SwapBytesUint16(x: u16): u16 { (x % 0x100) * 0x100 + x / 0x100 }

  /** The four byte masks of the source, shifted into mirrored positions. */
  function SwapBytesUint32(x: u32): u32
  {
    (x % 0x100) * 0x100_0000 + ((x / 0x100) % 0x100) * 0x1_0000
    + ((x / 0x1_0000) % 0x100) * 0x100 + x / 0x100_0000
  }

  /** types.IPv4Address is a uint32; the source repeats the SwapBytesUint32 body for it. */
  function SwapBytesIPv4Addr(x: u32): u32
  {
    (x % 0x100) * 0x100_0000 + ((x / 0x100) % 0x100) * 0x1_0000
    + ((x / 0x1_0000) % 0x100) * 0x100 + x / 0x100_0000
  }

  lemma SwapBytesUint16Involution(x: u16)
    ensures SwapBytesUint16(SwapBytesUint16(x)) == x
  {
    var lo, hi := x % 0x100, x / 0x100;
    assert x == 0x100 * hi + lo;
    PairDigits(lo, hi);
  }

  /** A 16-bit value built from two bytes gives those bytes back. */
  lemma PairDigits(lo: u8, hi: u8)
    ensures (0x100 * lo + hi) % 0x100 == hi && (0x100 * lo + hi) / 0x100 == lo
  {
  }

  /** Swapping the host load of two frame bytes gives their network-order value. */
  lemma SwapOfLoadIsBigEndian(b0: u8, b1: u8)
    ensures SwapBytesUint16(LE16(b0, b1)) == BE16(b0, b1)
    ensures LE16(b0, b1) == SwapBytesUint16(BE16(b0, b1))
  {
    PairDigits(b1, b0);
    PairDigits(b0, b1);
  }

  /** The four base-256 digits of a 32-bit value, least significant first. */
  lemma Digits32(x: u32)
    ensures x == x % 0x100 + 0x100 * ((x / 0x100) % 0x100)
                 + 0x1_0000 * ((x / 0x1_0000) % 0x100) + 0x100_0000 * (x / 0x100_0000)
  {
    DivChain(x);
  }

  lemma DivChain(x: nat)
    ensures x / 0x1_0000 == (x / 0x100) / 0x100
    ensures x / 0x100_0000 == ((x / 0x100) / 0x100) / 0x100
  {
  }

  /** A value built from four digits gives those digits back. */
  lemma DigitsOf(c0: u8, c1: u8, c2: u8, c3: u8)
    ensures var y := c0 + 0x100 * c1 + 0x1_0000 * c2 + 0x100_0000 * c3;
      y % 0x100 == c0 && (y / 0x100) % 0x100 == c1 && (y / 0x1_0000) % 0x100 == c2 && y / 0x100_0000 == c3
  {
    var y := c0 + 0x100 * c1 + 0x1_0000 * c2 + 0x100_0000 * c3;
    DivChain(y);
    assert y == c0 + 0x100 * (c1 + 0x100 * (c2 + 0x100 * c3));
    assert y / 0x100 == c1 + 0x100 * (c2 + 0x100 * c3);
    assert (y / 0x100) / 0x100 == c2 + 0x100 * c3;
  }

  lemma SwapBytesUint32Involution(x: u32)
    ensures SwapBytesUint32(SwapBytesUint32(x)) == x
  {
    var b0, b1, b2, b3 := x % 0x100, (x / 0x100) % 0x100, (x / 0x1_0000) % 0x100, x / 0x100_0000;
    Digits32(x);
    var y := SwapBytesUint32(x);
    assert y == b3 + 0x100 * b2 + 0x1_0000 * b1 + 0x100_0000 * b0;
    DigitsOf(b3, b2, b1, b0);
  }

  lemma SwapBytesIPv4AddrInvolution(x: u32)
    ensures SwapBytesIPv4Addr(SwapBytesIPv4Addr(x)) == x
  {
    SwapBytesUint32Involution(x);
    assert SwapBytesIPv4Addr(x) == SwapBytesUint32(x);
  }

  // ---------------------------------------------------------------------------
  // Header records (packet/packet.go:31-145) and their byte layout
  // ---------------------------------------------------------------------------

  type MACAddress = b: seq<u8> | |b| == 6 witness [0, 0, 0, 0, 0, 0]
  type IPv6Address = b: seq<u8> | |b| == 16 witness seq(16, _ => 0)

  datatype EtherHdr = EtherHdr(dAddr: MACAddress, sAddr: MACAddress, etherType: u16)

  datatype IPv4Hdr = IPv4Hdr(
    versionIhl: u8, typeOfService: u8, totalLength: u16, packetId: u16,
    fragmentOffset: u16, timeToLive: u8, nextProtoId: u8, hdrChecksum: u16,
    srcAddr: u32, dstAddr: u32)

  datatype IPv6Hdr = IPv6Hdr(
    vtcFlow: u32, payloadLen: u16, proto: u8, hopLimits: u8,
    srcAddr: IPv6Address, dstAddr: IPv6Address)

  datatype TCPHdr = TCPHdr(
    srcPort: u16, dstPort: u16, sentSeq: u32, recvAck: u32, dataOff: u8,
    tcpFlags: u8, rxWin: u16, cksum: u16, tcpUrp: u16)

  datatype UDPHdr = UDPHdr(srcPort: u16, dstPort: u16, dgramLen: u16, dgramCksum: u16)

  datatype ICMPHdr = ICMPHdr(icmpType: u8, code: u8, cksum: u16, identifier: u16, seqNum: u16)

  function DecodeEther(b: seq<u8>): EtherHdr
    requires |b| == EtherLen
  {
    EtherHdr(b[0..6], b[6..12], LE16(b[12], b[13]))
  }

  function EncodeEther(h: EtherHdr): (b: seq<u8>)
    ensures |b| == EtherLen
  {
    h.dAddr + h.sAddr + Bytes16(h.etherType)
  }

  function DecodeIPv4(b: seq<u8>): IPv4Hdr
    requires |b| == IPv4MinLen
  {
    IPv4Hdr(b[0], b[1], LE16(b[2], b[3]), LE16(b[4], b[5]), LE16(b[6], b[7]), b[8], b[9],
            LE16(b[10], b[11]), LE32(b[12], b[13], b[14], b[15]), LE32(b[16], b[17], b[18], b[19]))
  }

  function EncodeIPv4(h: IPv4Hdr): (b: seq<u8>)
    ensures |b| == IPv4MinLen
  {
    [h.versionIhl, h.typeOfService] + Bytes16(h.totalLength) + Bytes16(h.packetId)
    + Bytes16(h.fragmentOffset) + [h.timeToLive, h.nextProtoId] + Bytes16(h.hdrChecksum)
    + Bytes32(h.srcAddr) + Bytes32(h.dstAddr)
  }

  function DecodeUDP(b: seq<u8>): UDPHdr
    requires |b| == UDPLen
  {
    UDPHdr(LE16(b[0], b[1]), LE16(b[2], b[3]), LE16(b[4], b[5]), LE16(b[6], b[7]))
  }

  function EncodeUDP(h: UDPHdr): (b: seq<u8>)
    ensures |b| == UDPLen
  {
    Bytes16(h.srcPort) + Bytes16(h.dstPort) + Bytes16(h.dgramLen) + Bytes16(h.dgramCksum)
  }

  function DecodeICMP(b: seq<u8>): ICMPHdr
    requires |b| == ICMPLen
  {
    ICMPHdr(b[0], b[1], LE16(b[2], b[3]), LE16(b[4], b[5]), LE16(b[6], b[7]))
  }

  function EncodeICMP(h: ICMPHdr): (b: seq<u8>)
    ensures |b| == ICMPLen
  {
    [h.icmpType, h.code] + Bytes16(h.cksum) + Bytes16(h.identifier) + Bytes16(h.seqNum)
  }

  function DecodeIPv6(b: seq<u8>): IPv6Hdr
    requires |b| == IPv6Len
  {
    IPv6Hdr(LE32(b[0], b[1], b[2], b[3]), LE16(b[4], b[5]), b[6], b[7], b[8..24], b[24..40])
  }

  function DecodeTCP(b: seq<u8>): TCPHdr
    requires |b| == TCPMinLen
  {
    TCPHdr(LE16(b[0], b[1]), LE16(b[2], b[3]), LE32(b[4], b[5], b[6], b[7]),
           LE32(b[8], b[9], b[10], b[11]), b[12], b[13], LE16(b[14], b[15]),
           LE16(b[16], b[17]), LE16(b[18], b[19]))
  }

  function EncodeTCP(h: TCPHdr): (b: seq<u8>)
    ensures |b| == TCPMinLen
  {
    Bytes16(h.srcPort) + Bytes16(h.dstPort) + Bytes32(h.sentSeq) + Bytes32(h.recvAck)
    + [h.dataOff, h.tcpFlags] + Bytes16(h.rxWin) + Bytes16(h.cksum) + Bytes16(h.tcpUrp)
  }

  function EncodeIPv6(h: IPv6Hdr): (b: seq<u8>)
    ensures |b| == IPv6Len
  {
    Bytes32(h.vtcFlow) + Bytes16(h.payloadLen) + [h.proto, h.hopLimits] + h.srcAddr + h.dstAddr
  }

  /** Reading a header back from its bytes gives the header (both directions). */
  lemma EtherRoundTrip(h: EtherHdr, b: seq<u8>)
    requires |b| == EtherLen
    ensures DecodeEther(EncodeEther(h)) == h
    ensures EncodeEther(DecodeEther(b)) == b
  {
    var e := EncodeEther(h);
    assert e[0..6] == h.dAddr && e[6..12] == h.sAddr;
    Bytes16OfLoad(b[12], b[13]);
    assert b == b[0..6] + b[6..12] + [b[12], b[13]];
  }

  lemma IPv4RoundTrip(h: IPv4Hdr, b: seq<u8>)
    requires |b| == IPv4MinLen
    ensures DecodeIPv4(EncodeIPv4(h)) == h
    ensures EncodeIPv4(DecodeIPv4(b)) == b
  {
    Bytes16OfLoad(b[2], b[3]);
    Bytes16OfLoad(b[4], b[5]);
    Bytes16OfLoad(b[6], b[7]);
    Bytes16OfLoad(b[10], b[11]);
    Bytes32OfLoad(b[12], b[13], b[14], b[15]);
    Bytes32OfLoad(b[16], b[17], b[18], b[19]);
    assert EncodeIPv4(DecodeIPv4(b)) == b;
  }

  lemma UDPRoundTrip(h: UDPHdr, b: seq<u8>)
    requires |b| == UDPLen
    ensures DecodeUDP(EncodeUDP(h)) == h
    ensures EncodeUDP(DecodeUDP(b)) == b
  {
    Bytes16OfLoad(b[0], b[1]);
    Bytes16OfLoad(b[2], b[3]);
    Bytes16OfLoad(b[4], b[5]);
    Bytes16OfLoad(b[6], b[7]);
    assert EncodeUDP(DecodeUDP(b)) == b;
  }

  lemma ICMPRoundTrip(h: ICMPHdr, b: seq<u8>)
    requires |b| == ICMPLen
    ensures DecodeICMP(EncodeICMP(h)) == h
    ensures EncodeICMP(DecodeICMP(b)) == b
  {
    Bytes16OfLoad(b[2], b[3]);
    Bytes16OfLoad(b[4], b[5]);
    Bytes16OfLoad(b[6], b[7]);
    assert EncodeICMP(DecodeICMP(b)) == b;
  }

  lemma TCPRoundTrip(h: TCPHdr, b: seq<u8>)
    requires |b| == TCPMinLen
    ensures DecodeTCP(EncodeTCP(h)) == h
    ensures EncodeTCP(DecodeTCP(b)) == b
  {
    Bytes16OfLoad(b[0], b[1]);
    Bytes16OfLoad(b[2], b[3]);
    Bytes32OfLoad(b[4], b[5], b[6], b[7]);
    Bytes32OfLoad(b[8], b[9], b[10], b[11]);
    Bytes16OfLoad(b[14], b[15]);
    Bytes16OfLoad(b[16], b[17]);
    Bytes16OfLoad(b[18], b[19]);
    assert EncodeTCP(DecodeTCP(b)) == b;
  }

  lemma IPv6RoundTrip(h: IPv6Hdr, b: seq<u8>)
    requires |b| == IPv6Len
    ensures DecodeIPv6(EncodeIPv6(h)) == h
    ensures EncodeIPv6(DecodeIPv6(b)) == b
  {
    var e := EncodeIPv6(h);
    assert e[8..24] == h.srcAddr && e[24..40] == h.dstAddr;
    Bytes32OfLoad(b[0], b[1], b[2], b[3]);
    Bytes16OfLoad(b[4], b[5]);
    assert b == [b[0], b[1], b[2], b[3]] + [b[4], b[5]] + [b[6], b[7]] + b[8..24] + b[24..40];
  }
}
