/**
 * The header and transport checksums of packet/checksum.go: IPv4 header
 * (section 3.1 of RFC 791), UDP (RFC 768), TCP (section 3.1 of RFC 793), ICMP
 * (RFC 792), the IPv6 upper-layer pseudo-header (section 8.1 of RFC 8200) and
 * ICMPv6 (section 2.3 of RFC 4443).
 *
 * The Go code sums header fields in uint32 and reads the payload through a raw
 * pointer. Here the payload is the byte sequence that starts at that pointer,
 * and every uint16 subtraction and uint32 addition of the source is written
 * out with SubU16/AddU32. Header fields hold host-order values;
 * SwapBytesUint16 turns them into the network-order words the checksum adds.
 */
module Checksum {
  import opened Types
  import opened PacketHeaders
  import opened OnesComplement
  import opened WordSums

  /** calculateIPv4AddrChecksum (packet/checksum.go:103-108): the four address words. */
  function IPv4AddrSum(h: IPv4Hdr): (r: u32)
    ensures r <= 4 * 0xFFFF
  {
    SwapBytesUint16(Hi16(h.srcAddr)) + SwapBytesUint16(Lo16(h.srcAddr))
    + SwapBytesUint16(Hi16(h.dstAddr)) + SwapBytesUint16(Lo16(h.dstAddr))
  }

  /** The header with its checksum field zeroed, as section 3.1 of RFC 791 sums it. */
  function IPv4ZeroChecksum(h: IPv4Hdr): IPv4Hdr { h.(hdrChecksum := 0) }

  /** The sum of packet/checksum.go:90-98: the ten 16-bit words of the fixed header except the checksum. */
  function IPv4HeaderSum(h: IPv4Hdr): (r: u32)
    ensures r <= 10 * 0xFFFF
  {
    0x100 * h.versionIhl + h.typeOfService
    + SwapBytesUint16(h.totalLength) + SwapBytesUint16(h.packetId) + SwapBytesUint16(h.fragmentOffset)
    + 0x100 * h.timeToLive + h.nextProtoId
    + IPv4AddrSum(h)
  }

  /**
   * CalculateIPv4Checksum (packet/checksum.go:88-101): the complement of the
   * folded sum of the 20-byte header with its checksum field taken as zero.
   * IPv4 options are not covered.
   */
  function CalculateIPv4Checksum(h: IPv4Hdr): u16
  {
    Complement(Folded(IPv4HeaderSum(h)))
  }

  /** The eight big-endian words of an IPv6 address (packet/checksum.go:162-177). */
  function IPv6AddrWords(a: IPv6Address): (r: nat)
    ensures r <= 8 * 0xFFFF
  {
    BE16(a[0], a[1]) + BE16(a[2], a[3]) + BE16(a[4], a[5]) + BE16(a[6], a[7])
    + BE16(a[8], a[9]) + BE16(a[10], a[11]) + BE16(a[12], a[13]) + BE16(a[14], a[15])
  }

  /** calculateIPv6AddrChecksum (packet/checksum.go:161-178). */
  function IPv6AddrSum(h: IPv6Hdr): (r: u32)
    ensures r <= 16 * 0xFFFF
  {
    IPv6AddrWords(h.srcAddr) + IPv6AddrWords(h.dstAddr)
  }

  /** calculateTCPChecksum (packet/checksum.go:132-143): the fixed TCP header words except the checksum. */
  function TCPHeaderSum(t: TCPHdr): (r: u32)
    ensures r <= 9 * 0xFFFF
  {
    SwapBytesUint16(t.srcPort) + SwapBytesUint16(t.dstPort)
    + SwapBytesUint16(Hi16(t.sentSeq)) + SwapBytesUint16(Lo16(t.sentSeq))
    + SwapBytesUint16(Hi16(t.recvAck)) + SwapBytesUint16(Lo16(t.recvAck))
    + 0x100 * t.dataOff + t.tcpFlags
    + SwapBytesUint16(t.rxWin) + SwapBytesUint16(t.tcpUrp)
  }

  /** CalculatePseudoHdrIPv4TCPCksum (packet/checksum.go:15-21): the TCP length is TotalLength - 20 in uint16. */
  function PseudoHdrIPv4TCP(h: IPv4Hdr): u16
  {
    Folded(IPv4AddrSum(h) + h.nextProtoId + IPv4PayloadLength(h))
  }

  /** CalculatePseudoHdrIPv4UDPCksum (packet/checksum.go:27-32): the UDP length is DgramLen. */
  function PseudoHdrIPv4UDP(h: IPv4Hdr, udp: UDPHdr): u16
  {
    Folded(IPv4AddrSum(h) + h.nextProtoId + SwapBytesUint16(udp.dgramLen))
  }

  /** CalculatePseudoHdrIPv6TCPCksum (packet/checksum.go:38-44): the length is PayloadLen. */
  function PseudoHdrIPv6TCP(h: IPv6Hdr): u16
  {
    Folded(IPv6AddrSum(h) + SwapBytesUint16(h.payloadLen) + h.proto)
  }

  /** CalculatePseudoHdrIPv6UDPCksum (packet/checksum.go:50-55): the length is DgramLen. */
  function PseudoHdrIPv6UDP(h: IPv6Hdr, udp: UDPHdr): u16
  {
    Folded(IPv6AddrSum(h) + h.proto + SwapBytesUint16(udp.dgramLen))
  }

  /** SwapBytesUint16(TotalLength) - IPv4MinLen in uint16: the IPv4 payload length the source assumes. */
  function IPv4PayloadLength(h: IPv4Hdr): u16
  {
    SubU16(SwapBytesUint16(h.totalLength), IPv4MinLen)
  }

  /** Payload byte counts handed to calculateDataChecksum, each a uint16 subtraction. */
  function IPv4UDPDataLength(h: IPv4Hdr): u16 { SubU16(IPv4PayloadLength(h), UDPLen) }
  function IPv4TCPDataLength(h: IPv4Hdr): u16 { SubU16(IPv4PayloadLength(h), TCPMinLen) }
  function IPv4ICMPDataLength(h: IPv4Hdr): u16 { SubU16(IPv4PayloadLength(h), ICMPLen) }
  function IPv6UDPDataLength(h: IPv6Hdr): u16 { SubU16(SwapBytesUint16(h.payloadLen), UDPLen) }
  function IPv6TCPDataLength(h: IPv6Hdr): u16 { SubU16(SwapBytesUint16(h.payloadLen), TCPMinLen) }
  function IPv6ICMPDataLength(h: IPv6Hdr): u16 { SubU16(SwapBytesUint16(h.payloadLen), ICMPLen) }

  /** The header words of ICMP (type/code, identifier, sequence), checksum excluded. */
  function ICMPHeaderSum(icmp: ICMPHdr): (r: u32)
    ensures r <= 3 * 0xFFFF
  {
    0x100 * icmp.icmpType + icmp.code + SwapBytesUint16(icmp.identifier) + SwapBytesUint16(icmp.seqNum)
  }

  /** A computed UDP checksum of zero is sent as 0xFFFF (RFC 768). */
  function UDPZeroRule(retSum: u16): (r: u16)
    ensures r != 0
    ensures retSum != 0 ==> r == retSum
    ensures retSum == 0 ==> r == 0xFFFF
  {
    if retSum == 0 then Complement(retSum) else retSum
  }

  /** UDP header words of packet/checksum.go:119-121 (the length is counted again there, as in the pseudo-header). */
  function UDPHeaderSum(udp: UDPHdr): (r: u32)
    ensures r <= 3 * 0xFFFF
  {
    SwapBytesUint16(udp.srcPort) + SwapBytesUint16(udp.dstPort) + SwapBytesUint16(udp.dgramLen)
  }

  function IPv4UDPSum(h: IPv4Hdr, udp: UDPHdr, data: seq<u8>): u32
    requires IPv4UDPDataLength(h) <= |data|
  {
    var sum := DataSum(data, IPv4UDPDataLength(h));
    AddU32(sum, IPv4AddrSum(h) + h.nextProtoId + SwapBytesUint16(udp.dgramLen)
                + SwapBytesUint16(udp.srcPort) + SwapBytesUint16(udp.dstPort)
                + SwapBytesUint16(udp.dgramLen))
  }

  function IPv4TCPSum(h: IPv4Hdr, tcp: TCPHdr, data: seq<u8>): u32
    requires IPv4TCPDataLength(h) <= |data|
  {
    var sum := DataSum(data, IPv4TCPDataLength(h));
    AddU32(sum, IPv4AddrSum(h) + h.nextProtoId + IPv4PayloadLength(h) + TCPHeaderSum(tcp))
  }

  function IPv4ICMPSum(h: IPv4Hdr, icmp: ICMPHdr, data: seq<u8>): u32
    requires IPv4ICMPDataLength(h) <= |data|
  {
    AddU32(0x100 * icmp.icmpType + icmp.code + SwapBytesUint16(icmp.identifier)
           + SwapBytesUint16(icmp.seqNum), DataSum(data, IPv4ICMPDataLength(h)))
  }

  function IPv6UDPSum(h: IPv6Hdr, udp: UDPHdr, data: seq<u8>): u32
    requires IPv6UDPDataLength(h) <= |data|
  {
    var sum := DataSum(data, IPv6UDPDataLength(h));
    AddU32(sum, IPv6AddrSum(h) + SwapBytesUint16(udp.dgramLen) + h.proto
                + SwapBytesUint16(udp.srcPort) + SwapBytesUint16(udp.dstPort)
                + SwapBytesUint16(udp.dgramLen))
  }

  function IPv6TCPSum(h: IPv6Hdr, tcp: TCPHdr, data: seq<u8>): u32
    requires IPv6TCPDataLength(h) <= |data|
  {
    var sum := DataSum(data, IPv6TCPDataLength(h));
    AddU32(sum, IPv6AddrSum(h) + SwapBytesUint16(h.payloadLen) + h.proto + TCPHeaderSum(tcp))
  }

  function IPv6ICMPSum(h: IPv6Hdr, icmp: ICMPHdr, data: seq<u8>): u32
    requires IPv6ICMPDataLength(h) <= |data|
  {
    var sum := DataSum(data, IPv6ICMPDataLength(h));
    AddU32(sum, IPv6AddrSum(h) + SwapBytesUint16(h.payloadLen) + h.proto
                + 0x100 * icmp.icmpType + icmp.code
                + SwapBytesUint16(icmp.identifier) + SwapBytesUint16(icmp.seqNum))
  }

  /** CalculateIPv4UDPChecksum (packet/checksum.go:111-130). */
  function CalculateIPv4UDPChecksum(h: IPv4Hdr, udp: UDPHdr, data: seq<u8>): (r: u16)
    requires IPv4UDPDataLength(h) <= |data|
    ensures r != 0
  {
    UDPZeroRule(Complement(Folded(IPv4UDPSum(h, udp, data))))
  }

  /** CalculateIPv4TCPChecksum (packet/checksum.go:148-159). */
  function CalculateIPv4TCPChecksum(h: IPv4Hdr, tcp: TCPHdr, data: seq<u8>): u16
    requires IPv4TCPDataLength(h) <= |data|
  {
    Complement(Folded(IPv4TCPSum(h, tcp, data)))
  }

  /** CalculateIPv4ICMPChecksum (packet/checksum.go:218-227): no pseudo-header. */
  function CalculateIPv4ICMPChecksum(h: IPv4Hdr, icmp: ICMPHdr, data: seq<u8>): u16
    requires IPv4ICMPDataLength(h) <= |data|
  {
    Complement(Folded(IPv4ICMPSum(h, icmp, data)))
  }

  /** CalculateIPv6UDPChecksum (packet/checksum.go:181-200). */
  function CalculateIPv6UDPChecksum(h: IPv6Hdr, udp: UDPHdr, data: seq<u8>): (r: u16)
    requires IPv6UDPDataLength(h) <= |data|
    ensures r != 0
  {
    UDPZeroRule(Complement(Folded(IPv6UDPSum(h, udp, data))))
  }

  /** CalculateIPv6TCPChecksum (packet/checksum.go:203-214). */
  function CalculateIPv6TCPChecksum(h: IPv6Hdr, tcp: TCPHdr, data: seq<u8>): u16
    requires IPv6TCPDataLength(h) <= |data|
  {
    Complement(Folded(IPv6TCPSum(h, tcp, data)))
  }

  /** CalculateIPv6ICMPChecksum (packet/checksum.go:231-246). */
  function CalculateIPv6ICMPChecksum(h: IPv6Hdr, icmp: ICMPHdr, data: seq<u8>): u16
    requires IPv6ICMPDataLength(h) <= |data|
  {
    Complement(Folded(IPv6ICMPSum(h, icmp, data)))
  }

  /** The RFC checksum of a byte string: complement of the folded word sum. */
  function Internet(b: seq<u8>): u16 { Complement(Folded(WordSum(b))) }
}
