/**
 * What the checksums of packet/checksum.go cover: each computed sum is the
 * RFC 1071 word sum of the bytes the relevant RFC names (pseudo-header,
 * header with a zero checksum field, payload), and a stored checksum makes the
 * receiver's recomputation come out zero.
 */
module ChecksumProofs {
  import opened Types
  import opened PacketHeaders
  import opened OnesComplement
  import opened WordSums
  import opened Checksum

  // ---------------------------------------------------------------------------
  // Headers: the words each function adds are those of the header as it lies
  // in the packet, with the checksum field taken as zero.
  // ---------------------------------------------------------------------------

  /** The address sum is the word sum of both addresses as they lie in the header. */
  lemma IPv4AddrSumCovers(h: IPv4Hdr)
    ensures IPv4AddrSum(h) == WordSum(Bytes32(h.srcAddr)) + WordSum(Bytes32(h.dstAddr))
    ensures IPv4AddrSum(h) == WordSum(Bytes32(h.srcAddr) + Bytes32(h.dstAddr))
  {
    WordSumConcat(Bytes32(h.srcAddr), Bytes32(h.dstAddr));
    WordSumBytes32(h.srcAddr);
    WordSumBytes32(h.dstAddr);
  }

  /** The header with any value v in its checksum field sums to the ten checksummed words plus v in network order. */
  lemma IPv4StoredWords(h: IPv4Hdr, v: u16)
    ensures WordSum(EncodeIPv4(h.(hdrChecksum := v))) == IPv4HeaderSum(h) + SwapBytesUint16(v)
  {
    var s := h.(hdrChecksum := v);
    IPv4Layout(s);
    IPv4HeadWords(s);
    IPv4AddrSumCovers(s);
    assert IPv4Head(s) == IPv4Head(h) && IPv4Tail(s) == IPv4Tail(h);
  }

  /** The ten words CalculateIPv4Checksum adds are those of the header with a zero checksum field. */
  lemma IPv4HeaderSumCovers(h: IPv4Hdr)
    ensures IPv4HeaderSum(h) == WordSum(EncodeIPv4(IPv4ZeroChecksum(h)))
  {
    var z := IPv4ZeroChecksum(h);
    IPv4Layout(z);
    IPv4HeadWords(z);
    IPv4AddrSumCovers(z);
  }

  lemma IPv4ChecksumCovers(h: IPv4Hdr)
    ensures CalculateIPv4Checksum(h) == Internet(EncodeIPv4(IPv4ZeroChecksum(h)))
  {
    IPv4HeaderSumCovers(h);
  }

  /**
   * Storing the checksum (in host order, as the header struct does) makes the
   * whole 20-byte header fold to 0xFFFF: a receiver's recomputation gives zero.
   */
  lemma IPv4ChecksumVerifies(h: IPv4Hdr)
    ensures var stored := h.(hdrChecksum := SwapBytesUint16(CalculateIPv4Checksum(h)));
      Internet(EncodeIPv4(stored)) == 0
  {
    var c := CalculateIPv4Checksum(h);
    IPv4StoredWords(h, SwapBytesUint16(c));
    StoredChecksumVerifies(IPv4HeaderSum(h), c, WordSum(EncodeIPv4(h.(hdrChecksum := SwapBytesUint16(c)))));
  }

  /** Exchanging source and destination addresses leaves the IPv4 sums unchanged. */
  lemma IPv4SumsSymmetric(h: IPv4Hdr)
    ensures var s := h.(srcAddr := h.dstAddr, dstAddr := h.srcAddr);
      IPv4AddrSum(s) == IPv4AddrSum(h) && CalculateIPv4Checksum(s) == CalculateIPv4Checksum(h)
  {
  }

  lemma IPv6AddrWordsCovers(a: IPv6Address)
    ensures IPv6AddrWords(a) == WordSum(a)
  {
    assert a[0..] == a;
    assert a[16..] == [];
    WordSumAt(a, 0);
    WordSumAt(a, 2);
    WordSumAt(a, 4);
    WordSumAt(a, 6);
    WordSumAt(a, 8);
    WordSumAt(a, 10);
    WordSumAt(a, 12);
    WordSumAt(a, 14);
  }

  lemma IPv6AddrSumCovers(h: IPv6Hdr)
    ensures IPv6AddrSum(h) == WordSum(h.srcAddr + h.dstAddr)
  {
    WordSumConcat(h.srcAddr, h.dstAddr);
    IPv6AddrWordsCovers(h.srcAddr);
    IPv6AddrWordsCovers(h.dstAddr);
  }

  lemma IPv6AddrSumSymmetric(h: IPv6Hdr)
    ensures IPv6AddrSum(h.(srcAddr := h.dstAddr, dstAddr := h.srcAddr)) == IPv6AddrSum(h)
  {
  }

  lemma TCPHeaderSumOfHead(t: TCPHdr)
    ensures TCPHeaderSum(t) == WordSum(TCPHead(t)) + SwapBytesUint16(t.tcpUrp)
  {
    TCPHeadWords(t);
  }

  /** The TCP header with any value v in its checksum field: the checksummed words plus v in network order. */
  lemma TCPStoredWords(t: TCPHdr, v: u16)
    ensures WordSum(EncodeTCP(t.(cksum := v))) == TCPHeaderSum(t) + SwapBytesUint16(v)
  {
    var s := t.(cksum := v);
    TCPLayout(s);
    assert TCPHead(s) == TCPHead(t);
    TCPHeaderSumOfHead(t);
  }

  /** The words calculateTCPChecksum adds are those of the header with a zero checksum field. */
  lemma TCPHeaderSumCovers(t: TCPHdr)
    ensures TCPHeaderSum(t) == WordSum(EncodeTCP(t.(cksum := 0)))
  {
    var zero: u16 := 0;
    TCPStoredWords(t, zero);
  }

  /** The UDP header with any value v in its checksum field. */
  lemma UDPStoredWords(udp: UDPHdr, v: u16)
    ensures WordSum(EncodeUDP(udp.(dgramCksum := v))) == UDPHeaderSum(udp) + SwapBytesUint16(v)
  {
    UDPLayout(udp.(dgramCksum := v));
  }

  /** The words the UDP functions add for the header are those of the header with a zero checksum field. */
  lemma UDPHeaderSumCovers(udp: UDPHdr)
    ensures UDPHeaderSum(udp) == WordSum(EncodeUDP(udp.(dgramCksum := 0)))
  {
    var zero: u16 := 0;
    UDPStoredWords(udp, zero);
  }

  /** The ICMP header with any value v in its checksum field. */
  lemma ICMPStoredWords(icmp: ICMPHdr, v: u16)
    ensures WordSum(EncodeICMP(icmp.(cksum := v))) == ICMPHeaderSum(icmp) + SwapBytesUint16(v)
  {
    ICMPLayout(icmp.(cksum := v));
  }

  /** The words the ICMP functions add are those of the header with a zero checksum field. */
  lemma ICMPHeaderSumCovers(icmp: ICMPHdr)
    ensures ICMPHeaderSum(icmp) == WordSum(EncodeICMP(icmp.(cksum := 0)))
  {
    var zero: u16 := 0;
    ICMPStoredWords(icmp, zero);
  }

  // ---------------------------------------------------------------------------
  // Pseudo-headers.
  // ---------------------------------------------------------------------------

  lemma WordSumPseudoIPv4(h: IPv4Hdr, proto: u8, length: u16)
    ensures WordSum(PseudoHeaderIPv4(h, proto, length)) == IPv4AddrSum(h) + proto + length
  {
    var a := Bytes32(h.srcAddr) + Bytes32(h.dstAddr);
    IPv4AddrSumCovers(h);
    WordSumConcat(a + [0, proto], NetBytes16(length));
    WordSumConcat(a, [0, proto]);
    WordSumPair(0, proto);
    WordSumNet16(length);
  }

  lemma WordSumPseudoIPv6(h: IPv6Hdr, length: u16, nextHeader: u8)
    ensures WordSum(PseudoHeaderIPv6(h, length, nextHeader)) == IPv6AddrSum(h) + length + nextHeader
  {
    var a := h.srcAddr + h.dstAddr;
    WordSumConcat(a + [0, 0] + NetBytes16(length), [0, 0, 0, nextHeader]);
    WordSumConcat(a + [0, 0], NetBytes16(length));
    WordSumConcat(a, [0, 0]);
    WordSumPair(0, 0);
    WordSumNet16(length);
    IPv6AddrSumCovers(h);
    assert [0, 0, 0, nextHeader] == [0 as u8, 0] + [0, nextHeader];
    WordSumConcat([0, 0], [0, nextHeader]);
    WordSumPair(0, nextHeader);
  }

  /** The pseudo-header sums are the folded word sums of the RFC pseudo-headers, not complemented. */
  lemma PseudoHdrIPv4TCPCovers(h: IPv4Hdr)
    ensures PseudoHdrIPv4TCP(h) == Folded(WordSum(PseudoHeaderIPv4(h, h.nextProtoId, IPv4PayloadLength(h))))
  {
    WordSumPseudoIPv4(h, h.nextProtoId, IPv4PayloadLength(h));
  }

  lemma PseudoHdrIPv4UDPCovers(h: IPv4Hdr, udp: UDPHdr)
    ensures PseudoHdrIPv4UDP(h, udp) == Folded(WordSum(PseudoHeaderIPv4(h, h.nextProtoId, SwapBytesUint16(udp.dgramLen))))
  {
    WordSumPseudoIPv4(h, h.nextProtoId, SwapBytesUint16(udp.dgramLen));
  }

  lemma PseudoHdrIPv6TCPCovers(h: IPv6Hdr)
    ensures PseudoHdrIPv6TCP(h) == Folded(WordSum(PseudoHeaderIPv6(h, SwapBytesUint16(h.payloadLen), h.proto)))
  {
    WordSumPseudoIPv6(h, SwapBytesUint16(h.payloadLen), h.proto);
  }

  lemma PseudoHdrIPv6UDPCovers(h: IPv6Hdr, udp: UDPHdr)
    ensures PseudoHdrIPv6UDP(h, udp) == Folded(WordSum(PseudoHeaderIPv6(h, SwapBytesUint16(udp.dgramLen), h.proto)))
  {
    WordSumPseudoIPv6(h, SwapBytesUint16(udp.dgramLen), h.proto);
  }

  // ---------------------------------------------------------------------------
  // Transport checksums. With at most 0xFFFF payload bytes none of the uint32
  // sums wraps, so each is the plain word sum of pseudo-header, header and
  // payload.
  // ---------------------------------------------------------------------------

  lemma IPv4UDPSumValue(h: IPv4Hdr, udp: UDPHdr, data: seq<u8>)
    requires IPv4UDPDataLength(h) <= |data|
    ensures IPv4UDPSum(h, udp, data)
         == IPv4AddrSum(h) + h.nextProtoId + SwapBytesUint16(udp.dgramLen) + UDPHeaderSum(udp)
            + WordSum(data[..IPv4UDPDataLength(h)])
  {
    var n := IPv4UDPDataLength(h);
    DataSumNoWrap(data, n);
  }

  lemma IPv6UDPSumValue(h: IPv6Hdr, udp: UDPHdr, data: seq<u8>)
    requires IPv6UDPDataLength(h) <= |data|
    ensures IPv6UDPSum(h, udp, data)
         == IPv6AddrSum(h) + SwapBytesUint16(udp.dgramLen) + h.proto + UDPHeaderSum(udp)
            + WordSum(data[..IPv6UDPDataLength(h)])
  {
    var n := IPv6UDPDataLength(h);
    DataSumNoWrap(data, n);
  }

  lemma IPv4TCPSumValue(h: IPv4Hdr, tcp: TCPHdr, data: seq<u8>)
    requires IPv4TCPDataLength(h) <= |data|
    ensures IPv4TCPSum(h, tcp, data)
         == IPv4AddrSum(h) + h.nextProtoId + IPv4PayloadLength(h) + TCPHeaderSum(tcp)
            + WordSum(data[..IPv4TCPDataLength(h)])
  {
    var n := IPv4TCPDataLength(h);
    DataSumNoWrap(data, n);
  }

  lemma IPv6TCPSumValue(h: IPv6Hdr, tcp: TCPHdr, data: seq<u8>)
    requires IPv6TCPDataLength(h) <= |data|
    ensures IPv6TCPSum(h, tcp, data)
         == IPv6AddrSum(h) + SwapBytesUint16(h.payloadLen) + h.proto + TCPHeaderSum(tcp)
            + WordSum(data[..IPv6TCPDataLength(h)])
  {
    var n := IPv6TCPDataLength(h);
    DataSumNoWrap(data, n);
  }

  lemma IPv4ICMPSumValue(h: IPv4Hdr, icmp: ICMPHdr, data: seq<u8>)
    requires IPv4ICMPDataLength(h) <= |data|
    ensures IPv4ICMPSum(h, icmp, data) == ICMPHeaderSum(icmp) + WordSum(data[..IPv4ICMPDataLength(h)])
  {
    var n := IPv4ICMPDataLength(h);
    DataSumNoWrap(data, n);
  }

  lemma IPv6ICMPSumValue(h: IPv6Hdr, icmp: ICMPHdr, data: seq<u8>)
    requires IPv6ICMPDataLength(h) <= |data|
    ensures IPv6ICMPSum(h, icmp, data)
         == IPv6AddrSum(h) + SwapBytesUint16(h.payloadLen) + h.proto + ICMPHeaderSum(icmp)
            + WordSum(data[..IPv6ICMPDataLength(h)])
  {
    var n := IPv6ICMPDataLength(h);
    DataSumNoWrap(data, n);
  }

  /** The IPv4 UDP sum is the word sum of pseudo-header, header with zero checksum, and payload. */
  lemma IPv4UDPSumCovers(h: IPv4Hdr, udp: UDPHdr, data: seq<u8>)
    requires IPv4UDPDataLength(h) <= |data|
    ensures IPv4UDPSum(h, udp, data)
         == WordSum(PseudoHeaderIPv4(h, h.nextProtoId, SwapBytesUint16(udp.dgramLen))
                    + EncodeUDP(udp.(dgramCksum := 0)) + data[..IPv4UDPDataLength(h)])
  {
    var n := IPv4UDPDataLength(h);
    IPv4UDPSumValue(h, udp, data);
    WordSumPseudoIPv4(h, h.nextProtoId, SwapBytesUint16(udp.dgramLen));
    UDPHeaderSumCovers(udp);
    WordSumPieces(PseudoHeaderIPv4(h, h.nextProtoId, SwapBytesUint16(udp.dgramLen)),
                  EncodeUDP(udp.(dgramCksum := 0)), data[..n],
                  IPv4AddrSum(h) + h.nextProtoId + SwapBytesUint16(udp.dgramLen), UDPHeaderSum(udp), WordSum(data[..n]));
  }

  lemma IPv6UDPSumCovers(h: IPv6Hdr, udp: UDPHdr, data: seq<u8>)
    requires IPv6UDPDataLength(h) <= |data|
    ensures IPv6UDPSum(h, udp, data)
         == WordSum(PseudoHeaderIPv6(h, SwapBytesUint16(udp.dgramLen), h.proto)
                    + EncodeUDP(udp.(dgramCksum := 0)) + data[..IPv6UDPDataLength(h)])
  {
    var n := IPv6UDPDataLength(h);
    IPv6UDPSumValue(h, udp, data);
    WordSumPseudoIPv6(h, SwapBytesUint16(udp.dgramLen), h.proto);
    UDPHeaderSumCovers(udp);
    WordSumPieces(PseudoHeaderIPv6(h, SwapBytesUint16(udp.dgramLen), h.proto),
                  EncodeUDP(udp.(dgramCksum := 0)), data[..n],
                  IPv6AddrSum(h) + SwapBytesUint16(udp.dgramLen) + h.proto, UDPHeaderSum(udp), WordSum(data[..n]));
  }

  lemma IPv4TCPSumCovers(h: IPv4Hdr, tcp: TCPHdr, data: seq<u8>)
    requires IPv4TCPDataLength(h) <= |data|
    ensures IPv4TCPSum(h, tcp, data)
         == WordSum(PseudoHeaderIPv4(h, h.nextProtoId, IPv4PayloadLength(h))
                    + EncodeTCP(tcp.(cksum := 0)) + data[..IPv4TCPDataLength(h)])
  {
    var n := IPv4TCPDataLength(h);
    IPv4TCPSumValue(h, tcp, data);
    WordSumPseudoIPv4(h, h.nextProtoId, IPv4PayloadLength(h));
    TCPHeaderSumCovers(tcp);
    WordSumPieces(PseudoHeaderIPv4(h, h.nextProtoId, IPv4PayloadLength(h)),
                  EncodeTCP(tcp.(cksum := 0)), data[..n],
                  IPv4AddrSum(h) + h.nextProtoId + IPv4PayloadLength(h), TCPHeaderSum(tcp), WordSum(data[..n]));
  }

  lemma IPv6TCPSumCovers(h: IPv6Hdr, tcp: TCPHdr, data: seq<u8>)
    requires IPv6TCPDataLength(h) <= |data|
    ensures IPv6TCPSum(h, tcp, data)
         == WordSum(PseudoHeaderIPv6(h, SwapBytesUint16(h.payloadLen), h.proto)
                    + EncodeTCP(tcp.(cksum := 0)) + data[..IPv6TCPDataLength(h)])
  {
    var n := IPv6TCPDataLength(h);
    IPv6TCPSumValue(h, tcp, data);
    WordSumPseudoIPv6(h, SwapBytesUint16(h.payloadLen), h.proto);
    TCPHeaderSumCovers(tcp);
    WordSumPieces(PseudoHeaderIPv6(h, SwapBytesUint16(h.payloadLen), h.proto),
                  EncodeTCP(tcp.(cksum := 0)), data[..n],
                  IPv6AddrSum(h) + SwapBytesUint16(h.payloadLen) + h.proto, TCPHeaderSum(tcp), WordSum(data[..n]));
  }

  lemma IPv4ICMPSumCovers(h: IPv4Hdr, icmp: ICMPHdr, data: seq<u8>)
    requires IPv4ICMPDataLength(h) <= |data|
    ensures IPv4ICMPSum(h, icmp, data) == WordSum(EncodeICMP(icmp.(cksum := 0)) + data[..IPv4ICMPDataLength(h)])
  {
    var n := IPv4ICMPDataLength(h);
    IPv4ICMPSumValue(h, icmp, data);
    ICMPHeaderSumCovers(icmp);
    WordSumConcat(EncodeICMP(icmp.(cksum := 0)), data[..n]);
  }

  lemma IPv6ICMPSumCovers(h: IPv6Hdr, icmp: ICMPHdr, data: seq<u8>)
    requires IPv6ICMPDataLength(h) <= |data|
    ensures IPv6ICMPSum(h, icmp, data)
         == WordSum(PseudoHeaderIPv6(h, SwapBytesUint16(h.payloadLen), h.proto)
                    + EncodeICMP(icmp.(cksum := 0)) + data[..IPv6ICMPDataLength(h)])
  {
    var n := IPv6ICMPDataLength(h);
    IPv6ICMPSumValue(h, icmp, data);
    WordSumPseudoIPv6(h, SwapBytesUint16(h.payloadLen), h.proto);
    ICMPHeaderSumCovers(icmp);
    WordSumPieces(PseudoHeaderIPv6(h, SwapBytesUint16(h.payloadLen), h.proto),
                  EncodeICMP(icmp.(cksum := 0)), data[..n],
                  IPv6AddrSum(h) + SwapBytesUint16(h.payloadLen) + h.proto, ICMPHeaderSum(icmp), WordSum(data[..n]));
  }

  /** IPv4 UDP: the checksum of pseudo-header, UDP header with zero checksum, and payload; 0 is sent as 0xFFFF. */
  lemma IPv4UDPChecksumCovers(h: IPv4Hdr, udp: UDPHdr, data: seq<u8>)
    requires IPv4UDPDataLength(h) <= |data|
    ensures CalculateIPv4UDPChecksum(h, udp, data)
         == UDPZeroRule(Internet(PseudoHeaderIPv4(h, h.nextProtoId, SwapBytesUint16(udp.dgramLen))
                                 + EncodeUDP(udp.(dgramCksum := 0)) + data[..IPv4UDPDataLength(h)]))
  {
    IPv4UDPSumCovers(h, udp, data);
  }

  /** IPv6 UDP: the same with the IPv6 pseudo-header (length DgramLen, next header Proto). */
  lemma IPv6UDPChecksumCovers(h: IPv6Hdr, udp: UDPHdr, data: seq<u8>)
    requires IPv6UDPDataLength(h) <= |data|
    ensures CalculateIPv6UDPChecksum(h, udp, data)
         == UDPZeroRule(Internet(PseudoHeaderIPv6(h, SwapBytesUint16(udp.dgramLen), h.proto)
                                 + EncodeUDP(udp.(dgramCksum := 0)) + data[..IPv6UDPDataLength(h)]))
  {
    IPv6UDPSumCovers(h, udp, data);
  }

  /** IPv4 TCP: the plain complement (no zero rule) over pseudo-header (length TotalLength - 20), header and payload. */
  lemma IPv4TCPChecksumCovers(h: IPv4Hdr, tcp: TCPHdr, data: seq<u8>)
    requires IPv4TCPDataLength(h) <= |data|
    ensures CalculateIPv4TCPChecksum(h, tcp, data)
         == Internet(PseudoHeaderIPv4(h, h.nextProtoId, IPv4PayloadLength(h))
                     + EncodeTCP(tcp.(cksum := 0)) + data[..IPv4TCPDataLength(h)])
  {
    IPv4TCPSumCovers(h, tcp, data);
  }

  /** IPv6 TCP: the plain complement over the IPv6 pseudo-header (length PayloadLen), header and payload. */
  lemma IPv6TCPChecksumCovers(h: IPv6Hdr, tcp: TCPHdr, data: seq<u8>)
    requires IPv6TCPDataLength(h) <= |data|
    ensures CalculateIPv6TCPChecksum(h, tcp, data)
         == Internet(PseudoHeaderIPv6(h, SwapBytesUint16(h.payloadLen), h.proto)
                     + EncodeTCP(tcp.(cksum := 0)) + data[..IPv6TCPDataLength(h)])
  {
    IPv6TCPSumCovers(h, tcp, data);
  }

  /** ICMPv4: header (checksum zero) and TotalLength - 28 payload bytes, no pseudo-header. */
  lemma IPv4ICMPChecksumCovers(h: IPv4Hdr, icmp: ICMPHdr, data: seq<u8>)
    requires IPv4ICMPDataLength(h) <= |data|
    ensures CalculateIPv4ICMPChecksum(h, icmp, data)
         == Internet(EncodeICMP(icmp.(cksum := 0)) + data[..IPv4ICMPDataLength(h)])
  {
    IPv4ICMPSumCovers(h, icmp, data);
  }

  /** ICMPv6 (section 2.3 of RFC 4443): pseudo-header with PayloadLen and Proto, header and payload. */
  lemma IPv6ICMPChecksumCovers(h: IPv6Hdr, icmp: ICMPHdr, data: seq<u8>)
    requires IPv6ICMPDataLength(h) <= |data|
    ensures CalculateIPv6ICMPChecksum(h, icmp, data)
         == Internet(PseudoHeaderIPv6(h, SwapBytesUint16(h.payloadLen), h.proto)
                     + EncodeICMP(icmp.(cksum := 0)) + data[..IPv6ICMPDataLength(h)])
  {
    IPv6ICMPSumCovers(h, icmp, data);
  }

  // ---------------------------------------------------------------------------
  // Receivers and offload.
  // ---------------------------------------------------------------------------

  /** A sum whose leading part was folded in advance checksums like the unfolded sum. */
  lemma OffloadLaw(seeded: nat, full: nat, pseudo: nat, rest: nat)
    requires seeded == Folded(pseudo) + rest && full == pseudo + rest
    ensures Complement(Folded(seeded)) == Complement(Folded(full))
  {
    FoldedAbsorbs(pseudo, rest);
  }

  /** The verification law for a checksum stored byte-swapped, as the header structs hold it. */
  lemma StoredChecksumVerifies(sum: nat, c: u16, words: nat)
    requires c == Complement(Folded(sum)) && words == sum + SwapBytesUint16(SwapBytesUint16(c))
    ensures Complement(Folded(words)) == 0
  {
    SwapBytesUint16Involution(c);
    VerificationLaw(sum);
  }

  /** The verification law with the UDP rule that sends a zero checksum as 0xFFFF. */
  lemma ZeroRuleVerifies(sum: nat, received: nat)
    requires received == sum + UDPZeroRule(Complement(Folded(sum)))
    ensures Complement(Folded(received)) == 0
  {
    VerificationLaw(sum);
    if Complement(Folded(sum)) == 0 {
      // Then sum is not zero, and adding 0xFFFF keeps its residue.
      FoldedDetermined(sum + 0xFFFF, sum);
    }
  }

  /** The datagram's words with any value v stored in the UDP checksum field. */
  lemma IPv4UDPSeededWords(h: IPv4Hdr, udp: UDPHdr, data: seq<u8>, v: u16)
    requires IPv4UDPDataLength(h) <= |data|
    ensures WordSum(PseudoHeaderIPv4(h, h.nextProtoId, SwapBytesUint16(udp.dgramLen))
                    + EncodeUDP(udp.(dgramCksum := v)) + data[..IPv4UDPDataLength(h)])
         == IPv4UDPSum(h, udp, data) + SwapBytesUint16(v)
  {
    var n := IPv4UDPDataLength(h);
    IPv4UDPSumValue(h, udp, data);
    WordSumPseudoIPv4(h, h.nextProtoId, SwapBytesUint16(udp.dgramLen));
    UDPStoredWords(udp, v);
    WordSumPieces(PseudoHeaderIPv4(h, h.nextProtoId, SwapBytesUint16(udp.dgramLen)),
                  EncodeUDP(udp.(dgramCksum := v)), data[..n],
                  IPv4AddrSum(h) + h.nextProtoId + SwapBytesUint16(udp.dgramLen),
                  UDPHeaderSum(udp) + SwapBytesUint16(v), WordSum(data[..n]));
  }

  /** A stored IPv4 UDP checksum, zero rule included, makes the datagram verify. */
  lemma IPv4UDPChecksumVerifies(h: IPv4Hdr, udp: UDPHdr, data: seq<u8>)
    requires IPv4UDPDataLength(h) <= |data|
    ensures var c := CalculateIPv4UDPChecksum(h, udp, data);
      var pseudo := PseudoHeaderIPv4(h, h.nextProtoId, SwapBytesUint16(udp.dgramLen));
      Internet(pseudo + EncodeUDP(udp.(dgramCksum := SwapBytesUint16(c))) + data[..IPv4UDPDataLength(h)]) == 0
  {
    var c := CalculateIPv4UDPChecksum(h, udp, data);
    var pseudo := PseudoHeaderIPv4(h, h.nextProtoId, SwapBytesUint16(udp.dgramLen));
    IPv4UDPSeededWords(h, udp, data, SwapBytesUint16(c));
    SwapBytesUint16Involution(c);
    ZeroRuleVerifies(IPv4UDPSum(h, udp, data),
                     WordSum(pseudo + EncodeUDP(udp.(dgramCksum := SwapBytesUint16(c))) + data[..IPv4UDPDataLength(h)]));
  }

  /** The same for IPv6 UDP. */
  lemma IPv6UDPSeededWords(h: IPv6Hdr, udp: UDPHdr, data: seq<u8>, v: u16)
    requires IPv6UDPDataLength(h) <= |data|
    ensures WordSum(PseudoHeaderIPv6(h, SwapBytesUint16(udp.dgramLen), h.proto)
                    + EncodeUDP(udp.(dgramCksum := v)) + data[..IPv6UDPDataLength(h)])
         == IPv6UDPSum(h, udp, data) + SwapBytesUint16(v)
  {
    var n := IPv6UDPDataLength(h);
    IPv6UDPSumValue(h, udp, data);
    WordSumPseudoIPv6(h, SwapBytesUint16(udp.dgramLen), h.proto);
    UDPStoredWords(udp, v);
    WordSumPieces(PseudoHeaderIPv6(h, SwapBytesUint16(udp.dgramLen), h.proto),
                  EncodeUDP(udp.(dgramCksum := v)), data[..n],
                  IPv6AddrSum(h) + SwapBytesUint16(udp.dgramLen) + h.proto,
                  UDPHeaderSum(udp) + SwapBytesUint16(v), WordSum(data[..n]));
  }

  lemma IPv6UDPChecksumVerifies(h: IPv6Hdr, udp: UDPHdr, data: seq<u8>)
    requires IPv6UDPDataLength(h) <= |data|
    ensures var c := CalculateIPv6UDPChecksum(h, udp, data);
      var pseudo := PseudoHeaderIPv6(h, SwapBytesUint16(udp.dgramLen), h.proto);
      Internet(pseudo + EncodeUDP(udp.(dgramCksum := SwapBytesUint16(c))) + data[..IPv6UDPDataLength(h)]) == 0
  {
    var c := CalculateIPv6UDPChecksum(h, udp, data);
    var pseudo := PseudoHeaderIPv6(h, SwapBytesUint16(udp.dgramLen), h.proto);
    IPv6UDPSeededWords(h, udp, data, SwapBytesUint16(c));
    SwapBytesUint16Involution(c);
    ZeroRuleVerifies(IPv6UDPSum(h, udp, data),
                     WordSum(pseudo + EncodeUDP(udp.(dgramCksum := SwapBytesUint16(c))) + data[..IPv6UDPDataLength(h)]));
  }

  /** The ICMP message's words with any value v stored in its checksum field. */
  lemma IPv4ICMPSeededWords(h: IPv4Hdr, icmp: ICMPHdr, data: seq<u8>, v: u16)
    requires IPv4ICMPDataLength(h) <= |data|
    ensures WordSum(EncodeICMP(icmp.(cksum := v)) + data[..IPv4ICMPDataLength(h)])
         == IPv4ICMPSum(h, icmp, data) + SwapBytesUint16(v)
  {
    var n := IPv4ICMPDataLength(h);
    IPv4ICMPSumValue(h, icmp, data);
    ICMPStoredWords(icmp, v);
    WordSumConcat(EncodeICMP(icmp.(cksum := v)), data[..n]);
  }

  /** A stored ICMP checksum makes the message (header and payload) verify. */
  lemma IPv4ICMPChecksumVerifies(h: IPv4Hdr, icmp: ICMPHdr, data: seq<u8>)
    requires IPv4ICMPDataLength(h) <= |data|
    ensures var c := CalculateIPv4ICMPChecksum(h, icmp, data);
      Internet(EncodeICMP(icmp.(cksum := SwapBytesUint16(c))) + data[..IPv4ICMPDataLength(h)]) == 0
  {
    var c := CalculateIPv4ICMPChecksum(h, icmp, data);
    IPv4ICMPSeededWords(h, icmp, data, SwapBytesUint16(c));
    StoredChecksumVerifies(IPv4ICMPSum(h, icmp, data), c,
                           WordSum(EncodeICMP(icmp.(cksum := SwapBytesUint16(c))) + data[..IPv4ICMPDataLength(h)]));
  }

  /** The TCP segment's words with any value v stored in its checksum field. */
  lemma TCPSegmentWords(tcp: TCPHdr, v: u16, payload: seq<u8>)
    ensures WordSum(EncodeTCP(tcp.(cksum := v)) + payload)
         == TCPHeaderSum(tcp) + SwapBytesUint16(v) + WordSum(payload)
  {
    TCPStoredWords(tcp, v);
    WordSumConcat(EncodeTCP(tcp.(cksum := v)), payload);
  }

  /**
   * Checksum offload: when the pseudo-header sum is stored in the TCP checksum
   * field, the Internet checksum of the segment alone (what the NIC computes)
   * equals the full software checksum.
   */
  lemma IPv4TCPOffloadAgrees(h: IPv4Hdr, tcp: TCPHdr, data: seq<u8>)
    requires IPv4TCPDataLength(h) <= |data|
    ensures var seeded := tcp.(cksum := SwapBytesUint16(PseudoHdrIPv4TCP(h)));
      Internet(EncodeTCP(seeded) + data[..IPv4TCPDataLength(h)]) == CalculateIPv4TCPChecksum(h, tcp, data)
  {
    var n := IPv4TCPDataLength(h);
    var p := PseudoHdrIPv4TCP(h);
    var pseudo := IPv4AddrSum(h) + h.nextProtoId + IPv4PayloadLength(h);
    assert p == Folded(pseudo);
    IPv4TCPSumValue(h, tcp, data);
    TCPSegmentWords(tcp, SwapBytesUint16(p), data[..n]);
    SwapBytesUint16Involution(p);
    var rest := TCPHeaderSum(tcp) + WordSum(data[..n]);
    var seeded := WordSum(EncodeTCP(tcp.(cksum := SwapBytesUint16(p))) + data[..n]);
    assert seeded == Folded(pseudo) + rest;
    assert IPv4TCPSum(h, tcp, data) == pseudo + rest;
    OffloadLaw(seeded, IPv4TCPSum(h, tcp, data), pseudo, rest);
  }

  /** The same offload agreement for TCP over IPv6. */
  lemma IPv6TCPOffloadAgrees(h: IPv6Hdr, tcp: TCPHdr, data: seq<u8>)
    requires IPv6TCPDataLength(h) <= |data|
    ensures var seeded := tcp.(cksum := SwapBytesUint16(PseudoHdrIPv6TCP(h)));
      Internet(EncodeTCP(seeded) + data[..IPv6TCPDataLength(h)]) == CalculateIPv6TCPChecksum(h, tcp, data)
  {
    var n := IPv6TCPDataLength(h);
    var p := PseudoHdrIPv6TCP(h);
    var pseudo := IPv6AddrSum(h) + SwapBytesUint16(h.payloadLen) + h.proto;
    assert p == Folded(pseudo);
    IPv6TCPSumValue(h, tcp, data);
    TCPSegmentWords(tcp, SwapBytesUint16(p), data[..n]);
    SwapBytesUint16Involution(p);
    var rest := TCPHeaderSum(tcp) + WordSum(data[..n]);
    var seeded := WordSum(EncodeTCP(tcp.(cksum := SwapBytesUint16(p))) + data[..n]);
    assert seeded == Folded(pseudo) + rest;
    assert IPv6TCPSum(h, tcp, data) == pseudo + rest;
    OffloadLaw(seeded, IPv6TCPSum(h, tcp, data), pseudo, rest);
  }
}
