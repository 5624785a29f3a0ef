/**
 * RFC 1071 word sums over byte ranges (calculateDataChecksum of
 * packet/checksum.go) and the word layout of the header records: how the
 * bytes of each header, and of the TCP/UDP pseudo-headers, split into
 * big-endian 16-bit words.
 */
module WordSums {
  import opened Types
  import opened PacketHeaders

  /**
   * The RFC 1071 sum of a byte range read as big-endian 16-bit words; an odd
   * final byte is the high byte of a zero-padded word (section 4.1 of RFC 1071).
   */
  function WordSum(b: seq<u8>): nat
    decreases |b|
  {
    if |b| == 0 then 0
    else if |b| == 1 then 0x100 * b[0]
    else BE16(b[0], b[1]) + WordSum(b[2..])
  }

  lemma {:induction false} WordSumConcat(a: seq<u8>, b: seq<u8>)
    requires |a| % 2 == 0
    ensures WordSum(a + b) == WordSum(a) + WordSum(b)
  {
    if |a| == 0 {
      assert a + b == b;
    } else {
      assert (a + b)[2..] == a[2..] + b;
      WordSumConcat(a[2..], b);
    }
  }

  lemma {:induction false} WordSumBound(b: seq<u8>)
    ensures WordSum(b) <= 0xFFFF * ((|b| + 1) / 2)
  {
    if |b| >= 2 {
      WordSumBound(b[2..]);
    }
  }

  /** A stored host-order 16-bit field contributes its network-order value. */
  lemma WordSumBytes16(v: u16)
    ensures WordSum(Bytes16(v)) == SwapBytesUint16(v)
  {
    assert Bytes16(v)[2..] == [];
  }

  /** A stored host-order 32-bit field contributes its two network-order halves. */
  lemma WordSumBytes32(v: u32)
    ensures WordSum(Bytes32(v)) == SwapBytesUint16(Hi16(v)) + SwapBytesUint16(Lo16(v))
  {
    WordSumConcat(Bytes16(Lo16(v)), Bytes16(Hi16(v)));
    WordSumBytes16(Lo16(v));
    WordSumBytes16(Hi16(v));
  }

  lemma WordSumPair(x: u8, y: u8)
    ensures WordSum([x, y]) == BE16(x, y)
  {
    assert [x, y][2..] == [];
  }

  /** The value calculateDataChecksum returns: the word sum of the first length bytes, in uint32. */
  function DataSum(data: seq<u8>, length: nat): u32
    requires length <= |data|
  {
    ToU32(WordSum(data[..length]))
  }

  /** Payloads of at most 0xFFFF bytes never wrap the uint32 accumulator. */
  lemma DataSumNoWrap(data: seq<u8>, length: nat)
    requires length <= |data| && length <= 0xFFFF
    ensures DataSum(data, length) == WordSum(data[..length]) <= 0xFFFF * 0x8000
  {
    WordSumBound(data[..length]);
  }

  /** The uint32 accumulator may be reduced at any point. */
  lemma ToU32Add(x: nat, y: nat)
    ensures ToU32(ToU32(x) + y) == ToU32(x + y)
  {
    var m := 0x1_0000_0000;
    assert x == m * (x / m) + ToU32(x);
    var q := (ToU32(x) + y) / m;
    assert x + y == m * (x / m + q) + ToU32(ToU32(x) + y);
  }

  /** Adding in uint32 to a wrapped total wraps the sum. */
  lemma AddToWrapped(total: nat, sum: u32, w: u32)
    requires sum == ToU32(total)
    ensures AddU32(sum, w) == ToU32(total + w)
  {
    AddU32Wraps(sum, w);
    ToU32Add(total, w);
  }

  /** One more word of the prefix, added in uint32. */
  lemma DataSumWord(data: seq<u8>, i: nat, sum: u32)
    requires 2 * i + 2 <= |data| && sum == ToU32(WordSum(data[..2 * i]))
    ensures AddU32(sum, SwapBytesUint16(LE16(data[2 * i], data[2 * i + 1]))) == ToU32(WordSum(data[..2 * i + 2]))
  {
    WordSumPrefixWord(data, 2 * i);
    AddToWrapped(WordSum(data[..2 * i]), sum, SwapBytesUint16(LE16(data[2 * i], data[2 * i + 1])));
  }

  /** One more word of the prefix. */
  lemma WordSumPrefixWord(data: seq<u8>, k: nat)
    requires k % 2 == 0 && k + 2 <= |data|
    ensures WordSum(data[..k + 2]) == WordSum(data[..k]) + SwapBytesUint16(LE16(data[k], data[k + 1]))
  {
    assert data[..k + 2] == data[..k] + [data[k], data[k + 1]];
    WordSumConcat(data[..k], [data[k], data[k + 1]]);
    WordSumPair(data[k], data[k + 1]);
    SwapOfLoadIsBigEndian(data[k], data[k + 1]);
  }

  /** An odd final byte is the high byte of a padded word, added in uint32. */
  lemma DataSumByte(data: seq<u8>, i: nat, sum: u32)
    requires 2 * i + 1 <= |data| && sum == ToU32(WordSum(data[..2 * i]))
    ensures AddU32(sum, (data[2 * i] as nat) * 0x100) == ToU32(WordSum(data[..2 * i + 1]))
  {
    WordSumPrefixByte(data, 2 * i);
    AddToWrapped(WordSum(data[..2 * i]), sum, (data[2 * i] as nat) * 0x100);
  }

  /** An odd final byte is the high byte of a padded word. */
  lemma WordSumPrefixByte(data: seq<u8>, k: nat)
    requires k % 2 == 0 && k + 1 <= |data|
    ensures WordSum(data[..k + 1]) == WordSum(data[..k]) + (data[k] as nat) * 0x100
  {
    assert data[..k + 1] == data[..k] + [data[k]];
    WordSumConcat(data[..k], [data[k]]);
  }

  /**
   * calculateDataChecksum (packet/checksum.go:64-78): length/2 host-order word
   * loads, each byte-swapped and added in uint32, then an odd final byte added
   * shifted left by 8. Every caller passes offset 0, so the offset is dropped.
   */
  method DataChecksum(data: seq<u8>, length: nat) returns (sum: u32)
    requires length <= |data|
    ensures sum == DataSum(data, length)
  {
    sum := 0;
    var i := 0;
    while i < length / 2
      invariant 0 <= i <= length / 2
      invariant sum == ToU32(WordSum(data[..2 * i]))
    {
      DataSumWord(data, i, sum);
      sum := AddU32(sum, SwapBytesUint16(LE16(data[2 * i], data[2 * i + 1])));
      i := i + 1;
    }
    if length % 2 != 0 {
      assert length == 2 * i + 1;
      DataSumByte(data, i, sum);
      sum := AddU32(sum, (data[length - 1] as nat) * 0x100);
    } else {
      assert length == 2 * i;
    }
  }

  /** The bytes of a 20-byte IPv4 header before and after its checksum field. */
  function IPv4Head(h: IPv4Hdr): (b: seq<u8>)
    ensures |b| == 10
  {
    [h.versionIhl, h.typeOfService] + Bytes16(h.totalLength) + Bytes16(h.packetId)
    + Bytes16(h.fragmentOffset) + [h.timeToLive, h.nextProtoId]
  }

  function IPv4Tail(h: IPv4Hdr): (b: seq<u8>)
    ensures |b| == 8
  {
    Bytes32(h.srcAddr) + Bytes32(h.dstAddr)
  }

  lemma {:induction false} IPv4Layout(h: IPv4Hdr)
    ensures EncodeIPv4(h) == IPv4Head(h) + Bytes16(h.hdrChecksum) + IPv4Tail(h)
    ensures WordSum(EncodeIPv4(h)) == WordSum(IPv4Head(h)) + SwapBytesUint16(h.hdrChecksum) + WordSum(IPv4Tail(h))
  {
    WordSumConcat(IPv4Head(h) + Bytes16(h.hdrChecksum), IPv4Tail(h));
    WordSumConcat(IPv4Head(h), Bytes16(h.hdrChecksum));
    WordSumBytes16(h.hdrChecksum);
  }

  lemma {:induction false} IPv4HeadWords(h: IPv4Hdr)
    ensures WordSum(IPv4Head(h))
         == 0x100 * h.versionIhl + h.typeOfService
            + SwapBytesUint16(h.totalLength) + SwapBytesUint16(h.packetId) + SwapBytesUint16(h.fragmentOffset)
            + 0x100 * h.timeToLive + h.nextProtoId
  {
    var a := [h.versionIhl, h.typeOfService];
    var b := Bytes16(h.totalLength);
    var c := Bytes16(h.packetId);
    var d := Bytes16(h.fragmentOffset);
    var e := [h.timeToLive, h.nextProtoId];
    WordSumConcat(a + b + c + d, e);
    WordSumConcat(a + b + c, d);
    WordSumConcat(a + b, c);
    WordSumConcat(a, b);
    WordSumPair(h.versionIhl, h.typeOfService);
    WordSumPair(h.timeToLive, h.nextProtoId);
    WordSumBytes16(h.totalLength);
    WordSumBytes16(h.packetId);
    WordSumBytes16(h.fragmentOffset);
  }

  lemma WordSumAt(a: seq<u8>, i: nat)
    requires i + 2 <= |a|
    ensures WordSum(a[i..]) == BE16(a[i], a[i + 1]) + WordSum(a[i + 2..])
  {
    assert a[i..][2..] == a[i + 2..];
  }

  /** The 16 bytes of a TCP header before its checksum field. */
  function TCPHead(t: TCPHdr): (b: seq<u8>)
    ensures |b| == 16
  {
    Bytes16(t.srcPort) + Bytes16(t.dstPort) + Bytes32(t.sentSeq) + Bytes32(t.recvAck)
    + [t.dataOff, t.tcpFlags] + Bytes16(t.rxWin)
  }

  lemma {:induction false} TCPLayout(t: TCPHdr)
    ensures EncodeTCP(t) == TCPHead(t) + Bytes16(t.cksum) + Bytes16(t.tcpUrp)
    ensures WordSum(EncodeTCP(t)) == WordSum(TCPHead(t)) + SwapBytesUint16(t.cksum) + SwapBytesUint16(t.tcpUrp)
  {
    WordSumConcat(TCPHead(t) + Bytes16(t.cksum), Bytes16(t.tcpUrp));
    WordSumConcat(TCPHead(t), Bytes16(t.cksum));
    WordSumBytes16(t.cksum);
    WordSumBytes16(t.tcpUrp);
  }

  lemma {:induction false} TCPHeadWords(t: TCPHdr)
    ensures WordSum(TCPHead(t))
         == SwapBytesUint16(t.srcPort) + SwapBytesUint16(t.dstPort)
            + SwapBytesUint16(Hi16(t.sentSeq)) + SwapBytesUint16(Lo16(t.sentSeq))
            + SwapBytesUint16(Hi16(t.recvAck)) + SwapBytesUint16(Lo16(t.recvAck))
            + 0x100 * t.dataOff + t.tcpFlags + SwapBytesUint16(t.rxWin)
  {
    var a := Bytes16(t.srcPort);
    var b := Bytes16(t.dstPort);
    var c := Bytes32(t.sentSeq);
    var d := Bytes32(t.recvAck);
    var e := [t.dataOff, t.tcpFlags];
    var f := Bytes16(t.rxWin);
    WordSumConcat(a + b + c + d + e, f);
    WordSumConcat(a + b + c + d, e);
    WordSumConcat(a + b + c, d);
    WordSumConcat(a + b, c);
    WordSumConcat(a, b);
    WordSumBytes16(t.srcPort);
    WordSumBytes16(t.dstPort);
    WordSumBytes16(t.rxWin);
    WordSumPair(t.dataOff, t.tcpFlags);
    WordSumBytes32(t.sentSeq);
    WordSumBytes32(t.recvAck);
  }

  /** The 16-bit value v in network order. */
  function NetBytes16(v: u16): (b: seq<u8>)
    ensures |b| == 2 && BE16(b[0], b[1]) == v
  {
    [v / 0x100, v % 0x100]
  }

  lemma WordSumNet16(v: u16)
    ensures WordSum(NetBytes16(v)) == v
  {
    WordSumPair(v / 0x100, v % 0x100);
  }

  /** The IPv4 pseudo-header of section 3.1 of RFC 793 and of RFC 768: addresses, zero, protocol, length. */
  function PseudoHeaderIPv4(h: IPv4Hdr, proto: u8, length: u16): (b: seq<u8>)
    ensures |b| == 12
  {
    Bytes32(h.srcAddr) + Bytes32(h.dstAddr) + [0, proto] + NetBytes16(length)
  }

  /**
   * The IPv6 pseudo-header of section 8.1 of RFC 8200: addresses, a 32-bit
   * upper-layer length, three zero bytes and the next-header value.
   */
  function PseudoHeaderIPv6(h: IPv6Hdr, length: u16, nextHeader: u8): (b: seq<u8>)
    ensures |b| == 40
  {
    h.srcAddr + h.dstAddr + [0, 0] + NetBytes16(length) + [0, 0, 0, nextHeader]
  }

  lemma {:induction false} ICMPLayout(icmp: ICMPHdr)
    ensures WordSum(EncodeICMP(icmp))
         == BE16(icmp.icmpType, icmp.code) + SwapBytesUint16(icmp.cksum)
            + SwapBytesUint16(icmp.identifier) + SwapBytesUint16(icmp.seqNum)
  {
    var a := [icmp.icmpType, icmp.code];
    WordSumConcat(a + Bytes16(icmp.cksum) + Bytes16(icmp.identifier), Bytes16(icmp.seqNum));
    WordSumConcat(a + Bytes16(icmp.cksum), Bytes16(icmp.identifier));
    WordSumConcat(a, Bytes16(icmp.cksum));
    WordSumPair(icmp.icmpType, icmp.code);
    WordSumBytes16(icmp.cksum);
    WordSumBytes16(icmp.identifier);
    WordSumBytes16(icmp.seqNum);
  }

  lemma {:induction false} UDPLayout(udp: UDPHdr)
    ensures WordSum(EncodeUDP(udp))
         == SwapBytesUint16(udp.srcPort) + SwapBytesUint16(udp.dstPort)
            + SwapBytesUint16(udp.dgramLen) + SwapBytesUint16(udp.dgramCksum)
  {
    var a, b, c, d := Bytes16(udp.srcPort), Bytes16(udp.dstPort), Bytes16(udp.dgramLen), Bytes16(udp.dgramCksum);
    WordSumConcat(a + b + c, d);
    WordSumConcat(a + b, c);
    WordSumConcat(a, b);
    WordSumBytes16(udp.srcPort);
    WordSumBytes16(udp.dstPort);
    WordSumBytes16(udp.dgramLen);
    WordSumBytes16(udp.dgramCksum);
  }

  lemma WordSum3(a: seq<u8>, b: seq<u8>, c: seq<u8>)
    requires |a| % 2 == 0 && |b| % 2 == 0
    ensures WordSum(a + b + c) == WordSum(a) + WordSum(b) + WordSum(c)
  {
    WordSumConcat(a + b, c);
    WordSumConcat(a, b);
  }

  /** Three pieces with known sums, laid end to end. */
  lemma WordSumPieces(a: seq<u8>, b: seq<u8>, c: seq<u8>, x: nat, y: nat, z: nat)
    requires |a| % 2 == 0 && |b| % 2 == 0
    requires WordSum(a) == x && WordSum(b) == y && WordSum(c) == z
    ensures WordSum(a + b + c) == x + y + z
  {
    WordSum3(a, b, c);
  }
}
