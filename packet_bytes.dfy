/**
 * The frame bytes as the in-place editors of packet/packet.go leave them:
 * Go's stores of header fields on a little-endian host, and the two byte
 * shifts (towards the start and towards the end) that Encapsulate* and
 * Decapsulate* perform with their copy loops.
 */
module PacketBytes {
  import opened Types
  import opened PacketHeaders

  /** A 16-bit field store: the low byte goes first. */
  function Put16(b: seq<u8>, i: nat, v: u16): (r: seq<u8>)
    requires i + 2 <= |b|
    ensures |r| == |b|
  {
    b[i := v % 0x100][i + 1 := v / 0x100]
  }

  /** A 32-bit field store, least significant byte first. */
  function Put32(b: seq<u8>, i: nat, v: u32): (r: seq<u8>)
    requires i + 4 <= |b|
    ensures |r| == |b|
  {
    Put16(Put16(b, i, v % 0x1_0000), i + 2, v / 0x1_0000)
  }

  /** A uint16 stored after SwapBytesUint16 lands in network order: high byte first. */
  lemma SwappedStore(v: u16)
    ensures SwapBytesUint16(v) % 0x100 == v / 0x100 && SwapBytesUint16(v) / 0x100 == v % 0x100
  {
    PairDigits(v % 0x100, v / 0x100);
  }

  /** packet.Ether.EtherType = SwapBytesUint16(et): the EtherType of the header at ether. */
  function EtherTyped(b: seq<u8>, ether: nat, et: u16): (r: seq<u8>)
    requires ether + EtherLen <= |b|
    ensures |r| == |b|
  {
    Put16(b, ether + 12, SwapBytesUint16(et))
  }

  /** fillIPv4Default: VersionIhl, TotalLength, NextProtoID and TimeToLive, in that order. */
  function IPv4Defaults(b: seq<u8>, l3: nat, totalLen: u16, proto: u8): (r: seq<u8>)
    requires l3 + IPv4MinLen <= |b|
    ensures |r| == |b|
  {
    Put16(b[l3 := IPv4VersionIhl], l3 + 2, SwapBytesUint16(totalLen))[l3 + 9 := proto][l3 + 8 := 64]
  }

  /** fillIPv6Default: PayloadLen, VtcFlow (a host uint32), Proto and HopLimits, in that order. */
  function IPv6Defaults(b: seq<u8>, l3: nat, payloadLen: u16, proto: u8): (r: seq<u8>)
    requires l3 + IPv6Len <= |b|
    ensures |r| == |b|
  {
    Put32(Put16(b, l3 + 4, SwapBytesUint16(payloadLen)), l3, IPv6VtcFlow)[l3 + 6 := proto][l3 + 7 := 255]
  }

  /** HdrChecksum = 0 when the checksum is left to the NIC; nothing otherwise. */
  function ChecksumCleared(b: seq<u8>, l3: nat, hwTxChecksum: bool): (r: seq<u8>)
    requires l3 + IPv4MinLen <= |b|
    ensures |r| == |b|
  {
    if hwTxChecksum then Put16(b, l3 + 10, 0) else b
  }

  /** A 16-bit store writes its two bytes, low byte first, and nothing else. */
  lemma Put16Reads(b: seq<u8>, i: nat, v: u16)
    requires i + 2 <= |b|
    ensures var r := Put16(b, i, v);
      LE16(r[i], r[i + 1]) == v
      && forall k | 0 <= k < |b| && k != i && k != i + 1 :: r[k] == b[k]
  {
  }

  /** The EtherType written reads back, in network order, as et; nothing else changes. */
  lemma EtherTypedReads(b: seq<u8>, ether: nat, et: u16)
    requires ether + EtherLen <= |b|
    ensures var r := EtherTyped(b, ether, et);
      BE16(r[ether + 12], r[ether + 13]) == et
      && forall k | 0 <= k < |b| && k != ether + 12 && k != ether + 13 :: r[k] == b[k]
  {
    SwappedStore(et);
  }

  /**
   * The IPv4 defaults read back as version 4 with a 5-word header, the
   * total length in network order, a time to live of 64 and the protocol;
   * no other byte changes.
   */
  lemma IPv4DefaultsReads(b: seq<u8>, l3: nat, totalLen: u16, proto: u8)
    requires l3 + IPv4MinLen <= |b|
    ensures var r := IPv4Defaults(b, l3, totalLen, proto);
      && r[l3] == 0x45 && BE16(r[l3 + 2], r[l3 + 3]) == totalLen
      && r[l3 + 8] == 64 && r[l3 + 9] == proto
      && forall k | 0 <= k < |b| && k != l3 && k != l3 + 2 && k != l3 + 3 && k != l3 + 8 && k != l3 + 9 :: r[k] == b[k]
  {
    SwappedStore(totalLen);
  }

  /**
   * The IPv6 defaults read back as version 6 with zero traffic class and
   * flow label, the payload length in network order, the next header and a
   * hop limit of 255; no byte outside the first 8 of the header changes.
   */
  lemma IPv6DefaultsReads(b: seq<u8>, l3: nat, payloadLen: u16, proto: u8)
    requires l3 + IPv6Len <= |b|
    ensures var r := IPv6Defaults(b, l3, payloadLen, proto);
      && r[l3] == 0x60 && r[l3 + 1] == 0 && r[l3 + 2] == 0 && r[l3 + 3] == 0
      && BE16(r[l3 + 4], r[l3 + 5]) == payloadLen && r[l3 + 6] == proto && r[l3 + 7] == 255
      && forall k | 0 <= k < |b| && !(l3 <= k < l3 + 8) :: r[k] == b[k]
  {
    SwappedStore(payloadLen);
  }

  /** With the checksum offloaded the header checksum reads zero; no other byte changes. */
  lemma ChecksumClearedReads(b: seq<u8>, l3: nat, hwTxChecksum: bool)
    requires l3 + IPv4MinLen <= |b|
    ensures var r := ChecksumCleared(b, l3, hwTxChecksum);
      (hwTxChecksum ==> r[l3 + 10] == 0 && r[l3 + 11] == 0)
      && forall k | 0 <= k < |b| && (hwTxChecksum ==> k != l3 + 10 && k != l3 + 11) :: r[k] == b[k]
  {
  }

  /** The headers InitEmptyIPv4*Packet writes before its transport header: EtherType, then the IPv4 defaults. */
  function IPv4Frame(b: seq<u8>, ether: nat, l3: nat, totalLen: u16, proto: u8): (r: seq<u8>)
    requires ether + EtherLen <= |b| && l3 + IPv4MinLen <= |b|
    ensures |r| == |b|
  {
    IPv4Defaults(EtherTyped(b, ether, IPV4Number), l3, totalLen, proto)
  }

  /** The headers InitEmptyIPv6*Packet writes before its transport header: EtherType, then the IPv6 defaults. */
  function IPv6Frame(b: seq<u8>, ether: nat, l3: nat, payloadLen: u16, proto: u8): (r: seq<u8>)
    requires ether + EtherLen <= |b| && l3 + IPv6Len <= |b|
    ensures |r| == |b|
  {
    IPv6Defaults(EtherTyped(b, ether, IPV6Number), l3, payloadLen, proto)
  }

  /** The frame InitEmptyIPv4TCPPacket writes for the packet whose Ether is at ether and L2 at l2. */
  function IPv4TCPFrame(b: seq<u8>, ether: nat, l2: nat, plSize: u64, hwTxChecksum: bool): (r: seq<u8>)
    requires ether + EtherLen <= |b| && l2 + 54 <= |b|
    ensures |r| == |b|
  {
    ChecksumCleared(IPv4Frame(b, ether, l2 + EtherLen, ToU16(plSize + 40), TCPNumber)[l2 + 46 := TCPMinDataOffset],
                    l2 + EtherLen, hwTxChecksum)
  }

  /** The frame InitEmptyIPv4UDPPacket writes: the IPv4 defaults, then the UDP datagram length. */
  function IPv4UDPFrame(b: seq<u8>, ether: nat, l2: nat, plSize: u64, hwTxChecksum: bool): (r: seq<u8>)
    requires ether + EtherLen <= |b| && l2 + 42 <= |b|
    ensures |r| == |b|
  {
    ChecksumCleared(Put16(IPv4Frame(b, ether, l2 + EtherLen, ToU16(plSize + 28), UDPNumber),
                          l2 + 38, SwapBytesUint16(ToU16(plSize + 8))),
                    l2 + EtherLen, hwTxChecksum)
  }

  /** The frame InitEmptyIPv4ICMPPacket writes: the IPv4 defaults only. */
  function IPv4ICMPFrame(b: seq<u8>, ether: nat, l2: nat, plSize: u64): (r: seq<u8>)
    requires ether + EtherLen <= |b| && l2 + 42 <= |b|
    ensures |r| == |b|
  {
    IPv4Frame(b, ether, l2 + EtherLen, ToU16(plSize + 28), ICMPNumber)
  }

  /** The frame InitEmptyIPv6TCPPacket writes: the IPv6 defaults, then the TCP data offset. */
  function IPv6TCPFrame(b: seq<u8>, ether: nat, l2: nat, plSize: u64): (r: seq<u8>)
    requires ether + EtherLen <= |b| && l2 + 74 <= |b|
    ensures |r| == |b|
  {
    IPv6Frame(b, ether, l2 + EtherLen, ToU16(plSize + 20), TCPNumber)[l2 + 66 := TCPMinDataOffset]
  }

  /** The frame InitEmptyIPv6UDPPacket writes: the IPv6 defaults, then the UDP datagram length. */
  function IPv6UDPFrame(b: seq<u8>, ether: nat, l2: nat, plSize: u64): (r: seq<u8>)
    requires ether + EtherLen <= |b| && l2 + 62 <= |b|
    ensures |r| == |b|
  {
    Put16(IPv6Frame(b, ether, l2 + EtherLen, ToU16(plSize + 8), UDPNumber), l2 + 58, SwapBytesUint16(ToU16(plSize + 8)))
  }

  /** The frame InitEmptyIPv6ICMPPacket writes: the IPv6 defaults only. */
  function IPv6ICMPFrame(b: seq<u8>, ether: nat, l2: nat, plSize: u64): (r: seq<u8>)
    requires ether + EtherLen <= |b| && l2 + 62 <= |b|
    ensures |r| == |b|
  {
    IPv6Frame(b, ether, l2 + EtherLen, ToU16(plSize + 8), ICMPv6Number)
  }

  /**
   * The frame InitEmptyIPv4TCPPacket leaves (Ether at L2) reads back as
   * IPv4, a 5-word header, total length 40 + plSize, TTL 64, protocol TCP,
   * a 5-word TCP header and, when offloaded, a zero header checksum.
   */
  lemma IPv4TCPFrameReads(b: seq<u8>, l2: nat, plSize: u64, hwTxChecksum: bool)
    requires l2 + 54 <= |b|
    ensures var r := IPv4TCPFrame(b, l2, l2, plSize, hwTxChecksum);
      && BE16(r[l2 + 12], r[l2 + 13]) == IPV4Number && r[l2 + 14] == IPv4VersionIhl
      && BE16(r[l2 + 16], r[l2 + 17]) == ToU16(plSize + 40) && r[l2 + 22] == 64 && r[l2 + 23] == TCPNumber
      && r[l2 + 46] == TCPMinDataOffset && (hwTxChecksum ==> r[l2 + 24] == 0 && r[l2 + 25] == 0)
  {
    var l3 := l2 + EtherLen;
    var e := EtherTyped(b, l2, IPV4Number);
    EtherTypedReads(b, l2, IPV4Number);
    IPv4DefaultsReads(e, l3, ToU16(plSize + 40), TCPNumber);
    var f := IPv4Defaults(e, l3, ToU16(plSize + 40), TCPNumber)[l2 + 46 := TCPMinDataOffset];
    ChecksumClearedReads(f, l3, hwTxChecksum);
  }

  /**
   * The frame InitEmptyIPv4UDPPacket leaves reads back as IPv4, a 5-word
   * header, total length 28 + plSize, TTL 64, protocol UDP, datagram length
   * 8 + plSize and, when offloaded, a zero header checksum.
   */
  lemma IPv4UDPFrameReads(b: seq<u8>, l2: nat, plSize: u64, hwTxChecksum: bool)
    requires l2 + 42 <= |b|
    ensures var r := IPv4UDPFrame(b, l2, l2, plSize, hwTxChecksum);
      && BE16(r[l2 + 12], r[l2 + 13]) == IPV4Number && r[l2 + 14] == IPv4VersionIhl
      && BE16(r[l2 + 16], r[l2 + 17]) == ToU16(plSize + 28) && r[l2 + 22] == 64 && r[l2 + 23] == UDPNumber
      && BE16(r[l2 + 38], r[l2 + 39]) == ToU16(plSize + 8) && (hwTxChecksum ==> r[l2 + 24] == 0 && r[l2 + 25] == 0)
  {
    var l3 := l2 + EtherLen;
    var e := EtherTyped(b, l2, IPV4Number);
    EtherTypedReads(b, l2, IPV4Number);
    IPv4DefaultsReads(e, l3, ToU16(plSize + 28), UDPNumber);
    var d := IPv4Defaults(e, l3, ToU16(plSize + 28), UDPNumber);
    Put16Reads(d, l2 + 38, SwapBytesUint16(ToU16(plSize + 8)));
    SwappedStore(ToU16(plSize + 8));
    ChecksumClearedReads(Put16(d, l2 + 38, SwapBytesUint16(ToU16(plSize + 8))), l3, hwTxChecksum);
  }

  /**
   * The frame InitEmptyIPv4ICMPPacket leaves reads back as IPv4, a 5-word
   * header, total length 28 + plSize, TTL 64 and protocol ICMP.
   */
  lemma IPv4ICMPFrameReads(b: seq<u8>, l2: nat, plSize: u64)
    requires l2 + 42 <= |b|
    ensures var r := IPv4ICMPFrame(b, l2, l2, plSize);
      && BE16(r[l2 + 12], r[l2 + 13]) == IPV4Number && r[l2 + 14] == IPv4VersionIhl
      && BE16(r[l2 + 16], r[l2 + 17]) == ToU16(plSize + 28) && r[l2 + 22] == 64 && r[l2 + 23] == ICMPNumber
  {
    EtherTypedReads(b, l2, IPV4Number);
    IPv4DefaultsReads(EtherTyped(b, l2, IPV4Number), l2 + EtherLen, ToU16(plSize + 28), ICMPNumber);
  }

  /**
   * The frame InitEmptyIPv6TCPPacket leaves reads back as IPv6 (version 6,
   * zero class and flow), payload length 20 + plSize, next header TCP, hop
   * limit 255 and a 5-word TCP header.
   */
  lemma IPv6TCPFrameReads(b: seq<u8>, l2: nat, plSize: u64)
    requires l2 + 74 <= |b|
    ensures var r := IPv6TCPFrame(b, l2, l2, plSize);
      && BE16(r[l2 + 12], r[l2 + 13]) == IPV6Number && r[l2 + 14] == 0x60
      && BE16(r[l2 + 18], r[l2 + 19]) == ToU16(plSize + 20) && r[l2 + 20] == TCPNumber && r[l2 + 21] == 255
      && r[l2 + 66] == TCPMinDataOffset
  {
    EtherTypedReads(b, l2, IPV6Number);
    IPv6DefaultsReads(EtherTyped(b, l2, IPV6Number), l2 + EtherLen, ToU16(plSize + 20), TCPNumber);
  }

  /**
   * The frame InitEmptyIPv6UDPPacket leaves reads back as IPv6, payload
   * length 8 + plSize, next header UDP, hop limit 255 and datagram length
   * 8 + plSize.
   */
  lemma IPv6UDPFrameReads(b: seq<u8>, l2: nat, plSize: u64)
    requires l2 + 62 <= |b|
    ensures var r := IPv6UDPFrame(b, l2, l2, plSize);
      && BE16(r[l2 + 12], r[l2 + 13]) == IPV6Number && r[l2 + 14] == 0x60
      && BE16(r[l2 + 18], r[l2 + 19]) == ToU16(plSize + 8) && r[l2 + 20] == UDPNumber && r[l2 + 21] == 255
      && BE16(r[l2 + 58], r[l2 + 59]) == ToU16(plSize + 8)
  {
    var e := EtherTyped(b, l2, IPV6Number);
    EtherTypedReads(b, l2, IPV6Number);
    IPv6DefaultsReads(e, l2 + EtherLen, ToU16(plSize + 8), UDPNumber);
    var d := IPv6Defaults(e, l2 + EtherLen, ToU16(plSize + 8), UDPNumber);
    Put16Reads(d, l2 + 58, SwapBytesUint16(ToU16(plSize + 8)));
    SwappedStore(ToU16(plSize + 8));
  }

  /**
   * The frame InitEmptyIPv6ICMPPacket leaves reads back as IPv6, payload
   * length 8 + plSize, next header ICMPv6 and hop limit 255.
   */
  lemma IPv6ICMPFrameReads(b: seq<u8>, l2: nat, plSize: u64)
    requires l2 + 62 <= |b|
    ensures var r := IPv6ICMPFrame(b, l2, l2, plSize);
      && BE16(r[l2 + 12], r[l2 + 13]) == IPV6Number && r[l2 + 14] == 0x60
      && BE16(r[l2 + 18], r[l2 + 19]) == ToU16(plSize + 8) && r[l2 + 20] == ICMPv6Number && r[l2 + 21] == 255
  {
    EtherTypedReads(b, l2, IPV6Number);
    IPv6DefaultsReads(EtherTyped(b, l2, IPV6Number), l2 + EtherLen, ToU16(plSize + 8), ICMPv6Number);
  }

  /** Go's store of a uint8 field into the frame. */
  method Store8(a: array<u8>, i: nat, v: u8)
    requires i < a.Length
    modifies a
    ensures a[..] == old(a[..])[i := v]
  {
    a[i] := v;
  }

  /** Go's store of a uint16 field into the frame. */
  method Store16(a: array<u8>, i: nat, v: u16)
    requires i + 2 <= a.Length
    modifies a
    ensures a[..] == Put16(old(a[..]), i, v)
  {
    a[i] := v % 0x100;
    a[i + 1] := v / 0x100;
  }

  /** Go's store of a uint32 field into the frame. */
  method Store32(a: array<u8>, i: nat, v: u32)
    requires i + 4 <= a.Length
    modifies a
    ensures a[..] == Put32(old(a[..]), i, v)
  {
    Store16(a, i, v % 0x1_0000);
    Store16(a, i + 2, v / 0x1_0000);
  }

  /**
   * The bytes [at, at + count) replaced by the bytes dist positions further
   * on, the rest kept: what an ascending copy loop leaves.
   */
  function PulledDown(b: seq<u8>, at: nat, count: nat, dist: nat): (r: seq<u8>)
    requires at + count + dist <= |b|
    ensures |r| == |b|
  {
    seq(|b|, k requires 0 <= k < |b| => if at <= k < at + count then b[k + dist] else b[k])
  }

  /** Byte by byte: the block [at, at + count) reads the bytes dist positions later. */
  lemma PulledDownReads(b: seq<u8>, at: nat, count: nat, dist: nat)
    requires at + count + dist <= |b|
    ensures var r := PulledDown(b, at, count, dist);
      forall k | 0 <= k < |b| :: r[k] == if at <= k < at + count then b[k + dist] else b[k]
  {
  }

  /**
   * The bytes [at + dist, at + dist + count) replaced by the bytes
   * [at, at + count), the rest kept: what a descending copy loop leaves.
   */
  function PushedUp(b: seq<u8>, at: nat, count: nat, dist: nat): (r: seq<u8>)
    requires at + count + dist <= |b|
    ensures |r| == |b|
  {
    seq(|b|, k requires 0 <= k < |b| => if at + dist <= k < at + dist + count then b[k - dist] else b[k])
  }

  /** Byte by byte: the block [at + dist, at + dist + count) reads the bytes dist positions earlier. */
  lemma PushedUpReads(b: seq<u8>, at: nat, count: nat, dist: nat)
    requires at + count + dist <= |b|
    ensures var r := PushedUp(b, at, count, dist);
      forall k | 0 <= k < |b| :: r[k] == if at + dist <= k < at + dist + count then b[k - dist] else b[k]
  {
  }

  /**
   * The loop of EncapsulateHead and DecapsulateTail: for i from 0 up,
   * byte at + i takes byte at + i + dist. Each byte read lies ahead of the
   * bytes already written, so the loop moves the old contents.
   */
  method PullDown(a: array<u8>, at: nat, count: nat, dist: nat)
    requires at + count + dist <= a.Length
    modifies a
    ensures a[..] == PulledDown(old(a[..]), at, count, dist)
  {
    ghost var b := a[..];
    var i := 0;
    PulledDownNone(b, at, dist);
    while i < count
      invariant 0 <= i <= count
      invariant a[..] == PulledDown(b, at, i, dist)
    {
      PulledDownStep(b, at, i, dist);
      a[at + i] := a[at + i + dist];
      i := i + 1;
    }
  }

  lemma PulledDownNone(b: seq<u8>, at: nat, dist: nat)
    requires at + dist <= |b|
    ensures PulledDown(b, at, 0, dist) == b
  {
    PulledDownReads(b, at, 0, dist);
    assert forall k | 0 <= k < |b| :: PulledDown(b, at, 0, dist)[k] == b[k];
  }

  /** One more byte pulled down: the byte at + i takes the still unmoved byte at + i + dist. */
  lemma PulledDownStep(b: seq<u8>, at: nat, i: nat, dist: nat)
    requires at + i + 1 + dist <= |b|
    ensures var r := PulledDown(b, at, i, dist);
      r[at + i := r[at + i + dist]] == PulledDown(b, at, i + 1, dist)
  {
    var r := PulledDown(b, at, i, dist);
    var t := PulledDown(b, at, i + 1, dist);
    PulledDownReads(b, at, i, dist);
    PulledDownReads(b, at, i + 1, dist);
    assert r[at + i + dist] == b[at + i + dist];
    forall k | 0 <= k < |b|
      ensures r[at + i := b[at + i + dist]][k] == t[k]
    {
      if k != at + i {
        assert r[k] == t[k];
      }
    }
  }

  /**
   * The loop of EncapsulateTail and DecapsulateHead: for i from count - 1
   * down, byte at + dist + i takes byte at + i. Each byte read lies below
   * the bytes already written, so the loop moves the old contents.
   */
  method PushUp(a: array<u8>, at: nat, count: nat, dist: nat)
    requires at + count + dist <= a.Length
    modifies a
    ensures a[..] == PushedUp(old(a[..]), at, count, dist)
  {
    ghost var b := a[..];
    var top := at + count;
    var p := top;
    PushedUpNone(b, top, dist);
    while p > at
      invariant at <= p <= top
      invariant a[..] == PushedUpRange(b, p, top, dist)
    {
      PushedUpStep(b, p, top, dist);
      a[p - 1 + dist] := a[p - 1];
      p := p - 1;
    }
    assert p == at && top - p == count;
  }

  /** PushedUp over the block [lo, hi): the loop's invariant once the bytes from lo up have moved. */
  function PushedUpRange(b: seq<u8>, lo: nat, hi: nat, dist: nat): (r: seq<u8>)
    requires lo <= hi && hi + dist <= |b|
    ensures |r| == |b|
  {
    PushedUp(b, lo, hi - lo, dist)
  }

  lemma PushedUpNone(b: seq<u8>, hi: nat, dist: nat)
    requires hi + dist <= |b|
    ensures PushedUpRange(b, hi, hi, dist) == b
  {
    PushedUpReads(b, hi, 0, dist);
    assert forall k | 0 <= k < |b| :: PushedUp(b, hi, 0, dist)[k] == b[k];
  }

  /** One more byte pushed up: the byte lo - 1 + dist takes the still unmoved byte lo - 1. */
  lemma PushedUpStep(b: seq<u8>, lo: nat, hi: nat, dist: nat)
    requires 0 < lo <= hi && hi + dist <= |b|
    ensures var r := PushedUpRange(b, lo, hi, dist);
      r[lo - 1 + dist := r[lo - 1]] == PushedUpRange(b, lo - 1, hi, dist)
  {
    var r := PushedUpRange(b, lo, hi, dist);
    var t := PushedUpRange(b, lo - 1, hi, dist);
    PushedUpReads(b, lo, hi - lo, dist);
    PushedUpReads(b, lo - 1, hi - (lo - 1), dist);
    assert r[lo - 1] == b[lo - 1];
    forall k | 0 <= k < |b|
      ensures r[lo - 1 + dist := b[lo - 1]][k] == t[k]
    {
      if k != lo - 1 + dist {
        assert r[k] == t[k];
      }
    }
  }

  /**
   * Moving bytes towards the end and then back restores the bytes below the
   * end of the moved block: EncapsulateTail undone by DecapsulateTail.
   */
  lemma TailShiftRoundTrip(b: seq<u8>, at: nat, count: nat, dist: nat)
    requires at + count + 2 * dist <= |b|
    ensures PulledDown(PushedUp(b, at, count, dist), at, count + dist, dist)[..at + count] == b[..at + count]
  {
    var r := PulledDown(PushedUp(b, at, count, dist), at, count + dist, dist);
    PushedUpReads(b, at, count, dist);
    PulledDownReads(PushedUp(b, at, count, dist), at, count + dist, dist);
    assert forall k | 0 <= k < at + count :: r[k] == b[k];
  }

  /**
   * Moving bytes towards the start and then back restores everything but
   * the dist bytes at the start of the block: EncapsulateHead undone by
   * DecapsulateHead, both addressing the same L2.
   */
  lemma HeadShiftRoundTrip(b: seq<u8>, at: nat, count: nat, dist: nat)
    requires at + count + dist <= |b|
    ensures var r := PushedUp(PulledDown(b, at, count, dist), at, count, dist);
      r[..at] == b[..at] && r[at + dist..] == b[at + dist..]
  {
    var r := PushedUp(PulledDown(b, at, count, dist), at, count, dist);
    PulledDownReads(b, at, count, dist);
    PushedUpReads(PulledDown(b, at, count, dist), at, count, dist);
    assert forall k | 0 <= k < at :: r[k] == b[k];
    assert forall k | at + dist <= k < |b| :: r[k] == b[k];
  }

  /** The bytes [at, at + |bytes|) replaced by bytes, the rest kept. */
  function Overwritten(b: seq<u8>, at: nat, bytes: seq<u8>): (r: seq<u8>)
    requires at + |bytes| <= |b|
    ensures |r| == |b|
  {
    b[..at] + bytes + b[at + |bytes|..]
  }

  /** An overwrite reads back as the bytes written at their place and the old bytes everywhere else. */
  lemma OverwrittenReads(b: seq<u8>, at: nat, bytes: seq<u8>)
    requires at + |bytes| <= |b|
    ensures var r := Overwritten(b, at, bytes);
      && r[at..at + |bytes|] == bytes
      && forall k | 0 <= k < |b| && !(at <= k < at + |bytes|) :: r[k] == b[k]
  {
    var r := Overwritten(b, at, bytes);
    assert forall k | 0 <= k < |b| && k < at :: r[k] == b[k];
    assert forall k | at + |bytes| <= k < |b| :: r[k] == b[k];
  }

  /** Writing back the bytes an overwrite replaced restores the frame. */
  lemma OverwrittenUndone(b: seq<u8>, at: nat, bytes: seq<u8>)
    requires at + |bytes| <= |b|
    ensures Overwritten(Overwritten(b, at, bytes), at, b[at..at + |bytes|]) == b
  {
    var r := Overwritten(Overwritten(b, at, bytes), at, b[at..at + |bytes|]);
    assert forall k | 0 <= k < |b| :: r[k] == b[k];
  }

  /** The loop of PacketBytesChange: byte at + i takes bytes[i], for i upwards. */
  method Overwrite(a: array<u8>, at: nat, bytes: seq<u8>)
    requires at + |bytes| <= a.Length
    modifies a
    ensures a[..] == Overwritten(old(a[..]), at, bytes)
  {
    ghost var b := a[..];
    var i := 0;
    while i < |bytes|
      invariant 0 <= i <= |bytes|
      invariant forall k | at <= k < at + i :: a[k] == bytes[k - at]
      invariant forall k | 0 <= k < a.Length && !(at <= k < at + i) :: a[k] == b[k]
    {
      a[at + i] := bytes[i];
      i := i + 1;
    }
    assert forall k | 0 <= k < a.Length :: a[..][k] == Overwritten(b, at, bytes)[k];
  }

  /**
   * The bytes EncapsulateTail leaves in a frame at l2 whose new length is
   * pktLen: every byte from start + length to the end takes the byte length
   * positions before it.
   */
  function EncapsulatedTail(b: seq<u8>, l2: nat, start: nat, length: nat, pktLen: nat): (r: seq<u8>)
    requires l2 + pktLen <= |b|
    ensures |r| == |b|
  {
    if start + length < pktLen then PushedUp(b, l2 + start, pktLen - start - length, length) else b
  }

  /**
   * The bytes DecapsulateTail leaves in a frame at l2 whose old length is
   * pktLen: every byte from start to the old end takes the byte length
   * positions after it.
   */
  function DecapsulatedTail(b: seq<u8>, l2: nat, start: nat, length: nat, pktLen: nat): (r: seq<u8>)
    requires l2 + pktLen + length <= |b|
    ensures |r| == |b|
  {
    if start < pktLen then PulledDown(b, l2 + start, pktLen - start, length) else b
  }

  /**
   * Growing a frame of oldLen bytes by length at start keeps the bytes
   * before start and moves every old byte from start on length positions
   * further; the bytes in between keep whatever the room held.
   */
  lemma EncapsulatedTailMoves(b: seq<u8>, l2: nat, start: nat, length: nat, oldLen: nat)
    requires l2 + oldLen + length <= |b| && start <= oldLen
    ensures var r := EncapsulatedTail(b, l2, start, length, oldLen + length);
      && r[..l2 + start + length] == b[..l2 + start + length]
      && r[l2 + start + length .. l2 + oldLen + length] == b[l2 + start .. l2 + oldLen]
  {
    if start < oldLen {
      var at, count := l2 + start, oldLen - start;
      var p := PushedUp(b, at, count, length);
      forall k | at + length <= k < at + length + count
        ensures p[k] == b[k - length]
      {
        var j := k - length;
        assert p[j + length] == b[j];
      }
      assert p[..at + length] == b[..at + length];
      assert p[at + length .. at + length + count] == b[at .. at + count];
      assert oldLen + length - start - length == count;
      assert EncapsulatedTail(b, l2, start, length, oldLen + length) == p;
    }
  }

  /**
   * Shrinking a frame of oldLen bytes by length at start keeps the bytes
   * before start and brings every byte from start + length on length
   * positions closer.
   */
  lemma DecapsulatedTailMoves(b: seq<u8>, l2: nat, start: nat, length: nat, oldLen: nat)
    requires l2 + oldLen + length <= |b| && start + length <= oldLen
    ensures var r := DecapsulatedTail(b, l2, start, length, oldLen);
      && r[..l2 + start] == b[..l2 + start]
      && r[l2 + start .. l2 + oldLen - length] == b[l2 + start + length .. l2 + oldLen]
  {
    if start < oldLen {
      var p := PulledDown(b, l2 + start, oldLen - start, length);
      PulledDownReads(b, l2 + start, oldLen - start, length);
      assert p[..l2 + start] == b[..l2 + start];
      assert forall k | l2 + start <= k < l2 + oldLen - length :: p[k] == b[k + length];
      assert DecapsulatedTail(b, l2, start, length, oldLen) == p;
    }
  }
}
