/**
 * What the parsers of packet/packet.go promise, stated over the byte-level
 * specifications that the Packet methods are proved against.
 */
module PacketProofs {
  import opened Types
  import opened PacketHeaders
  import opened Packets
  import opened PacketBytes
  import opened Mbufs

  /** The EtherType comparison against a swapped constant reads the two frame bytes in network order. */
  lemma EtherTypeIs(b: seq<u8>, l2: nat, n: u16)
    requires l2 + EtherLen <= |b|
    ensures EtherTypeAt(b, l2) == SwapBytesUint16(n) <==> BE16(b[l2 + 12], b[l2 + 13]) == n
  {
    SwapOfLoadIsBigEndian(b[l2 + 12], b[l2 + 13]);
    SwapBytesUint16Involution(n);
    SwapBytesUint16Involution(EtherTypeAt(b, l2));
  }

  /**
   * ParseData reports success exactly for IPv4 carrying TCP, UDP or ICMP and
   * IPv6 carrying TCP, UDP or ICMPv6; L3 always follows the Ethernet header,
   * Data never precedes L4, and the outer pointers are untouched.
   */
  lemma ParseDataMeaning(b: seq<u8>, s: PacketState)
    requires s.l2 + ParseSpan <= |b|
    ensures var p := ParseDataSpec(b, s);
      && (p.code == 0 || p.code == -1)
      && (p.code == 0 <==>
            (BE16(b[s.l2 + 12], b[s.l2 + 13]) == 0x0800 && b[s.l2 + 23] in {6, 17, 1})
            || (BE16(b[s.l2 + 12], b[s.l2 + 13]) == 0x86DD && b[s.l2 + 20] in {6, 17, 58}))
      && p.after.l2 == s.l2 && p.after.l3 == s.l2 + EtherLen
      && (p.code == 0 ==> p.after.l3 <= p.after.l4 <= p.after.data)
      && p.after.(l3 := s.l3, l4 := s.l4, data := s.data) == s
  {
    EtherTypeIs(b, s.l2, IPV4Number);
    EtherTypeIs(b, s.l2, IPV6Number);
  }

  /** Parsing a second time finds the same headers and leaves the pointers where they are. */
  lemma ParseDataIdempotent(b: seq<u8>, s: PacketState)
    requires s.l2 + ParseSpan <= |b|
    ensures ParseDataSpec(b, ParseDataSpec(b, s).after) == ParseDataSpec(b, s)
  {
  }

  /**
   * The outer frame is taken for VXLAN exactly when it is IPv4 (EtherType
   * 0x0800 in network order), its protocol is UDP and the UDP destination
   * port, read in network order, is 4789.
   */
  lemma VxlanDetectedMeaning(b: seq<u8>, dataOff: nat)
    requires dataOff + VxlanSpan <= |b|
    ensures var l3 := dataOff + EtherLen;
      var l4 := l3 + (b[l3] % 0x10) * 4;
      VxlanDetected(b, dataOff) <==>
        BE16(b[dataOff + 12], b[dataOff + 13]) == 0x0800 && b[l3 + 9] == 17
        && BE16(b[l4 + 2], b[l4 + 3]) == 4789
  {
    var l3 := dataOff + EtherLen;
    var l4 := l3 + IPv4HdrLen(b, l3);
    EtherTypeIs(b, dataOff, IPV4Number);
    SwapOfLoadIsBigEndian(b[l4 + 2], b[l4 + 3]);
  }

  /** A frame that is not VXLAN fails with -1, Overlay false and L2 at the start of the data. */
  lemma VxlanRejects(b: seq<u8>, dataOff: nat, s: PacketState)
    requires dataOff + VxlanSpan <= |b| && !VxlanDetected(b, dataOff)
    ensures var p := VxlanDecapSpec(b, dataOff, s);
      p.code == -1 && !p.after.overlay && p.after.l2 == dataOff && p.after.l3 == dataOff + EtherLen
      && p.after.data == s.data && p.after.outerL2 == s.outerL2 && p.after.vxlanHeader == s.vxlanHeader
  {
  }

  /**
   * A VXLAN frame keeps its outer headers in the outer pointers, the VXLAN
   * header after the outer UDP header and the inner L2 after it. As
   * written, the result is 0 exactly when the inner frame is ARP, is neither
   * IPv4 nor IPv6, or is a frame ParseData accepts; in the middle case Data
   * is the UDP header length past the nil L4.
   */
  lemma VxlanAccepts(b: seq<u8>, dataOff: nat, s: PacketState)
    requires dataOff + VxlanSpan <= |b| && VxlanDetected(b, dataOff)
    ensures var p := VxlanDecapSpec(b, dataOff, s);
      var outerL4 := dataOff + EtherLen + (b[dataOff + EtherLen] % 0x10) * 4;
      var inner := outerL4 + UDPLen + VXLANLen;
      var et := BE16(b[inner + 12], b[inner + 13]);
      && p.after.overlay
      && p.after.outerL2 == dataOff && p.after.outerL3 == dataOff + EtherLen && p.after.outerL4 == outerL4
      && p.after.outerEther == dataOff && p.after.outerIPv4Hdr == dataOff + EtherLen
      && p.after.outerUDPHdr == outerL4 && p.after.vxlanHeader == outerL4 + UDPLen
      && p.after.l2 == inner && p.after.l3 == inner + EtherLen
      && (p.code == 0 <==>
            et == 0x0806 || (et != 0x0800 && et != 0x86DD) || ParseDataSpec(b, p.after).code == 0)
      && (et != 0x0800 && et != 0x0806 && et != 0x86DD ==> p.after.l4 == 0 && p.after.data == UDPLen)
  {
    var o := VxlanOuter(b, dataOff, s);
    EtherTypeIs(b, o.l2, ARPNumber);
    EtherTypeIs(b, o.l2, IPV4Number);
    EtherTypeIs(b, o.l2, IPV6Number);
    var et := EtherTypeAt(b, o.l2);
    if et == SwapIPV4Number || et == SwapIPV6Number {
      ParseDataIdempotent(b, o);
    }
  }

  /**
   * The intended decapsulation: the same outer pointers and inner L2, and
   * the result is 0 exactly when the inner frame is ARP or a frame
   * ParseData accepts.
   */
  lemma VxlanIntendedAccepts(b: seq<u8>, dataOff: nat, s: PacketState)
    requires dataOff + VxlanSpan <= |b| && VxlanDetected(b, dataOff)
    ensures var p := VxlanDecapIntended(b, dataOff, s);
      var outerL4 := dataOff + EtherLen + (b[dataOff + EtherLen] % 0x10) * 4;
      var inner := outerL4 + UDPLen + VXLANLen;
      && p.after.overlay
      && p.after.outerL2 == dataOff && p.after.outerL3 == dataOff + EtherLen && p.after.outerL4 == outerL4
      && p.after.outerUDPHdr == outerL4 && p.after.vxlanHeader == outerL4 + UDPLen
      && p.after.l2 == inner && p.after.l3 == inner + EtherLen
      && (p.code == 0 <==>
            BE16(b[inner + 12], b[inner + 13]) == 0x0806 || ParseDataSpec(b, p.after).code == 0)
  {
    var o := VxlanOuter(b, dataOff, s);
    EtherTypeIs(b, o.l2, ARPNumber);
    if EtherTypeAt(b, o.l2) != SwapARPNumber {
      ParseDataIdempotent(b, o);
    }
  }

  /**
   * The code as written and the intended decapsulation differ on exactly
   * one kind of frame: VXLAN whose inner EtherType is none of IPv4, ARP and
   * IPv6. There the code reports success where the intended one fails.
   */
  lemma VxlanDecapDiffers(b: seq<u8>, dataOff: nat, s: PacketState)
    requires dataOff + VxlanSpan <= |b|
    ensures var inner := VxlanInnerL2(b, dataOff);
      var stale := VxlanDetected(b, dataOff) && BE16(b[inner + 12], b[inner + 13]) !in {0x0800, 0x0806, 0x86DD};
      && (!stale ==> VxlanDecapSpec(b, dataOff, s) == VxlanDecapIntended(b, dataOff, s))
      && (stale ==> VxlanDecapSpec(b, dataOff, s).code == 0 && VxlanDecapIntended(b, dataOff, s).code == -1)
  {
    var inner := VxlanInnerL2(b, dataOff);
    EtherTypeIs(b, inner, ARPNumber);
    EtherTypeIs(b, inner, IPV4Number);
    EtherTypeIs(b, inner, IPV6Number);
  }

  /**
   * The input that shows it: outer Ethernet, a 20-byte IPv4 header carrying
   * UDP to port 4789, and an inner frame tagged 0x8100 (a VLAN tag) at
   * offset 50. The code as written returns 0 with Data at 8; the intended
   * decapsulation fails.
   */
  lemma VxlanVlanCounterexample(s: PacketState)
    ensures var b: seq<u8> := seq(VxlanSpan, i =>
        if i == 12 then 0x08 else if i == 14 then 0x45 else if i == 23 then 17
        else if i == 36 then 0x12 else if i == 37 then 0xB5 else if i == 62 then 0x81 else 0);
      && VxlanDecapSpec(b, 0, s).code == 0 && VxlanDecapSpec(b, 0, s).after.data == 8
      && VxlanDecapIntended(b, 0, s).code == -1
  {
    var b: seq<u8> := seq(VxlanSpan, i =>
        if i == 12 then 0x08 else if i == 14 then 0x45 else if i == 23 then 17
        else if i == 36 then 0x12 else if i == 37 then 0xB5 else if i == 62 then 0x81 else 0);
    VxlanDetectedMeaning(b, 0);
    assert VxlanInnerL2(b, 0) == 50;
    VxlanDecapDiffers(b, 0, s);
    VxlanAccepts(b, 0, s);
  }

  /**
   * ParseData on any frame that reads as IPv4 with a 5-word header and
   * carries TCP with a 5-word header, UDP or ICMP.
   */
  lemma IPv4FrameParses(r: seq<u8>, s: PacketState, proto: u8)
    requires s.l2 + ParseSpan <= |r|
    requires BE16(r[s.l2 + 12], r[s.l2 + 13]) == IPV4Number && r[s.l2 + 14] == IPv4VersionIhl && r[s.l2 + 23] == proto
    requires proto == TCPNumber || proto == UDPNumber || proto == ICMPNumber
    requires proto == TCPNumber ==> r[s.l2 + 46] == TCPMinDataOffset
    ensures ParseDataSpec(r, s)
      == Parsed(0, s.(l3 := s.l2 + EtherLen, l4 := s.l2 + 34,
                      data := s.l2 + 34 + if proto == TCPNumber then TCPMinLen else if proto == UDPNumber then UDPLen else ICMPLen))
  {
    EtherTypeIs(r, s.l2, IPV4Number);
    MinimalIPv4HdrLen(r, s.l2 + EtherLen);
    if proto == TCPNumber {
      MinimalTCPHdrLen(r, s.l2 + 34);
    }
  }

  /** ParseData on any frame that reads as IPv6 carrying TCP with a 5-word header, UDP or ICMPv6. */
  lemma IPv6FrameParses(r: seq<u8>, s: PacketState, proto: u8)
    requires s.l2 + ParseSpan <= |r|
    requires BE16(r[s.l2 + 12], r[s.l2 + 13]) == IPV6Number && r[s.l2 + 20] == proto
    requires proto == TCPNumber || proto == UDPNumber || proto == ICMPv6Number
    requires proto == TCPNumber ==> r[s.l2 + 66] == TCPMinDataOffset
    ensures ParseDataSpec(r, s)
      == Parsed(0, s.(l3 := s.l2 + EtherLen, l4 := s.l2 + 54,
                      data := s.l2 + 54 + if proto == TCPNumber then TCPMinLen else if proto == UDPNumber then UDPLen else ICMPLen))
  {
    EtherTypeIs(r, s.l2, IPV6Number);
    EtherTypeIs(r, s.l2, IPV4Number);
    if proto == TCPNumber {
      MinimalTCPHdrLen(r, s.l2 + 54);
    }
  }

  /**
   * ParseData on the frame InitEmptyIPv4TCPPacket writes (Ether at L2)
   * succeeds and finds L3, L4 and Data where the initialiser put them.
   */
  lemma InitIPv4TCPParses(b: seq<u8>, s: PacketState, plSize: u64, hwTxChecksum: bool)
    requires s.l2 + ParseSpan <= |b|
    ensures var p := ParseDataSpec(IPv4TCPFrame(b, s.l2, s.l2, plSize, hwTxChecksum), s);
      p.code == 0 && p.after == s.(l3 := s.l2 + EtherLen, l4 := s.l2 + 34, data := s.l2 + 54)
  {
    var r := IPv4TCPFrame(b, s.l2, s.l2, plSize, hwTxChecksum);
    IPv4TCPFrameReads(b, s.l2, plSize, hwTxChecksum);
    IPv4FrameParses(r, s, TCPNumber);
  }

  /**
   * ParseData on the frame InitEmptyIPv4UDPPacket writes succeeds and finds
   * L3, L4 and Data where the initialiser put them.
   */
  lemma InitIPv4UDPParses(b: seq<u8>, s: PacketState, plSize: u64, hwTxChecksum: bool)
    requires s.l2 + ParseSpan <= |b|
    ensures var p := ParseDataSpec(IPv4UDPFrame(b, s.l2, s.l2, plSize, hwTxChecksum), s);
      p.code == 0 && p.after == s.(l3 := s.l2 + EtherLen, l4 := s.l2 + 34, data := s.l2 + 42)
  {
    var r := IPv4UDPFrame(b, s.l2, s.l2, plSize, hwTxChecksum);
    IPv4UDPFrameReads(b, s.l2, plSize, hwTxChecksum);
    IPv4FrameParses(r, s, UDPNumber);
  }

  /**
   * ParseData on the frame InitEmptyIPv4ICMPPacket writes succeeds and finds
   * L3, L4 and Data where the initialiser put them.
   */
  lemma InitIPv4ICMPParses(b: seq<u8>, s: PacketState, plSize: u64)
    requires s.l2 + ParseSpan <= |b|
    ensures var p := ParseDataSpec(IPv4ICMPFrame(b, s.l2, s.l2, plSize), s);
      p.code == 0 && p.after == s.(l3 := s.l2 + EtherLen, l4 := s.l2 + 34, data := s.l2 + 42)
  {
    var r := IPv4ICMPFrame(b, s.l2, s.l2, plSize);
    IPv4ICMPFrameReads(b, s.l2, plSize);
    IPv4FrameParses(r, s, ICMPNumber);
  }

  /**
   * ParseData on the frame InitEmptyIPv6TCPPacket writes succeeds and finds
   * L3, L4 and Data where the initialiser put them.
   */
  lemma InitIPv6TCPParses(b: seq<u8>, s: PacketState, plSize: u64)
    requires s.l2 + ParseSpan <= |b|
    ensures var p := ParseDataSpec(IPv6TCPFrame(b, s.l2, s.l2, plSize), s);
      p.code == 0 && p.after == s.(l3 := s.l2 + EtherLen, l4 := s.l2 + 54, data := s.l2 + 74)
  {
    var r := IPv6TCPFrame(b, s.l2, s.l2, plSize);
    IPv6TCPFrameReads(b, s.l2, plSize);
    IPv6FrameParses(r, s, TCPNumber);
  }

  /**
   * ParseData on the frame InitEmptyIPv6UDPPacket writes succeeds and finds
   * L3, L4 and Data where the initialiser put them.
   */
  lemma InitIPv6UDPParses(b: seq<u8>, s: PacketState, plSize: u64)
    requires s.l2 + ParseSpan <= |b|
    ensures var p := ParseDataSpec(IPv6UDPFrame(b, s.l2, s.l2, plSize), s);
      p.code == 0 && p.after == s.(l3 := s.l2 + EtherLen, l4 := s.l2 + 54, data := s.l2 + 62)
  {
    var r := IPv6UDPFrame(b, s.l2, s.l2, plSize);
    IPv6UDPFrameReads(b, s.l2, plSize);
    IPv6FrameParses(r, s, UDPNumber);
  }

  /**
   * ParseData on the frame InitEmptyIPv6ICMPPacket writes succeeds and finds
   * L3, L4 and Data where the initialiser put them.
   */
  lemma InitIPv6ICMPParses(b: seq<u8>, s: PacketState, plSize: u64)
    requires s.l2 + ParseSpan <= |b|
    ensures var p := ParseDataSpec(IPv6ICMPFrame(b, s.l2, s.l2, plSize), s);
      p.code == 0 && p.after == s.(l3 := s.l2 + EtherLen, l4 := s.l2 + 54, data := s.l2 + 62)
  {
    var r := IPv6ICMPFrame(b, s.l2, s.l2, plSize);
    IPv6ICMPFrameReads(b, s.l2, plSize);
    IPv6FrameParses(r, s, ICMPv6Number);
  }

  /**
   * EncapsulateTail followed by DecapsulateTail with the same start and
   * length restores the mbuf lengths and every byte of the packet.
   */
  lemma TailEncapsulationUndone(b: seq<u8>, m: Lengths, l2: nat, start: nat, length: u64)
    requires Fits(m) && AppendStep(m, length).ok && m.pktLen + length < 0x1_0000_0000
    requires start <= m.pktLen && l2 + m.pktLen + 2 * length <= |b|
    ensures var a := AppendStep(m, length).after;
      && a.pktLen == m.pktLen + length && TrimStep(a, length) == Step(true, m)
      && DecapsulatedTail(EncapsulatedTail(b, l2, start, length, m.pktLen + length), l2, start, length, m.pktLen + length)[..l2 + m.pktLen]
         == b[..l2 + m.pktLen]
  {
    AppendThenTrim(m, length);
    AppendContract(m, length);
    TailBytesRestored(b, l2, start, length, m.pktLen);
  }

  /** The byte-level half of TailEncapsulationUndone, for a frame of oldLen bytes grown by length. */
  lemma TailBytesRestored(b: seq<u8>, l2: nat, start: nat, length: nat, oldLen: nat)
    requires start <= oldLen && l2 + oldLen + 2 * length <= |b|
    ensures DecapsulatedTail(EncapsulatedTail(b, l2, start, length, oldLen + length), l2, start, length, oldLen + length)[..l2 + oldLen]
         == b[..l2 + oldLen]
  {
    var e := EncapsulatedTail(b, l2, start, length, oldLen + length);
    var d := DecapsulatedTail(e, l2, start, length, oldLen + length);
    if start < oldLen {
      assert oldLen + length - start - length == oldLen - start;
      assert e == PushedUp(b, l2 + start, oldLen - start, length);
      assert oldLen + length - start == oldLen - start + length;
      assert d == PulledDown(e, l2 + start, oldLen - start + length, length);
      TailShiftRoundTrip(b, l2 + start, oldLen - start, length);
    } else {
      assert e == b;
      if start < oldLen + length {
        PulledDownReads(b, l2 + start, oldLen + length - start, length);
      }
      assert forall k | 0 <= k < l2 + oldLen :: d[k] == b[k];
    }
  }

  /**
   * What EncapsulateHead as written does to the frame: the byte at the new
   * frame start (length before L2) is not written, so it equals the old
   * first byte only by coincidence, and the old first start bytes are
   * replaced by the bytes length positions later.
   */
  lemma EncapsulateHeadMisplaces(b: seq<u8>, l2: nat, start: nat, length: nat)
    requires 0 < start && 0 < length <= l2 && l2 + start + length <= |b|
    ensures var r := PulledDown(b, l2, start, length);
      && (r[l2 - length] == b[l2] <==> b[l2 - length] == b[l2])
      && r[l2 .. l2 + start] == b[l2 + length .. l2 + length + start]
  {
    var r := PulledDown(b, l2, start, length);
    PulledDownReads(b, l2, start, length);
    assert forall k | l2 <= k < l2 + start :: r[k] == b[k + length];
  }

  /** The input that shows it: a one-byte header moved in front of a one-byte gap. */
  lemma EncapsulateHeadCounterexample()
    ensures var b: seq<u8> := [7, 1, 2]; PulledDown(b, 1, 1, 1) == [7, 2, 2]
  {
    var b: seq<u8> := [7, 1, 2];
    assert PulledDown(b, 1, 1, 1) == b[..1] + b[2..3] + b[2..];
  }

  /**
   * The guard of PacketBytesChange: BytesChangeFits holds exactly when the
   * range ends inside the packet. The Go guard agrees with it whenever
   * start + length stays below 2^64; past that the sum wraps, and the Go
   * guard accepts every range whose wrapped end is inside the packet,
   * although no such range is.
   */
  lemma BytesChangeGuardWraps(start: u64, length: u64, pktLen: u32)
    ensures BytesChangeFits(start, length, pktLen) <==> start + length <= pktLen
    ensures start + length < 0x1_0000_0000_0000_0000 ==>
      (BytesChangeAcceptedAsWritten(start, length, pktLen) <==> BytesChangeFits(start, length, pktLen))
    ensures start + length >= 0x1_0000_0000_0000_0000 ==>
      && !BytesChangeFits(start, length, pktLen)
      && (BytesChangeAcceptedAsWritten(start, length, pktLen) <==> start + length - 0x1_0000_0000_0000_0000 <= pktLen)
  {
  }

  /** The input that shows it: one byte at start 2^64 - 1 passes the Go guard of an empty packet. */
  lemma BytesChangeGuardCounterexample()
    ensures BytesChangeAcceptedAsWritten(0xFFFF_FFFF_FFFF_FFFF, 1, 0)
    ensures !BytesChangeFits(0xFFFF_FFFF_FFFF_FFFF, 1, 0)
  {
  }

  /**
   * EncapsulateHeadAtNewStart inserts length bytes at start: the new frame,
   * length bytes before the old L2, begins with the old first start bytes,
   * and every byte from old L2 + start on stays where it was.
   */
  lemma EncapsulateHeadAtNewStartInserts(b: seq<u8>, l2: nat, start: nat, length: nat)
    requires length <= l2 && l2 + start <= |b|
    ensures var r := PulledDown(b, l2 - length, start, length);
      && r[l2 - length .. l2 - length + start] == b[l2 .. l2 + start]
      && r[l2 + start ..] == b[l2 + start ..]
  {
    var r := PulledDown(b, l2 - length, start, length);
    PulledDownReads(b, l2 - length, start, length);
    assert forall k | l2 - length <= k < l2 - length + start :: r[k] == b[k + length];
    assert forall k | l2 + start <= k < |b| :: r[k] == b[k];
  }

  /**
   * DecapsulateHead on the packet EncapsulateHeadAtNewStart left (L2 at the
   * new start) restores the mbuf lengths and the frame from the old L2 on.
   */
  lemma HeadEncapsulationUndone(b: seq<u8>, m: Lengths, structSize: int, l2: nat, start: nat, length: u64)
    requires Fits(m) && 0 <= structSize <= m.dataOff && PrependStep(m, structSize, length).ok
    requires length <= l2 && l2 + start <= |b|
    ensures AdjStep(PrependStep(m, structSize, length).after, length) == Step(true, m)
    ensures PushedUp(PulledDown(b, l2 - length, start, length), l2 - length, start, length)[l2..] == b[l2..]
  {
    PrependThenAdj(m, structSize, length);
    HeadShiftRoundTrip(b, l2 - length, start, length);
  }
}
