/**
 * The header cursor of packet/packet.go: a Packet is a set of offsets into the
 * data room of its mbuf (the Go unsafe.Pointer fields become indices into
 * that array, and a nil pointer is index 0). Parsing moves the L2/L3/L4/Data
 * offsets; the guarded accessors compare the EtherType and protocol fields,
 * read as a little-endian host loads them, with byte-swapped constants.
 */
module Packets {
  import opened Types
  import opened PacketHeaders
  import opened Mbufs
  import opened PacketBytes

  /**
   * The bytes the parsers may read from L2 on: an Ethernet header, the
   * longest IPv4 header (IHL 15) and a TCP header.
   */
  const ParseSpan: nat := 94

  /** What VxlanDecap may read: the outer Ethernet, IPv4 and UDP headers, the VXLAN header, then ParseSpan. */
  const VxlanSpan: nat := 184

  /** The host load of the 16-bit field at i. */
  function Load16(b: seq<u8>, i: nat): u16
    requires i + 2 <= |b|
  {
    LE16(b[i], b[i + 1])
  }

  /** EtherHdr.EtherType of the Ethernet header at l2. */
  function EtherTypeAt(b: seq<u8>, l2: nat): u16
    requires l2 + EtherLen <= |b|
  {
    Load16(b, l2 + 12)
  }

  /** (VersionIhl & 0x0f) << 2: the IPv4 header length in bytes. */
  function IPv4HdrLen(b: seq<u8>, l3: nat): (r: nat)
    requires l3 < |b|
    ensures r <= 60 && r % 4 == 0
  {
    (b[l3] % 0x10) * 4
  }

  /** (DataOff & 0xf0) >> 2: the TCP header length in bytes. */
  function TCPHdrLen(b: seq<u8>, l4: nat): (r: nat)
    requires l4 + 13 <= |b|
    ensures r <= 60 && r % 4 == 0
  {
    (b[l4 + 12] / 0x10) * 4
  }

  /** The header length an IPv4 header with VersionIhl 0x45 announces. */
  lemma MinimalIPv4HdrLen(b: seq<u8>, l3: nat)
    requires l3 < |b| && b[l3] == IPv4VersionIhl
    ensures IPv4HdrLen(b, l3) == IPv4MinLen
  {
  }

  /** The header length a TCP header with DataOff 0x50 announces. */
  lemma MinimalTCPHdrLen(b: seq<u8>, l4: nat)
    requires l4 + 13 <= |b| && b[l4 + 12] == TCPMinDataOffset
    ensures TCPHdrLen(b, l4) == TCPMinLen
  {
  }

  /** The pointer fields of a Packet, as offsets. */
  datatype PacketState = PacketState(
    l2: nat, l3: nat, l4: nat, data: nat,
    outerL2: nat, outerL3: nat, outerL4: nat,
    outerEther: nat, outerIPv4Hdr: nat, outerUDPHdr: nat, vxlanHeader: nat,
    overlay: bool, ether: nat)

  /** A parser's return code and the pointers it leaves. */
  datatype Parsed = Parsed(code: int, after: PacketState)

  /** The transport header a frame announces, as ParseData tells them apart. */
  datatype Transport = TCP | UDP | ICMP | Unknown

  /**
   * The transport of the frame at l2: for IPv4 by NextProtoID (UDP before TCP
   * before ICMP), for IPv6 by the next-header field (TCP before UDP before ICMPv6).
   */
  function TransportOf(b: seq<u8>, l2: nat): Transport
    requires l2 + ParseSpan <= |b|
  {
    var l3 := l2 + EtherLen;
    var et := EtherTypeAt(b, l2);
    if et == SwapIPV4Number then
      var proto := b[l3 + 9];
      if proto == UDPNumber then UDP
      else if proto == TCPNumber then TCP
      else if proto == ICMPNumber then ICMP
      else Unknown
    else if et == SwapIPV6Number then
      var proto := b[l3 + 6];
      if proto == TCPNumber then TCP
      else if proto == UDPNumber then UDP
      else if proto == ICMPv6Number then ICMP
      else Unknown
    else Unknown
  }

  /** Where L4 is after the L4 parse of the frame at l2; other frames leave it at l4. */
  function L4Of(b: seq<u8>, l2: nat, l4: nat): (r: nat)
    requires l2 + ParseSpan <= |b|
    ensures EtherTypeAt(b, l2) in {SwapIPV4Number, SwapIPV6Number} ==> r + 20 <= l2 + ParseSpan
  {
    var l3 := l2 + EtherLen;
    var et := EtherTypeAt(b, l2);
    if et == SwapIPV4Number then l3 + IPv4HdrLen(b, l3)
    else if et == SwapIPV6Number then l3 + IPv6Len
    else l4
  }

  /** Data after the transport header at l4; an unknown transport leaves it at data. */
  function DataOf(b: seq<u8>, t: Transport, l4: nat, data: nat): nat
    requires t == TCP ==> l4 + 13 <= |b|
  {
    match t
    case TCP => l4 + TCPHdrLen(b, l4)
    case UDP => l4 + UDPLen
    case ICMP => l4 + ICMPLen
    case Unknown => data
  }

  /**
   * ParseData (packet/packet.go:463-485) as a function of the frame bytes and
   * the pointers before the call: L3 always follows the Ethernet header; L4
   * is set for IPv4 and IPv6; Data is set, and 0 returned, only for a known
   * transport header.
   */
  function ParseDataSpec(b: seq<u8>, s: PacketState): Parsed
    requires s.l2 + ParseSpan <= |b|
  {
    var t := TransportOf(b, s.l2);
    var l4 := L4Of(b, s.l2, s.l4);
    Parsed(if t == Unknown then -1 else 0,
           s.(l3 := s.l2 + EtherLen, l4 := l4, data := DataOf(b, t, l4, s.data)))
  }

  /** The outer Ethernet frame at dataOff is IPv4 carrying UDP to port 4789. */
  predicate VxlanDetected(b: seq<u8>, dataOff: nat)
    requires dataOff + VxlanSpan <= |b|
  {
    var l3 := dataOff + EtherLen;
    var l4 := l3 + IPv4HdrLen(b, l3);
    EtherTypeAt(b, dataOff) == SwapIPV4Number && b[l3 + 9] == UDPNumber
    && SwapBytesUint16(Load16(b, l4 + 2)) == VxlanPort
  }

  /**
   * The pointers after the outer parse of VxlanDecap: Overlay cleared, L2 at
   * data_off, L3 after the Ethernet header, and L4 after the IPv4 header when
   * the outer frame is IPv4. These are the pointers a rejected frame keeps.
   */
  function VxlanRejected(b: seq<u8>, dataOff: nat, s: PacketState): (r: PacketState)
    requires dataOff + VxlanSpan <= |b|
    ensures r.l2 == dataOff && r.l3 == dataOff + EtherLen
    ensures EtherTypeAt(b, dataOff) == SwapIPV4Number ==> r.l4 <= dataOff + 74
  {
    var l3 := dataOff + EtherLen;
    var s1 := s.(overlay := false, l2 := dataOff, l3 := l3);
    if EtherTypeAt(b, dataOff) != SwapIPV4Number then s1 else s1.(l4 := l3 + IPv4HdrLen(b, l3))
  }

  /**
   * The move from the outer headers to the inner frame: the outer pointers
   * take L2/L3/L4, the VXLAN header follows the UDP header, the inner L2
   * follows the VXLAN header, and L3 and L4 become nil.
   */
  function MovedInside(s: PacketState): (r: PacketState)
    ensures r.overlay && r.outerL2 == s.l2 && r.outerL3 == s.l3 && r.outerL4 == s.l4
    ensures r.vxlanHeader == s.l4 + UDPLen && r.l2 == r.vxlanHeader + VXLANLen
  {
    PacketState(s.l4 + UDPLen + VXLANLen, 0, 0, s.data, s.l2, s.l3, s.l4,
                s.l2, s.l3, s.l4, s.l4 + UDPLen, true, s.ether)
  }

  /** Where VxlanDecap puts the inner L2: past the outer Ethernet, IPv4, UDP and VXLAN headers. */
  function VxlanInnerL2(b: seq<u8>, dataOff: nat): (r: nat)
    requires dataOff + VxlanSpan <= |b|
    ensures r + ParseSpan <= |b|
  {
    dataOff + EtherLen + IPv4HdrLen(b, dataOff + EtherLen) + UDPLen + VXLANLen
  }

  /** The pointers once VxlanDecap has recognised the outer headers. */
  function VxlanOuter(b: seq<u8>, dataOff: nat, s: PacketState): (r: PacketState)
    requires dataOff + VxlanSpan <= |b| && VxlanDetected(b, dataOff)
    ensures r.l2 + ParseSpan <= |b|
  {
    MovedInside(VxlanRejected(b, dataOff, s))
  }

  /**
   * VxlanDecap (packet/packet.go:201-266) as written, as a function of the
   * frame bytes, the mbuf's data_off (where ParseL2 puts L2) and the
   * pointers before the call. Past the outer headers an inner ARP frame
   * succeeds at once and an inner IPv4 or IPv6 frame is parsed as ParseData
   * does. An inner frame of any other EtherType leaves pktUDP holding the
   * outer UDP header, so the UDP branch runs: Data becomes the nil L4 plus
   * the UDP header length and the result is 0.
   */
  function VxlanDecapSpec(b: seq<u8>, dataOff: nat, s: PacketState): Parsed
    requires dataOff + VxlanSpan <= |b|
  {
    if !VxlanDetected(b, dataOff) then Parsed(-1, VxlanRejected(b, dataOff, s))
    else
      var o := VxlanOuter(b, dataOff, s);
      var et := EtherTypeAt(b, o.l2);
      if et == SwapARPNumber then Parsed(0, o.(l3 := o.l2 + EtherLen))
      else if et != SwapIPV4Number && et != SwapIPV6Number then Parsed(0, o.(l3 := o.l2 + EtherLen, data := o.l4 + UDPLen))
      else ParseDataSpec(b, o)
  }

  /**
   * VxlanDecap as evidently intended: past the outer headers an inner ARP
   * frame succeeds at once, and any other inner frame is parsed as
   * ParseData does, so an inner frame that is neither IPv4 nor IPv6 fails.
   */
  function VxlanDecapIntended(b: seq<u8>, dataOff: nat, s: PacketState): Parsed
    requires dataOff + VxlanSpan <= |b|
  {
    if !VxlanDetected(b, dataOff) then Parsed(-1, VxlanRejected(b, dataOff, s))
    else
      var o := VxlanOuter(b, dataOff, s);
      if EtherTypeAt(b, o.l2) == SwapARPNumber then Parsed(0, o.(l3 := o.l2 + EtherLen))
      else ParseDataSpec(b, o)
  }

  /**
   * The guard of PacketBytesChange as written (packet/packet.go:855-856):
   * start + len(bytes) is a Go uint sum, which wraps at 2^64.
   */
  predicate BytesChangeAcceptedAsWritten(start: u64, length: u64, pktLen: u32)
  {
    ToU64(start + length) <= pktLen
  }

  /** The guard without the wrap: [start, start + length) ends inside the packet. */
  predicate BytesChangeFits(start: u64, length: u64, pktLen: u32)
  {
    length <= pktLen && start <= pktLen - length
  }

  /** A packet view of an mbuf. */
  class Packet {
    var l2: nat
    var l3: nat
    var l4: nat
    var data: nat
    var outerL2: nat
    var outerL3: nat
    var outerL4: nat
    var outerEther: nat
    var outerIPv4Hdr: nat
    var outerUDPHdr: nat
    var vxlanHeader: nat
    var overlay: bool
    var ether: nat
    const cmbuf: Mbuf

    function State(): PacketState
      reads this
    {
      PacketState(l2, l3, l4, data, outerL2, outerL3, outerL4,
                  outerEther, outerIPv4Hdr, outerUDPHdr, vxlanHeader, overlay, ether)
    }

    /** packet.Packet{CMbuf: m}: every pointer nil. */
    constructor (m: Mbuf)
      ensures cmbuf == m
      ensures State() == PacketState(0, 0, 0, 0, 0, 0, 0, 0, 0, 0, 0, false, 0)
    {
      cmbuf := m;
      l2, l3, l4, data := 0, 0, 0, 0;
      outerL2, outerL3, outerL4 := 0, 0, 0;
      outerEther, outerIPv4Hdr, outerUDPHdr, vxlanHeader := 0, 0, 0, 0;
      overlay := false;
      ether := 0;
    }

    /** ParseL2 (packet/packet.go:268-270): L2 is the start of the mbuf data. */
    method ParseL2()
      modifies this`l2
      ensures State() == old(State()).(l2 := cmbuf.dataOff)
    {
      l2 := cmbuf.dataOff;
    }

    /** GetEther (packet/packet.go:272-274). */
    function GetEther(): nat
      reads this
    {
      l2
    }

    /** StartAtOffset (packet/packet.go:282-285): offsets count from L2. */
    function StartAtOffset(offset: nat): (r: nat)
      reads this
      ensures r - offset == GetEther()
    {
      l2 + offset
    }

    /** ParseL3 (packet/packet.go:288-290): L3 follows the 14-byte Ethernet header. */
    method ParseL3()
      modifies this`l3
      ensures State() == old(State()).(l3 := l2 + EtherLen)
    {
      l3 := l2 + EtherLen;
    }

    /** GetIPv4 (packet/packet.go:293-298): L3 when the EtherType is 0x0800 in network order. */
    function GetIPv4(): (r: Option<nat>)
      reads this, cmbuf.buf
      requires l2 + EtherLen <= cmbuf.buf.Length
      ensures r.Some? <==> cmbuf.buf[l2 + 12] == 0x08 && cmbuf.buf[l2 + 13] == 0x00
      ensures r.Some? ==> r.value == l3
    {
      PairDigits(cmbuf.buf[l2 + 13], cmbuf.buf[l2 + 12]);
      if EtherTypeAt(cmbuf.buf[..], l2) == SwapBytesUint16(IPV4Number) then Some(l3) else None
    }

    /** GetARP (packet/packet.go:306-311): L3 when the EtherType is 0x0806 in network order. */
    function GetARP(): (r: Option<nat>)
      reads this, cmbuf.buf
      requires l2 + EtherLen <= cmbuf.buf.Length
      ensures r.Some? <==> cmbuf.buf[l2 + 12] == 0x08 && cmbuf.buf[l2 + 13] == 0x06
      ensures r.Some? ==> r.value == l3
    {
      PairDigits(cmbuf.buf[l2 + 13], cmbuf.buf[l2 + 12]);
      if EtherTypeAt(cmbuf.buf[..], l2) == SwapBytesUint16(ARPNumber) then Some(l3) else None
    }

    /** GetIPv6 (packet/packet.go:319-324): L3 when the EtherType is 0x86DD in network order. */
    function GetIPv6(): (r: Option<nat>)
      reads this, cmbuf.buf
      requires l2 + EtherLen <= cmbuf.buf.Length
      ensures r.Some? <==> cmbuf.buf[l2 + 12] == 0x86 && cmbuf.buf[l2 + 13] == 0xDD
      ensures r.Some? ==> r.value == l3
    {
      PairDigits(cmbuf.buf[l2 + 13], cmbuf.buf[l2 + 12]);
      if EtherTypeAt(cmbuf.buf[..], l2) == SwapBytesUint16(IPV6Number) then Some(l3) else None
    }

    /** ParseL4ForIPv4 (packet/packet.go:333-335): L4 follows an IHL*4-byte header. */
    method ParseL4ForIPv4()
      requires l3 < cmbuf.buf.Length
      modifies this`l4
      ensures State() == old(State()).(l4 := l3 + IPv4HdrLen(cmbuf.buf[..], l3))
      ensures l3 + 0 <= l4 <= l3 + 60
    {
      l4 := l3 + IPv4HdrLen(cmbuf.buf[..], l3);
    }

    /** ParseL4ForIPv6 (packet/packet.go:338-340): L4 follows the 40-byte fixed header. */
    method ParseL4ForIPv6()
      modifies this`l4
      ensures State() == old(State()).(l4 := l3 + IPv6Len)
    {
      l4 := l3 + IPv6Len;
    }

    /** GetTCPForIPv4 (packet/packet.go:343-348). */
    function GetTCPForIPv4(): Option<nat>
      reads this, cmbuf.buf
      requires l3 + 10 <= cmbuf.buf.Length
    {
      if cmbuf.buf[l3 + 9] == TCPNumber then Some(l4) else None
    }

    /** GetTCPForIPv6 (packet/packet.go:356-361). */
    function GetTCPForIPv6(): Option<nat>
      reads this, cmbuf.buf
      requires l3 + 7 <= cmbuf.buf.Length
    {
      if cmbuf.buf[l3 + 6] == TCPNumber then Some(l4) else None
    }

    /** GetUDPForIPv4 (packet/packet.go:364-369). */
    function GetUDPForIPv4(): Option<nat>
      reads this, cmbuf.buf
      requires l3 + 10 <= cmbuf.buf.Length
    {
      if cmbuf.buf[l3 + 9] == UDPNumber then Some(l4) else None
    }

    /** GetUDPForIPv6 (packet/packet.go:377-382). */
    function GetUDPForIPv6(): Option<nat>
      reads this, cmbuf.buf
      requires l3 + 7 <= cmbuf.buf.Length
    {
      if cmbuf.buf[l3 + 6] == UDPNumber then Some(l4) else None
    }

    /** GetICMPForIPv4 (packet/packet.go:386-391). */
    function GetICMPForIPv4(): Option<nat>
      reads this, cmbuf.buf
      requires l3 + 10 <= cmbuf.buf.Length
    {
      if cmbuf.buf[l3 + 9] == ICMPNumber then Some(l4) else None
    }

    /** GetICMPForIPv6 (packet/packet.go:400-405). */
    function GetICMPForIPv6(): Option<nat>
      reads this, cmbuf.buf
      requires l3 + 7 <= cmbuf.buf.Length
    {
      if cmbuf.buf[l3 + 6] == ICMPv6Number then Some(l4) else None
    }

    /**
     * ParseAllKnownL3 (packet/packet.go:408-418): at most one header is
     * returned, chosen by the network-order EtherType.
     */
    method ParseAllKnownL3() returns (ipv4: Option<nat>, ipv6: Option<nat>, arp: Option<nat>)
      requires l2 + EtherLen <= cmbuf.buf.Length
      modifies this`l3
      ensures State() == old(State()).(l3 := l2 + EtherLen)
      ensures ipv4 == (if EtherTypeAt(cmbuf.buf[..], l2) == SwapIPV4Number then Some(l3) else None)
      ensures arp == (if EtherTypeAt(cmbuf.buf[..], l2) == SwapARPNumber then Some(l3) else None)
      ensures ipv6 == (if EtherTypeAt(cmbuf.buf[..], l2) == SwapIPV6Number then Some(l3) else None)
      ensures !(ipv4.Some? && ipv6.Some?) && !(ipv4.Some? && arp.Some?) && !(ipv6.Some? && arp.Some?)
    {
      ParseL3();
      if GetIPv4().Some? {
        return Some(l3), None, None;
      } else if GetARP().Some? {
        return None, None, Some(l3);
      } else if GetIPv6().Some? {
        return None, Some(l3), None;
      }
      return None, None, None;
    }

    /**
     * ParseAllKnownL4ForIPv4 (packet/packet.go:421-431): UDP, then TCP, then
     * ICMP, by NextProtoID; at most one header is returned.
     */
    method ParseAllKnownL4ForIPv4() returns (tcp: Option<nat>, udp: Option<nat>, icmp: Option<nat>)
      requires l3 + 10 <= cmbuf.buf.Length
      modifies this`l4
      ensures State() == old(State()).(l4 := l3 + IPv4HdrLen(cmbuf.buf[..], l3))
      ensures udp == (if cmbuf.buf[l3 + 9] == UDPNumber then Some(l4) else None)
      ensures tcp == (if cmbuf.buf[l3 + 9] == TCPNumber then Some(l4) else None)
      ensures icmp == (if cmbuf.buf[l3 + 9] == ICMPNumber then Some(l4) else None)
      ensures !(tcp.Some? && udp.Some?) && !(tcp.Some? && icmp.Some?) && !(udp.Some? && icmp.Some?)
    {
      ParseL4ForIPv4();
      if GetUDPForIPv4().Some? {
        return None, Some(l4), None;
      } else if GetTCPForIPv4().Some? {
        return Some(l4), None, None;
      } else if GetICMPForIPv4().Some? {
        return None, None, Some(l4);
      }
      return None, None, None;
    }

    /**
     * ParseAllKnownL4ForIPv6 (packet/packet.go:434-444): TCP, then UDP, then
     * ICMPv6, by the next-header field; at most one header is returned.
     */
    method ParseAllKnownL4ForIPv6() returns (tcp: Option<nat>, udp: Option<nat>, icmp: Option<nat>)
      requires l3 + 7 <= cmbuf.buf.Length
      modifies this`l4
      ensures State() == old(State()).(l4 := l3 + IPv6Len)
      ensures tcp == (if cmbuf.buf[l3 + 6] == TCPNumber then Some(l4) else None)
      ensures udp == (if cmbuf.buf[l3 + 6] == UDPNumber then Some(l4) else None)
      ensures icmp == (if cmbuf.buf[l3 + 6] == ICMPv6Number then Some(l4) else None)
      ensures !(tcp.Some? && udp.Some?) && !(tcp.Some? && icmp.Some?) && !(udp.Some? && icmp.Some?)
    {
      ParseL4ForIPv6();
      if GetTCPForIPv6().Some? {
        return Some(l4), None, None;
      } else if GetUDPForIPv6().Some? {
        return None, Some(l4), None;
      } else if GetICMPForIPv6().Some? {
        return None, None, Some(l4);
      }
      return None, None, None;
    }

    /**
     * ParseL7 (packet/packet.go:447-458): Data after the TCP header, or after
     * the 8-byte UDP or ICMP header; any other protocol leaves Data.
     */
    method ParseL7(protocol: nat)
      requires protocol == TCPNumber ==> l4 + 13 <= cmbuf.buf.Length
      modifies this`data
      ensures protocol == TCPNumber ==> data == l4 + TCPHdrLen(cmbuf.buf[..], l4)
      ensures protocol == UDPNumber || protocol == ICMPNumber || protocol == ICMPv6Number ==> data == l4 + 8
      ensures protocol !in {TCPNumber as nat, UDPNumber as nat, ICMPNumber as nat, ICMPv6Number as nat} ==> data == old(data)
    {
      if protocol == TCPNumber {
        data := l4 + TCPHdrLen(cmbuf.buf[..], l4);
      } else if protocol == UDPNumber {
        data := l4 + UDPLen;
      } else if protocol == ICMPNumber || protocol == ICMPv6Number {
        data := l4 + ICMPLen;
      }
    }

    /**
     * The tail that ParseData and VxlanDecap share (packet/packet.go:470-484,
     * 246-262): parse L4 for the L3 header found, then set Data after the
     * transport header.
     */
    method ParseL4AndData(ipv4: Option<nat>, ipv6: Option<nat>) returns (r: int)
      requires l2 + ParseSpan <= cmbuf.buf.Length && l3 == l2 + EtherLen
      requires ipv4.Some? <==> EtherTypeAt(cmbuf.buf[..], l2) == SwapIPV4Number
      requires ipv6.Some? <==> EtherTypeAt(cmbuf.buf[..], l2) == SwapIPV6Number
      modifies this`l4, this`data
      ensures r == if TransportOf(cmbuf.buf[..], l2) == Unknown then -1 else 0
      ensures var t, l4 := TransportOf(cmbuf.buf[..], l2), L4Of(cmbuf.buf[..], l2, old(l4));
        State() == old(State()).(l4 := l4, data := DataOf(cmbuf.buf[..], t, l4, old(data)))
    {
      ghost var b, t := cmbuf.buf[..], TransportOf(cmbuf.buf[..], l2);
      var tcp, udp, icmp: Option<nat> := None, None, None;
      if ipv4.Some? {
        tcp, udp, icmp := ParseAllKnownL4ForIPv4();
      } else if ipv6.Some? {
        tcp, udp, icmp := ParseAllKnownL4ForIPv6();
      }
      assert l4 == L4Of(b, l2, old(l4));
      if tcp.Some? {
        assert t == TCP;
        data := l4 + TCPHdrLen(cmbuf.buf[..], l4);
      } else if udp.Some? {
        assert t == UDP;
        data := l4 + UDPLen;
      } else if icmp.Some? {
        assert t == ICMP;
        data := l4 + ICMPLen;
      } else {
        assert t == Unknown;
        return -1;
      }
      return 0;
    }

    /** ParseData (packet/packet.go:463-485). */
    method ParseData() returns (r: int)
      requires l2 + ParseSpan <= cmbuf.buf.Length
      modifies this`l3, this`l4, this`data
      ensures Parsed(r, State()) == ParseDataSpec(cmbuf.buf[..], old(State()))
    {
      var ipv4, ipv6, _ := ParseAllKnownL3();
      r := ParseL4AndData(ipv4, ipv6);
    }

    /**
     * The outer parse of VxlanDecap (packet/packet.go:211-231): L2, L3 and,
     * for IPv4, L4 of the outer frame, and whether it is UDP to the VXLAN port.
     */
    method ParseOuter() returns (detected: bool)
      requires cmbuf.dataOff + VxlanSpan <= cmbuf.buf.Length
      modifies this`overlay, this`l2, this`l3, this`l4
      ensures detected == VxlanDetected(cmbuf.buf[..], cmbuf.dataOff)
      ensures State() == VxlanRejected(cmbuf.buf[..], cmbuf.dataOff, old(State()))
    {
      overlay := false;
      ParseL2();
      var ether := GetEther();
      var etherType := EtherTypeAt(cmbuf.buf[..], ether);
      if etherType == SwapARPNumber || etherType == SwapIPV6Number {
        ParseL3();
        return false;
      }
      if etherType == SwapIPV4Number {
        ParseL3();
      }
      var ipv4, _, _ := ParseAllKnownL3();
      if ipv4.None? {
        return false;
      }
      var _, udp, _ := ParseAllKnownL4ForIPv4();
      return udp.Some? && SwapBytesUint16(Load16(cmbuf.buf[..], udp.value + 2)) == VxlanPort;
    }

    /**
     * The move to the inner frame (packet/packet.go:233-243): the outer
     * pointers keep the VXLAN headers and L2 moves past them.
     */
    method MoveInside()
      modifies this
      ensures State() == MovedInside(old(State()))
    {
      KeepOuterHeaders();
      KeepOuterLayers();
      l3, l4, l2 := 0, 0, outerL4 + UDPLen + VXLANLen;
    }

    /** packet/packet.go:233-237: the overlay flag and the outer header pointers. */
    method KeepOuterHeaders()
      modifies this
      ensures State() == old(State()).(overlay := true, outerEther := l2, outerIPv4Hdr := l3,
                                        outerUDPHdr := l4, vxlanHeader := l4 + UDPLen)
    {
      overlay, outerEther, outerIPv4Hdr, outerUDPHdr, vxlanHeader := true, l2, l3, l4, l4 + UDPLen;
    }

    /** packet/packet.go:238-240: the outer layer pointers. */
    method KeepOuterLayers()
      modifies this
      ensures State() == old(State()).(outerL2 := l2, outerL3 := l3, outerL4 := l4)
    {
      outerL2, outerL3, outerL4 := l2, l3, l4;
    }

    /** VxlanDecap (packet/packet.go:201-266): one level of VXLAN decapsulation. */
    method VxlanDecap() returns (r: int)
      requires cmbuf.dataOff + VxlanSpan <= cmbuf.buf.Length
      modifies this
      ensures Parsed(r, State()) == VxlanDecapSpec(cmbuf.buf[..], cmbuf.dataOff, old(State()))
    {
      var detected := ParseOuter();
      if !detected {
        return -1;
      }
      MoveInside();
      var inner4, inner6, arp := ParseAllKnownL3();
      if arp.Some? {
        return 0;
      }
      if inner4.None? && inner6.None? {
        // pktUDP still holds the outer UDP header, so its branch sets Data after the nil L4.
        data := l4 + UDPLen;
        return 0;
      }
      r := ParseL4AndData(inner4, inner6);
    }

    /** packet.Ether.EtherType = SwapBytesUint16(et), as the InitEmpty functions write it. */
    method WriteEtherType(et: u16)
      requires ether + EtherLen <= cmbuf.buf.Length
      modifies cmbuf.buf
      ensures cmbuf.buf[..] == EtherTyped(old(cmbuf.buf[..]), ether, et)
    {
      Store16(cmbuf.buf, ether + 12, SwapBytesUint16(et));
    }

    /** fillIPv4Default (packet/packet.go:546-551), on the IPv4 header at L3. */
    method FillIPv4Default(plLen: u16, nextProto: u8)
      requires l3 + IPv4MinLen <= cmbuf.buf.Length
      modifies cmbuf.buf
      ensures cmbuf.buf[..] == IPv4Defaults(old(cmbuf.buf[..]), l3, plLen, nextProto)
    {
      Store8(cmbuf.buf, l3, IPv4VersionIhl);
      Store16(cmbuf.buf, l3 + 2, SwapBytesUint16(plLen));
      Store8(cmbuf.buf, l3 + 9, nextProto);
      Store8(cmbuf.buf, l3 + 8, 64);
    }

    /** fillIPv6Default (packet/packet.go:553-558), on the IPv6 header at L3. */
    method FillIPv6Default(totalLen: u16, nextProto: u8)
      requires l3 + IPv6Len <= cmbuf.buf.Length
      modifies cmbuf.buf
      ensures cmbuf.buf[..] == IPv6Defaults(old(cmbuf.buf[..]), l3, totalLen, nextProto)
    {
      Store16(cmbuf.buf, l3 + 4, SwapBytesUint16(totalLen));
      Store32(cmbuf.buf, l3, IPv6VtcFlow);
      Store8(cmbuf.buf, l3 + 6, nextProto);
      Store8(cmbuf.buf, l3 + 7, 255);
    }

    /**
     * InitEmptyPacket (packet/packet.go:536-544): room for the Ethernet
     * header and plSize payload bytes; Data follows the Ethernet header.
     */
    method InitEmptyPacket(plSize: u64) returns (ok: bool)
      modifies cmbuf, this`data
      ensures Step(ok, cmbuf.Fields()) == AppendStep(old(cmbuf.Fields()), ToU64(plSize + EtherLen))
      ensures State() == if ok then old(State()).(data := l2 + EtherLen) else old(State())
    {
      ok := cmbuf.Append(ToU64(plSize + EtherLen));
      if !ok {
        return;
      }
      data := l2 + EtherLen;
    }

    /**
     * InitEmptyIPv4Packet (packet/packet.go:562-581): room for Ethernet, a
     * 20-byte IPv4 header and plSize bytes; EtherType IPv4, the IPv4
     * defaults with no next header, and a zero header checksum when the
     * checksum is offloaded.
     */
    method InitEmptyIPv4Packet(plSize: u64, hwTxChecksum: bool) returns (ok: bool)
      requires ether + EtherLen <= cmbuf.buf.Length && l2 + EtherLen + IPv4MinLen <= cmbuf.buf.Length
      modifies cmbuf, cmbuf.buf, this`l3, this`data
      ensures Step(ok, cmbuf.Fields()) == AppendStep(old(cmbuf.Fields()), ToU64(plSize + 34))
      ensures State() == if ok then old(State()).(l3 := l2 + EtherLen, data := l2 + 34) else old(State())
      ensures cmbuf.buf[..] == if !ok then old(cmbuf.buf[..]) else
        ChecksumCleared(IPv4Frame(old(cmbuf.buf[..]), ether, l2 + EtherLen, ToU16(plSize + 20), NoNextHeader),
                        l2 + EtherLen, hwTxChecksum)
    {
      ok := cmbuf.Append(ToU64(plSize + EtherLen + IPv4MinLen));
      if !ok {
        return;
      }
      WriteEtherType(IPV4Number);
      data := l2 + EtherLen + IPv4MinLen;
      ParseL3();
      FillIPv4Default(ToU16(IPv4MinLen + plSize), NoNextHeader);
      ClearChecksumIfOffloaded(hwTxChecksum);
    }

    /**
     * InitEmptyIPv6Packet (packet/packet.go:585-597): room for Ethernet, the
     * 40-byte IPv6 header and plSize bytes; EtherType IPv6 and the IPv6
     * defaults with no next header.
     */
    method InitEmptyIPv6Packet(plSize: u64) returns (ok: bool)
      requires ether + EtherLen <= cmbuf.buf.Length && l2 + EtherLen + IPv6Len <= cmbuf.buf.Length
      modifies cmbuf, cmbuf.buf, this`l3, this`data
      ensures Step(ok, cmbuf.Fields()) == AppendStep(old(cmbuf.Fields()), ToU64(plSize + 54))
      ensures State() == if ok then old(State()).(l3 := l2 + EtherLen, data := l2 + 54) else old(State())
      ensures cmbuf.buf[..] == if !ok then old(cmbuf.buf[..]) else
        IPv6Frame(old(cmbuf.buf[..]), ether, l2 + EtherLen, ToU16(plSize), NoNextHeader)
    {
      ok := cmbuf.Append(ToU64(plSize + EtherLen + IPv6Len));
      if !ok {
        return;
      }
      WriteEtherType(IPV6Number);
      data := l2 + EtherLen + IPv6Len;
      ParseL3();
      FillIPv6Default(ToU16(plSize), NoNextHeader);
    }

    /** InitEmptyARPPacket (packet/packet.go:600-610): room for Ethernet and ARP; EtherType ARP. */
    method InitEmptyARPPacket() returns (ok: bool)
      requires ether + EtherLen <= cmbuf.buf.Length
      modifies cmbuf, cmbuf.buf, this`l3
      ensures Step(ok, cmbuf.Fields()) == AppendStep(old(cmbuf.Fields()), EtherLen + ARPLen)
      ensures State() == if ok then old(State()).(l3 := l2 + EtherLen) else old(State())
      ensures cmbuf.buf[..] == if ok then EtherTyped(old(cmbuf.buf[..]), ether, ARPNumber) else old(cmbuf.buf[..])
    {
      ok := cmbuf.Append(EtherLen + ARPLen);
      if !ok {
        return;
      }
      WriteEtherType(ARPNumber);
      ParseL3();
    }

    /**
     * InitEmptyIPv4TCPPacket (packet/packet.go:616-637): IPv4 defaults for
     * TCP, L4 found from the written IHL, a TCP data offset of 5 words and
     * Data after the 20-byte TCP header.
     */
    method InitEmptyIPv4TCPPacket(plSize: u64, hwTxChecksum: bool) returns (ok: bool)
      requires ether + EtherLen <= cmbuf.buf.Length && l2 + 54 <= cmbuf.buf.Length
      modifies cmbuf, cmbuf.buf, this`l3, this`l4, this`data
      ensures Step(ok, cmbuf.Fields()) == AppendStep(old(cmbuf.Fields()), ToU64(plSize + 54))
      ensures State() == if ok then old(State()).(l3 := l2 + EtherLen, l4 := l2 + 34, data := l2 + 54)
                         else old(State())
      ensures cmbuf.buf[..] == if ok then IPv4TCPFrame(old(cmbuf.buf[..]), ether, l2, plSize, hwTxChecksum)
                               else old(cmbuf.buf[..])
    {
      ok := cmbuf.Append(ToU64(plSize + EtherLen + IPv4MinLen + TCPMinLen));
      if ok {
        WriteIPv4TCP(plSize, hwTxChecksum);
      }
    }

    /**
     * The writes of InitEmptyIPv4TCPPacket once the room is appended
     * (packet/packet.go:624-635); ParseL3 and ParseL4ForIPv4 are written out.
     */
    method WriteIPv4TCP(plSize: u64, hwTxChecksum: bool)
      requires ether + EtherLen <= cmbuf.buf.Length && l2 + 54 <= cmbuf.buf.Length
      modifies cmbuf.buf, this`l3, this`l4, this`data
      ensures State() == old(State()).(l3 := l2 + EtherLen, l4 := l2 + 34, data := l2 + 54)
      ensures cmbuf.buf[..] == IPv4TCPFrame(old(cmbuf.buf[..]), ether, l2, plSize, hwTxChecksum)
    {
      assert ToU16(IPv4MinLen + TCPMinLen + plSize) == ToU16(plSize + 40);
      WriteIPv4Headers(ToU16(IPv4MinLen + TCPMinLen + plSize), TCPNumber);
      ghost var bf := cmbuf.buf[..];
      assert l4 + 12 == l2 + 46;
      SetTCPMinDataOffset();
      ghost var bt := cmbuf.buf[..];
      assert bt == bf[l2 + 46 := TCPMinDataOffset];
      ClearChecksumIfOffloaded(hwTxChecksum);
    }

    /**
     * The TCP lines the TCP initialisers share (packet/packet.go:629-630,
     * 699-700): a data offset of 5 words, and Data after the header that
     * offset describes.
     */
    method SetTCPMinDataOffset()
      requires l4 + TCPMinLen <= cmbuf.buf.Length
      modifies cmbuf.buf, this`data
      ensures State() == old(State()).(data := l4 + TCPMinLen)
      ensures cmbuf.buf[..] == old(cmbuf.buf[..])[l4 + 12 := TCPMinDataOffset]
    {
      Store8(cmbuf.buf, l4 + 12, TCPMinDataOffset);
      MinimalTCPHdrLen(cmbuf.buf[..], l4);
      data := l4 + TCPHdrLen(cmbuf.buf[..], l4);
    }

    /**
     * The hwtxchecksum block of the IPv4 initialisers (packet/packet.go:632-635):
     * the header checksum is zeroed when the NIC is to compute it.
     */
    method ClearChecksumIfOffloaded(hwTxChecksum: bool)
      requires l3 + IPv4MinLen <= cmbuf.buf.Length
      modifies cmbuf.buf
      ensures cmbuf.buf[..] == ChecksumCleared(old(cmbuf.buf[..]), l3, hwTxChecksum)
    {
      if hwTxChecksum {
        Store16(cmbuf.buf, l3 + 10, 0);
      }
    }

    /**
     * The steps the three InitEmptyIPv4*Packet initialisers share
     * (packet/packet.go:624-627): EtherType IPv4, ParseL3, the IPv4 defaults
     * and ParseL4ForIPv4, which finds L4 right after the 20-byte header.
     */
    method WriteIPv4Headers(totalLen: u16, proto: u8)
      requires ether + EtherLen <= cmbuf.buf.Length && l2 + 34 <= cmbuf.buf.Length
      modifies cmbuf.buf, this`l3, this`l4
      ensures State() == old(State()).(l3 := l2 + EtherLen, l4 := l2 + 34)
      ensures cmbuf.buf[..] == IPv4Frame(old(cmbuf.buf[..]), ether, l2 + EtherLen, totalLen, proto)
    {
      WriteEtherType(IPV4Number);
      ghost var be := cmbuf.buf[..];
      ParseL3();
      FillIPv4Default(totalLen, proto);
      IPv4DefaultsReads(be, l3, totalLen, proto);
      MinimalIPv4HdrLen(cmbuf.buf[..], l3);
      ParseL4ForIPv4();
    }

    /**
     * InitEmptyIPv4UDPPacket (packet/packet.go:643-662): IPv4 defaults for
     * UDP, L4 found from the written IHL, the datagram length 8 + plSize in
     * network order, and Data after the 8-byte UDP header.
     */
    method InitEmptyIPv4UDPPacket(plSize: u64, hwTxChecksum: bool) returns (ok: bool)
      requires ether + EtherLen <= cmbuf.buf.Length && l2 + 42 <= cmbuf.buf.Length
      modifies cmbuf, cmbuf.buf, this`l3, this`l4, this`data
      ensures Step(ok, cmbuf.Fields()) == AppendStep(old(cmbuf.Fields()), ToU64(plSize + 42))
      ensures State() == if ok then old(State()).(l3 := l2 + EtherLen, l4 := l2 + 34, data := l2 + 42)
                         else old(State())
      ensures cmbuf.buf[..] == if ok then IPv4UDPFrame(old(cmbuf.buf[..]), ether, l2, plSize, hwTxChecksum)
                               else old(cmbuf.buf[..])
    {
      ok := cmbuf.Append(ToU64(plSize + EtherLen + IPv4MinLen + UDPLen));
      if ok {
        WriteIPv4UDP(plSize, hwTxChecksum);
      }
    }

    /** The writes of InitEmptyIPv4UDPPacket once the room is appended (packet/packet.go:649-660). */
    method WriteIPv4UDP(plSize: u64, hwTxChecksum: bool)
      requires ether + EtherLen <= cmbuf.buf.Length && l2 + 42 <= cmbuf.buf.Length
      modifies cmbuf.buf, this`l3, this`l4, this`data
      ensures State() == old(State()).(l3 := l2 + EtherLen, l4 := l2 + 34, data := l2 + 42)
      ensures cmbuf.buf[..] == IPv4UDPFrame(old(cmbuf.buf[..]), ether, l2, plSize, hwTxChecksum)
    {
      data := l2 + EtherLen + IPv4MinLen + UDPLen;
      assert ToU16(IPv4MinLen + UDPLen + plSize) == ToU16(plSize + 28);
      WriteIPv4Headers(ToU16(IPv4MinLen + UDPLen + plSize), UDPNumber);
      ghost var bf := cmbuf.buf[..];
      assert ToU16(UDPLen + plSize) == ToU16(plSize + 8) && l4 + 4 == l2 + 38;
      Store16(cmbuf.buf, l4 + 4, SwapBytesUint16(ToU16(UDPLen + plSize)));
      ghost var bt := cmbuf.buf[..];
      assert bt == Put16(bf, l2 + 38, SwapBytesUint16(ToU16(plSize + 8)));
      ClearChecksumIfOffloaded(hwTxChecksum);
    }

    /**
     * InitEmptyIPv4ICMPPacket (packet/packet.go:668-681): IPv4 defaults for
     * ICMP, L4 found from the written IHL, Data after the 8-byte ICMP header.
     */
    method InitEmptyIPv4ICMPPacket(plSize: u64) returns (ok: bool)
      requires ether + EtherLen <= cmbuf.buf.Length && l2 + 42 <= cmbuf.buf.Length
      modifies cmbuf, cmbuf.buf, this`l3, this`l4, this`data
      ensures Step(ok, cmbuf.Fields()) == AppendStep(old(cmbuf.Fields()), ToU64(plSize + 42))
      ensures State() == if ok then old(State()).(l3 := l2 + EtherLen, l4 := l2 + 34, data := l2 + 42)
                         else old(State())
      ensures cmbuf.buf[..] == if ok then IPv4ICMPFrame(old(cmbuf.buf[..]), ether, l2, plSize)
                               else old(cmbuf.buf[..])
    {
      ok := cmbuf.Append(ToU64(plSize + EtherLen + IPv4MinLen + ICMPLen));
      if ok {
        WriteIPv4ICMP(plSize);
      }
    }

    /** The writes of InitEmptyIPv4ICMPPacket once the room is appended (packet/packet.go:674-679). */
    method WriteIPv4ICMP(plSize: u64)
      requires ether + EtherLen <= cmbuf.buf.Length && l2 + 42 <= cmbuf.buf.Length
      modifies cmbuf.buf, this`l3, this`l4, this`data
      ensures State() == old(State()).(l3 := l2 + EtherLen, l4 := l2 + 34, data := l2 + 42)
      ensures cmbuf.buf[..] == IPv4ICMPFrame(old(cmbuf.buf[..]), ether, l2, plSize)
    {
      data := l2 + EtherLen + IPv4MinLen + ICMPLen;
      assert ToU16(IPv4MinLen + ICMPLen + plSize) == ToU16(plSize + 28);
      WriteIPv4Headers(ToU16(IPv4MinLen + ICMPLen + plSize), ICMPNumber);
    }

    /**
     * InitEmptyIPv6TCPPacket (packet/packet.go:687-706): IPv6 defaults for
     * TCP with payload length 20 + plSize, L4 after the 40-byte header, a
     * TCP data offset of 5 words and Data after the TCP header.
     */
    method InitEmptyIPv6TCPPacket(plSize: u64) returns (ok: bool)
      requires ether + EtherLen <= cmbuf.buf.Length && l2 + 74 <= cmbuf.buf.Length
      modifies cmbuf, cmbuf.buf, this`l3, this`l4, this`data
      ensures Step(ok, cmbuf.Fields()) == AppendStep(old(cmbuf.Fields()), ToU64(plSize + 74))
      ensures State() == if ok then old(State()).(l3 := l2 + EtherLen, l4 := l2 + 54, data := l2 + 74)
                         else old(State())
      ensures cmbuf.buf[..] == if ok then IPv6TCPFrame(old(cmbuf.buf[..]), ether, l2, plSize)
                               else old(cmbuf.buf[..])
    {
      ok := cmbuf.Append(ToU64(plSize + EtherLen + IPv6Len + TCPMinLen));
      if ok {
        WriteIPv6TCP(plSize);
      }
    }

    /** The writes of InitEmptyIPv6TCPPacket once the room is appended (packet/packet.go:694-700). */
    method WriteIPv6TCP(plSize: u64)
      requires ether + EtherLen <= cmbuf.buf.Length && l2 + 74 <= cmbuf.buf.Length
      modifies cmbuf.buf, this`l3, this`l4, this`data
      ensures State() == old(State()).(l3 := l2 + EtherLen, l4 := l2 + 54, data := l2 + 74)
      ensures cmbuf.buf[..] == IPv6TCPFrame(old(cmbuf.buf[..]), ether, l2, plSize)
    {
      WriteEtherType(IPV6Number);
      l3 := l2 + EtherLen;
      assert ToU16(TCPMinLen + plSize) == ToU16(plSize + 20);
      FillIPv6Default(ToU16(TCPMinLen + plSize), TCPNumber);
      ghost var bf := cmbuf.buf[..];
      assert bf == IPv6Frame(old(cmbuf.buf[..]), ether, l2 + EtherLen, ToU16(plSize + 20), TCPNumber);
      l4 := l3 + IPv6Len;
      assert l4 + 12 == l2 + 66;
      SetTCPMinDataOffset();
    }

    /**
     * InitEmptyIPv6UDPPacket (packet/packet.go:712-730): IPv6 defaults for
     * UDP with payload length 8 + plSize, L4 after the 40-byte header, the
     * datagram length in network order, Data after the UDP header.
     */
    method InitEmptyIPv6UDPPacket(plSize: u64) returns (ok: bool)
      requires ether + EtherLen <= cmbuf.buf.Length && l2 + 62 <= cmbuf.buf.Length
      modifies cmbuf, cmbuf.buf, this`l3, this`l4, this`data
      ensures Step(ok, cmbuf.Fields()) == AppendStep(old(cmbuf.Fields()), ToU64(plSize + 62))
      ensures State() == if ok then old(State()).(l3 := l2 + EtherLen, l4 := l2 + 54, data := l2 + 62)
                         else old(State())
      ensures cmbuf.buf[..] == if ok then IPv6UDPFrame(old(cmbuf.buf[..]), ether, l2, plSize)
                               else old(cmbuf.buf[..])
    {
      ok := cmbuf.Append(ToU64(plSize + EtherLen + IPv6Len + UDPLen));
      if ok {
        WriteIPv6UDP(plSize);
      }
    }

    /** The writes of InitEmptyIPv6UDPPacket once the room is appended (packet/packet.go:718-724). */
    method WriteIPv6UDP(plSize: u64)
      requires ether + EtherLen <= cmbuf.buf.Length && l2 + 62 <= cmbuf.buf.Length
      modifies cmbuf.buf, this`l3, this`l4, this`data
      ensures State() == old(State()).(l3 := l2 + EtherLen, l4 := l2 + 54, data := l2 + 62)
      ensures cmbuf.buf[..] == IPv6UDPFrame(old(cmbuf.buf[..]), ether, l2, plSize)
    {
      WriteEtherType(IPV6Number);
      data := l2 + EtherLen + IPv6Len + UDPLen;
      l3 := l2 + EtherLen;
      assert ToU16(UDPLen + plSize) == ToU16(plSize + 8);
      FillIPv6Default(ToU16(UDPLen + plSize), UDPNumber);
      l4 := l3 + IPv6Len;
      assert l4 + 4 == l2 + 58;
      Store16(cmbuf.buf, l4 + 4, SwapBytesUint16(ToU16(UDPLen + plSize)));
    }

    /**
     * InitEmptyIPv6ICMPPacket (packet/packet.go:734-747): IPv6 defaults for
     * ICMPv6 with payload length 8 + plSize, L4 after the 40-byte header,
     * Data after the 8-byte ICMP header.
     */
    method InitEmptyIPv6ICMPPacket(plSize: u64) returns (ok: bool)
      requires ether + EtherLen <= cmbuf.buf.Length && l2 + 62 <= cmbuf.buf.Length
      modifies cmbuf, cmbuf.buf, this`l3, this`l4, this`data
      ensures Step(ok, cmbuf.Fields()) == AppendStep(old(cmbuf.Fields()), ToU64(plSize + 62))
      ensures State() == if ok then old(State()).(l3 := l2 + EtherLen, l4 := l2 + 54, data := l2 + 62)
                         else old(State())
      ensures cmbuf.buf[..] == if ok then IPv6ICMPFrame(old(cmbuf.buf[..]), ether, l2, plSize)
                               else old(cmbuf.buf[..])
    {
      ok := cmbuf.Append(ToU64(plSize + EtherLen + IPv6Len + ICMPLen));
      if ok {
        WriteIPv6ICMP(plSize);
      }
    }

    /** The writes of InitEmptyIPv6ICMPPacket once the room is appended (packet/packet.go:740-745). */
    method WriteIPv6ICMP(plSize: u64)
      requires ether + EtherLen <= cmbuf.buf.Length && l2 + 62 <= cmbuf.buf.Length
      modifies cmbuf.buf, this`l3, this`l4, this`data
      ensures State() == old(State()).(l3 := l2 + EtherLen, l4 := l2 + 54, data := l2 + 62)
      ensures cmbuf.buf[..] == IPv6ICMPFrame(old(cmbuf.buf[..]), ether, l2, plSize)
    {
      WriteEtherType(IPV6Number);
      data := l2 + EtherLen + IPv6Len + ICMPLen;
      l3 := l2 + EtherLen;
      FillIPv6Default(ToU16(ICMPLen + plSize), ICMPv6Number);
      l4 := l3 + IPv6Len;
    }

    /**
     * EncapsulateHead (packet/packet.go:795-804): prepend length bytes to
     * the mbuf, move Ether back by length, then for i below start copy the
     * byte at L2 + i + length to L2 + i. L2 itself is not moved, so the copy
     * works on the old frame start.
     */
    method EncapsulateHead(pkg: MbufPackage, start: nat, length: u64) returns (ok: bool)
      requires l2 + start + length <= cmbuf.buf.Length && length <= ether
      modifies cmbuf, cmbuf.buf, this`ether
      ensures Step(ok, cmbuf.Fields()) == PrependStep(old(cmbuf.Fields()), pkg.packetStructSize, length)
      ensures State() == if ok then old(State()).(ether := old(ether) - length) else old(State())
      ensures cmbuf.buf[..] == if ok then PulledDown(old(cmbuf.buf[..]), l2, start, length) else old(cmbuf.buf[..])
    {
      ok := cmbuf.Prepend(pkg.packetStructSize, length);
      if !ok {
        return;
      }
      ether := ether - length;
      PullDown(cmbuf.buf, l2, start, length);
    }

    /**
     * EncapsulateHead with L2 moved back together with Ether, so that the
     * first start bytes land at the new frame start.
     */
    method EncapsulateHeadAtNewStart(pkg: MbufPackage, start: nat, length: u64) returns (ok: bool)
      requires l2 + start <= cmbuf.buf.Length && length <= ether && length <= l2
      modifies cmbuf, cmbuf.buf, this`ether, this`l2
      ensures Step(ok, cmbuf.Fields()) == PrependStep(old(cmbuf.Fields()), pkg.packetStructSize, length)
      ensures State() == if ok then old(State()).(ether := old(ether) - length, l2 := old(l2) - length)
                         else old(State())
      ensures cmbuf.buf[..] == if ok then PulledDown(old(cmbuf.buf[..]), l2, start, length) else old(cmbuf.buf[..])
    {
      ok := cmbuf.Prepend(pkg.packetStructSize, length);
      if !ok {
        return;
      }
      ether := ether - length;
      l2 := l2 - length;
      PullDown(cmbuf.buf, l2, start, length);
    }

    /**
     * EncapsulateTail (packet/packet.go:810-819): append length bytes, then
     * for i from the new packet length - 1 down to start + length copy the
     * byte at L2 + i - length to L2 + i.
     */
    method EncapsulateTail(start: nat, length: u64) returns (ok: bool)
      requires l2 + cmbuf.pktLen + length <= cmbuf.buf.Length
      modifies cmbuf, cmbuf.buf
      ensures Step(ok, cmbuf.Fields()) == AppendStep(old(cmbuf.Fields()), length)
      ensures cmbuf.buf[..] == if ok then EncapsulatedTail(old(cmbuf.buf[..]), l2, start, length, cmbuf.pktLen)
                               else old(cmbuf.buf[..])
    {
      ghost var m := cmbuf.Fields();
      ok := cmbuf.Append(length);
      if !ok {
        return;
      }
      AppendLengthBound(m, length);
      ShiftTailUp(start, length);
    }

    /** The copy loop of EncapsulateTail (packet/packet.go:814-817), over the appended packet length. */
    method ShiftTailUp(start: nat, length: u64)
      requires l2 + cmbuf.pktLen <= cmbuf.buf.Length
      modifies cmbuf.buf
      ensures cmbuf.buf[..] == EncapsulatedTail(old(cmbuf.buf[..]), l2, start, length, cmbuf.pktLen)
    {
      var packetLength := cmbuf.pktLen;
      if start + length < packetLength {
        PushUp(cmbuf.buf, l2 + start, packetLength - start - length, length);
      }
    }

    /**
     * DecapsulateHead (packet/packet.go:826-835): remove length bytes at the
     * head of the mbuf, for i from start - 1 down to 0 copy the byte at
     * L2 + i to L2 + i + length, then move Ether on by length.
     */
    method DecapsulateHead(start: nat, length: u64) returns (ok: bool)
      requires l2 + start + length <= cmbuf.buf.Length
      modifies cmbuf, cmbuf.buf, this`ether
      ensures Step(ok, cmbuf.Fields()) == AdjStep(old(cmbuf.Fields()), length)
      ensures State() == if ok then old(State()).(ether := old(ether) + length) else old(State())
      ensures cmbuf.buf[..] == if ok then PushedUp(old(cmbuf.buf[..]), l2, start, length) else old(cmbuf.buf[..])
    {
      ok := cmbuf.Adj(length);
      if !ok {
        return;
      }
      PushUp(cmbuf.buf, l2, start, length);
      ether := ether + length;
    }

    /**
     * DecapsulateTail (packet/packet.go:841-850): remove length bytes at the
     * tail, then for i from start up to the old packet length copy the byte
     * at L2 + i + length to L2 + i. The last length reads lie past the old
     * end of the packet; they must still lie in the buffer.
     */
    method DecapsulateTail(start: nat, length: u64) returns (ok: bool)
      requires l2 + cmbuf.pktLen + length <= cmbuf.buf.Length
      modifies cmbuf, cmbuf.buf
      ensures Step(ok, cmbuf.Fields()) == TrimStep(old(cmbuf.Fields()), length)
      ensures cmbuf.buf[..] == if ok then DecapsulatedTail(old(cmbuf.buf[..]), l2, start, length, old(cmbuf.pktLen))
                               else old(cmbuf.buf[..])
    {
      var packetLength := cmbuf.pktLen;
      ok := cmbuf.Trim(length);
      if !ok {
        return;
      }
      if start < packetLength {
        PullDown(cmbuf.buf, l2 + start, packetLength - start, length);
      }
    }

    /**
     * PacketBytesChange (packet/packet.go:854-863): refuse a range that
     * ends past the packet length; otherwise write the bytes from
     * L2 + start on. The guard is BytesChangeFits, which cannot wrap; the
     * Go guard, BytesChangeAcceptedAsWritten, can.
     */
    method PacketBytesChange(start: u64, bytes: seq<u8>) returns (ok: bool)
      requires l2 + cmbuf.pktLen <= cmbuf.buf.Length
      requires |bytes| < 0x1_0000_0000_0000_0000
      modifies cmbuf.buf
      ensures ok <==> start + |bytes| <= cmbuf.pktLen
      ensures cmbuf.buf[..] == if ok then Overwritten(old(cmbuf.buf[..]), l2 + start, bytes) else old(cmbuf.buf[..])
    {
      if !BytesChangeFits(start, |bytes|, cmbuf.pktLen) {
        return false;
      }
      Overwrite(cmbuf.buf, l2 + start, bytes);
      return true;
    }
  }
}
