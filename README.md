# go-dpdk packet core, modelled in Dafny

This project models the sequential logic of go-dpdk, the Go bindings for the
DPDK packet-processing framework, and proves what that logic promises:

- **Checksums** (`packet/checksum.go`):
  - the one's-complement folding of `reduceChecksum`;
  - the big-endian word sum of `calculateDataChecksum`;
  - the IPv4 header checksum;
  - the TCP/UDP pseudo-header sums;
  - the six transport checksums for IPv4/IPv6 with TCP, UDP and ICMP.
  Each is proved equal to the RFC 1071 Internet checksum of a byte sequence built from the encoded headers. That sequence is the pseudo-header, the header with its checksum field zeroed, and a payload prefix whose length comes from the source's own length arithmetic. It is the byte set the RFCs name only when the IPv4 header is the plain 20-byte one and the length fields agree with each other (see the differences below). A stored checksum makes the receiver's recomputation over the same bytes come out zero.
- **The header cursor** (`packet/packet.go`). A `Packet` is a class holding offsets into the data room of its mbuf. Nil is offset 0.
  - The parsers `ParseL2`/`ParseL3`/`ParseL4*`, the guarded `Get*` accessors, `ParseAllKnown*`, `ParseData` and one level of `VxlanDecap`.
  - The `InitEmpty*Packet` initialisers.
  - The byte movers `EncapsulateHead`/`EncapsulateTail`/`DecapsulateHead`/`DecapsulateTail` and `PacketBytesChange`.
  Header fields are stored the way Go lays a struct over the frame on a little-endian host. `SwapBytes*` converts between host and network order.
- **mbuf length bookkeeping** (`mbuf/mbuf.go`):
  - `PrependMbuf`, `AppendMbuf`, `AdjMbuf` and `TrimMbuf` over `buf_len`, `data_off`, `data_len` and `pkt_len`, with Go's truncating conversions written out;
  - `HeadRoomSize` and `TailRoomSize`;
  - the package-level `SetPacketStructSize`.
- **lcores and queues** (`app/test-sniffer/lcores.go`):
  - `dissectLcores` groups lcores by NUMA socket;
  - `distributeQueuesPort`/`DistributeQueues` hand each RX queue an lcore from its port's socket pool;
  - the echo-reply rewrite applied to every received packet.
- **Bit scans** (`app/test-sniffer/port.go`): `ctzll`, `clzll`, and the list of set-bit values that `printTXOffloads` prints.
- **Common helpers** (`common/common.go`): errno normalisation, `IntErr`, `IntOrErr`, `IntToErr`, and the sequential behaviour of `DoOnce`.
- **The VXLAN flow item** (`ethdev/flow/item_vxlan2.go`): the 24-bit big-endian VNI store of the C helper `encap`, `Reload` and `Type`.

Where the Go code and its prose description differ, the model follows the code:

- `VxlanDecap` on a frame that is not VXLAN does move the pointers. It clears `Overlay`, puts L2 at the start of the mbuf data and L3 after the Ethernet header. For an outer IPv4 frame it also sets L4. See `PacketProofs.VxlanRejects`.
- It can also return -1 with `Overlay` already true, when the inner frame is IPv4 or IPv6 with an unknown transport. See `PacketProofs.VxlanAccepts`.
- An inner frame that is neither IPv4, ARP nor IPv6 (a VLAN tag, say) returns 0 with Data at 8. The outer UDP header is still taken as the inner transport, and L4 is nil. See Findings.
- `CalculateIPv4Checksum` sums only the 20-byte fixed header, so IPv4 options are not covered.
- The IPv4 transport checksums take the payload length as `TotalLength - 20`, whatever the IHL. For UDP and ICMP they subtract a further 8, so the UDP payload summed does not depend on `DgramLen`.
- The IPv4 and IPv6 UDP checksums put `DgramLen` into the pseudo-header but take the payload length from `TotalLength` or `PayloadLen`. The two agree only when the UDP length field matches the IP length field.

## Model

| member | source | states |
|---|---|---|
| OnesComplement.ReduceChecksum | packet/checksum.go:80-85 | The loop that adds the upper half of the sum to its lower half ends with the 16-bit one's-complement value of the input, `Folded(sum)`. |
| OnesComplement.FoldedResidue | packet/checksum.go:80-85 | The fold preserves the sum modulo 0xFFFF. It is zero only for a zero sum. It leaves a sum of at most 0xFFFF unchanged. |
| OnesComplement.FoldedDetermined | packet/checksum.go:80-85 | Two sums with the same residue that are both zero or both nonzero fold to the same value. |
| OnesComplement.FoldStep | packet/checksum.go:81-83 | One loop step strictly shrinks a sum above 0xFFFF and keeps its fold, so the loop terminates. |
| OnesComplement.FoldedAbsorbs | packet/checksum.go:80-85 | Folding part of a sum in advance does not change the fold of the whole. |
| OnesComplement.VerificationLaw | packet/checksum.go:100 | A sum plus the complement of its fold folds to 0xFFFF, so the receiver's complement is 0. |
| WordSums.WordSumConcat | packet/checksum.go:64-78 | The word sum of an even-length block followed by more bytes is the sum of the two word sums. |
| WordSums.WordSumBound | packet/checksum.go:64-78 | n bytes sum to at most 0xFFFF times the number of words they make. |
| WordSums.DataSumNoWrap | packet/checksum.go:64-78 | With at most 0xFFFF bytes the uint32 accumulator never wraps, so the result is the plain word sum. |
| WordSums.WordSumPrefixWord | packet/checksum.go:68-71 | Each loop iteration adds the byte-swapped host load of the next two bytes, which is their big-endian word. |
| WordSums.WordSumPrefixByte | packet/checksum.go:73-75 | An odd final byte counts as the high byte of a zero-padded word, as section 4.1 of RFC 1071 specifies. |
| WordSums.DataChecksum | packet/checksum.go:64-78 | Returns the uint32-wrapped word sum of the first `length` bytes. |
| WordSums.IPv4Layout | packet/checksum.go:90-98 | The 20 header bytes are the ten words before the checksum, the checksum field, and the words after it. |
| WordSums.IPv4HeadWords | packet/checksum.go:90-94 | The words before the checksum are the fields the source adds, each byte-swapped. |
| WordSums.TCPLayout | packet/checksum.go:132-143 | The TCP header bytes are the head, the checksum field and the urgent pointer. |
| WordSums.TCPHeadWords | packet/checksum.go:132-143 | The head's words are the ports, both halves of the sequence and acknowledgement numbers, offset and flags, and the window, each byte-swapped. |
| WordSums.ICMPLayout | packet/checksum.go:218-227 | An ICMP header's words are type/code, the checksum, the identifier and the sequence number. |
| WordSums.UDPLayout | packet/checksum.go:119-121 | A UDP header's words are the ports, the length and the checksum. |
| Checksum.IPv4AddrSum | packet/checksum.go:103-108 | The four address words are at most 4 x 0xFFFF, so the uint32 sum cannot wrap. |
| Checksum.IPv4HeaderSum | packet/checksum.go:90-98 | The ten header words are at most 10 x 0xFFFF. |
| Checksum.IPv6AddrSum | packet/checksum.go:161-178 | The sixteen address words are at most 16 x 0xFFFF. |
| Checksum.TCPHeaderSum | packet/checksum.go:132-143 | The nine TCP header words are at most 9 x 0xFFFF. |
| Checksum.UDPZeroRule | packet/checksum.go:123-129 | Never 0. Any nonzero checksum is kept; 0 is sent as 0xFFFF (RFC 768). |
| Checksum.CalculateIPv4UDPChecksum | packet/checksum.go:111-130 | The UDP checksum over IPv4 is never 0. |
| Checksum.CalculateIPv6UDPChecksum | packet/checksum.go:181-200 | The UDP checksum over IPv6 is never 0. |
| ChecksumProofs.IPv4AddrSumCovers | packet/checksum.go:103-108 | The address sum is the word sum of the source and destination address bytes as they lie in the header. |
| ChecksumProofs.IPv4HeaderSumCovers | packet/checksum.go:88-101 | The ten words CalculateIPv4Checksum adds are those of the header with a zero checksum field. |
| ChecksumProofs.IPv4ChecksumCovers | packet/checksum.go:88-101 | CalculateIPv4Checksum is the Internet checksum of the 20-byte header with a zero checksum field. |
| ChecksumProofs.IPv4ChecksumVerifies | packet/checksum.go:88-101 | Storing the result byte-swapped makes the whole header's Internet checksum 0 (section 3.1 of RFC 791). |
| ChecksumProofs.IPv4SumsSymmetric | packet/checksum.go:95-108 | Exchanging source and destination leaves calculateIPv4AddrChecksum and CalculateIPv4Checksum unchanged. |
| ChecksumProofs.IPv6AddrSumCovers | packet/checksum.go:161-178 | The IPv6 address sum is the word sum of both 16-byte addresses. |
| ChecksumProofs.IPv6AddrSumSymmetric | packet/checksum.go:161-178 | Exchanging the IPv6 addresses leaves their sum unchanged. |
| ChecksumProofs.TCPHeaderSumCovers | packet/checksum.go:132-143 | calculateTCPChecksum adds the words of the TCP header with a zero checksum field. |
| ChecksumProofs.UDPHeaderSumCovers | packet/checksum.go:119-121 | The UDP header words added are those of the header with a zero checksum field. |
| ChecksumProofs.ICMPHeaderSumCovers | packet/checksum.go:221-224 | The ICMP header words added are those of the header with a zero checksum field. |
| ChecksumProofs.PseudoHdrIPv4TCPCovers | packet/checksum.go:15-21 | The result is the folded, uncomplemented word sum of the RFC 793 pseudo-header. Its length is `TotalLength - 20` in uint16. |
| ChecksumProofs.PseudoHdrIPv4UDPCovers | packet/checksum.go:27-32 | The same for UDP over IPv4, with the length `DgramLen`. |
| ChecksumProofs.PseudoHdrIPv6TCPCovers | packet/checksum.go:38-44 | The folded sum of the section 8.1 of RFC 8200 pseudo-header, with the length `PayloadLen`. |
| ChecksumProofs.PseudoHdrIPv6UDPCovers | packet/checksum.go:50-55 | The same for UDP over IPv6, with the length `DgramLen`. |
| ChecksumProofs.IPv4UDPSumValue | packet/checksum.go:111-122 | No uint32 addition of the IPv4 UDP sum wraps. The sum is addresses + protocol + length + UDP header + payload words. |
| ChecksumProofs.IPv6UDPSumValue | packet/checksum.go:181-192 | No uint32 addition of the IPv6 UDP sum wraps. The sum is the plain total of its parts. |
| ChecksumProofs.IPv4TCPSumValue | packet/checksum.go:148-157 | No uint32 addition of the IPv4 TCP sum wraps. The sum is the plain total of its parts. |
| ChecksumProofs.IPv6TCPSumValue | packet/checksum.go:203-212 | No uint32 addition of the IPv6 TCP sum wraps. The sum is the plain total of its parts. |
| ChecksumProofs.IPv4ICMPSumValue | packet/checksum.go:218-225 | The ICMPv4 sum is the header words plus the `TotalLength - 28` payload words. No addresses are included. |
| ChecksumProofs.IPv6ICMPSumValue | packet/checksum.go:231-244 | The ICMPv6 sum is the pseudo-header fields, the header words and the payload words. |
| ChecksumProofs.IPv4UDPChecksumCovers | packet/checksum.go:111-130 | The result is the Internet checksum of pseudo-header, zero-checksum UDP header and payload, with the zero rule applied. |
| ChecksumProofs.IPv6UDPChecksumCovers | packet/checksum.go:181-200 | The same over the IPv6 pseudo-header (length `DgramLen`, next header `Proto`). |
| ChecksumProofs.IPv4TCPChecksumCovers | packet/checksum.go:148-159 | The plain complement, with no zero rule, over pseudo-header, zero-checksum TCP header and payload. |
| ChecksumProofs.IPv6TCPChecksumCovers | packet/checksum.go:203-214 | The same over the IPv6 pseudo-header with length `PayloadLen`. |
| ChecksumProofs.IPv4ICMPChecksumCovers | packet/checksum.go:218-227 | The plain complement over the zero-checksum ICMP header and `TotalLength - 28` payload bytes, with no pseudo-header. |
| ChecksumProofs.IPv6ICMPChecksumCovers | packet/checksum.go:231-246 | The plain complement over the IPv6 pseudo-header, the ICMP header and the payload (section 2.3 of RFC 4443). |
| ChecksumProofs.StoredChecksumVerifies | packet/checksum.go:100 | A checksum stored byte-swapped into a host-order field makes the recomputed checksum 0. |
| ChecksumProofs.ZeroRuleVerifies | packet/checksum.go:123-129 | A UDP checksum sent as 0xFFFF instead of 0 still makes the recomputed checksum 0. |
| ChecksumProofs.IPv4UDPChecksumVerifies | packet/checksum.go:111-130 | With the computed checksum stored, the IPv4 pseudo-header, datagram and payload check to 0. |
| ChecksumProofs.IPv6UDPChecksumVerifies | packet/checksum.go:181-200 | With the computed checksum stored, the IPv6 pseudo-header, datagram and payload check to 0. |
| ChecksumProofs.IPv4ICMPChecksumVerifies | packet/checksum.go:218-227 | With the computed checksum stored, the ICMP message checks to 0. |
| ChecksumProofs.OffloadLaw | packet/checksum.go:15-21 | Seeding a sum with a folded pseudo-header sum gives the same checksum as the unfolded total. |
| ChecksumProofs.IPv4TCPOffloadAgrees | packet/checksum.go:15-21 | With `CalculatePseudoHdrIPv4TCPCksum` stored in the TCP checksum field, the checksum of the segment alone equals CalculateIPv4TCPChecksum. This is what a NIC offload computes. |
| ChecksumProofs.IPv6TCPOffloadAgrees | packet/checksum.go:38-44 | The same agreement for TCP over IPv6. |
| PacketHeaders.SwapBytesUint16Involution | packet/packet.go:750-752 | `SwapBytesUint16` applied twice is the identity. |
| PacketHeaders.SwapBytesUint32Involution | packet/packet.go:755-757 | `SwapBytesUint32` applied twice is the identity. |
| PacketHeaders.SwapBytesIPv4AddrInvolution | packet/packet.go:759-761 | `SwapBytesIPv4Addr` applied twice is the identity. |
| PacketHeaders.SwapOfLoadIsBigEndian | packet/packet.go:750-752 | Swapping a little-endian host load of two frame bytes gives their network-order value, and conversely. |
| PacketHeaders.EtherRoundTrip | packet/packet.go:31-35 | Decoding encoded Ethernet bytes gives the header back, and encoding decoded bytes gives the bytes back. |
| PacketHeaders.IPv4RoundTrip | packet/packet.go:66-77 | The same two-way round trip for the IPv4 header. |
| PacketHeaders.IPv6RoundTrip | packet/packet.go:87-94 | The same two-way round trip for the IPv6 header. |
| PacketHeaders.TCPRoundTrip | packet/packet.go:104-114 | The same two-way round trip for the TCP header. |
| PacketHeaders.UDPRoundTrip | packet/packet.go:124-129 | The same two-way round trip for the UDP header. |
| PacketHeaders.ICMPRoundTrip | packet/packet.go:139-145 | The same two-way round trip for the ICMP header. |
| Packets.IPv4HdrLen | packet/packet.go:333-335 | `(VersionIhl & 0x0F) * 4` is a multiple of 4 and at most 60. |
| Packets.TCPHdrLen | packet/packet.go:470-484 | `(DataOff & 0xF0) >> 2` is a multiple of 4 and at most 60. |
| Packets.Packet.constructor | packet/packet.go:177-198 | A new Packet over an mbuf has every pointer nil and Overlay false. |
| Packets.Packet.ParseL2 | packet/packet.go:268-270 | L2 becomes the start of the mbuf data. Nothing else changes. |
| Packets.Packet.StartAtOffset | packet/packet.go:282-285 | Offsets count from L2 (the quirk the head movers inherit). |
| Packets.Packet.ParseL3 | packet/packet.go:288-290 | L3 becomes L2 + 14, whatever the EtherType. |
| Packets.Packet.GetIPv4 | packet/packet.go:293-298 | Present, and equal to L3, exactly when the frame's EtherType bytes are 08 00. |
| Packets.Packet.GetARP | packet/packet.go:306-311 | Present, and equal to L3, exactly when the EtherType bytes are 08 06. |
| Packets.Packet.GetIPv6 | packet/packet.go:319-324 | Present, and equal to L3, exactly when the EtherType bytes are 86 DD. |
| Packets.Packet.ParseL4ForIPv4 | packet/packet.go:333-335 | L4 becomes L3 + IHL x 4. Nothing else changes. |
| Packets.Packet.ParseL4ForIPv6 | packet/packet.go:338-340 | L4 becomes L3 + 40. |
| Packets.Packet.ParseAllKnownL3 | packet/packet.go:408-418 | Sets L3. Each header is returned exactly when its EtherType matches, so at most one is returned. |
| Packets.Packet.ParseAllKnownL4ForIPv4 | packet/packet.go:421-431 | Sets L4 from the IHL. UDP/TCP/ICMP is returned exactly when NextProtoID is 17/6/1, so at most one is returned. |
| Packets.Packet.ParseAllKnownL4ForIPv6 | packet/packet.go:434-444 | Sets L4 = L3 + 40. TCP/UDP/ICMPv6 is returned exactly when the next header is 6/17/58. |
| Packets.Packet.ParseL7 | packet/packet.go:447-458 | For TCP, Data is L4 plus the TCP header length. For UDP, ICMP and ICMPv6 it is L4 + 8. Any other protocol leaves Data as it was. |
| Packets.Packet.ParseL4AndData | packet/packet.go:470-484 | Returns 0 exactly for a known transport. L4 and Data are set as ParseData sets them. |
| Packets.Packet.ParseData | packet/packet.go:463-485 | The return code and pointers are those of the byte-level specification `ParseDataSpec`. |
| PacketProofs.EtherTypeIs | packet/packet.go:293-298 | Comparing the host-loaded EtherType with a swapped constant is comparing the network-order bytes with the constant. |
| PacketProofs.ParseDataMeaning | packet/packet.go:463-485 | Returns 0 exactly for IPv4 with TCP/UDP/ICMP or IPv6 with TCP/UDP/ICMPv6, and otherwise -1. L3 = L2 + 14, L3 <= L4 <= Data on success, and the other pointers are unchanged. |
| PacketProofs.ParseDataIdempotent | packet/packet.go:463-485 | Parsing twice gives the same code and pointers as parsing once. |
| Packets.Packet.ParseOuter | packet/packet.go:211-231 | Reports VXLAN exactly for the frames of `VxlanDetected`, and leaves the pointers a rejected frame keeps. |
| Packets.MovedInside | packet/packet.go:233-243 | The outer pointers take the old L2/L3/L4. The VXLAN header is at OuterL4 + 8 and the inner L2 at VXLAN header + 8. Overlay is set. |
| Packets.Packet.MoveInside | packet/packet.go:233-243 | The new pointers are `MovedInside` of the old ones. |
| Packets.Packet.KeepOuterHeaders | packet/packet.go:233-237 | Sets Overlay and the outer Ether/IPv4/UDP header pointers, with the VXLAN header at L4 + 8. |
| Packets.Packet.KeepOuterLayers | packet/packet.go:238-240 | OuterL2/L3/L4 take L2/L3/L4. |
| Packets.VxlanRejected | packet/packet.go:211-231 | A rejected frame is left with L2 at data_off and L3 at data_off + 14. For an IPv4 outer frame, L4 is within the outer IPv4 header's reach. |
| Packets.VxlanOuter | packet/packet.go:233-243 | The inner frame lies inside the bytes VxlanDecap may read. |
| Packets.Packet.VxlanDecap | packet/packet.go:201-266 | Code and pointers are those of `VxlanDecapSpec`, the code as written, including the stale outer UDP header for an inner frame of unknown EtherType. |
| PacketProofs.VxlanDetectedMeaning | packet/packet.go:211-231 | VXLAN is detected exactly for outer EtherType 0x0800, protocol 17 and UDP destination port 4789 in network order. |
| PacketProofs.VxlanRejects | packet/packet.go:211-231 | Any other frame returns -1 with Overlay false, L2 at data_off and L3 after the Ethernet header. Data and the outer pointers are untouched. |
| PacketProofs.VxlanAccepts | packet/packet.go:233-265 | The outer pointers are the outer headers, and the inner L2 is OuterL4 + 16. The result is 0 exactly for an inner ARP frame, an inner frame that is neither IPv4 nor IPv6, or a frame ParseData accepts; otherwise -1 with Overlay still true. For the middle case L4 is nil and Data is 8. |
| PacketProofs.VxlanIntendedAccepts | packet/packet.go:244-262 | For the intended decapsulation the outer pointers and inner L2 are the same, and the result is 0 exactly for an inner ARP frame or a frame ParseData accepts. |
| PacketProofs.VxlanDecapDiffers | packet/packet.go:244-262 | The code and the intended decapsulation agree on every frame except VXLAN with an inner EtherType other than IPv4, ARP and IPv6. There the code returns 0 and the intended one -1. |
| PacketProofs.VxlanVlanCounterexample | packet/packet.go:244-262 | A VXLAN frame whose inner frame is VLAN-tagged (0x8100) gets 0 with Data 8 from the code, and -1 from the intended decapsulation. |
| PacketBytes.Put16Reads | packet/packet.go:546-551 | A 16-bit field store writes its two bytes, low byte first, and nothing else. |
| PacketBytes.EtherTypedReads | packet/packet.go:569 | The EtherType written with `SwapBytesUint16` reads back in network order. No other byte changes. |
| PacketBytes.IPv4DefaultsReads | packet/packet.go:546-551 | Writes version 4 with a 5-word header, the total length in network order, TTL 64 and the protocol, and no other byte. |
| PacketBytes.IPv6DefaultsReads | packet/packet.go:553-558 | Writes version 6 with zero class and flow, the payload length in network order, the next header and hop limit 255, and nothing outside the first 8 header bytes. |
| PacketBytes.ChecksumClearedReads | packet/packet.go:576-579 | With the checksum offloaded, the header checksum reads 0. No other byte changes. |
| Packets.Packet.WriteEtherType | packet/packet.go:569 | The frame after the store is `EtherTyped` of the old frame. |
| Packets.Packet.FillIPv4Default | packet/packet.go:546-551 | The frame after the stores is `IPv4Defaults` of the old frame. |
| Packets.Packet.FillIPv6Default | packet/packet.go:553-558 | The frame after the stores is `IPv6Defaults` of the old frame. |
| Packets.Packet.InitEmptyPacket | packet/packet.go:536-544 | The mbuf step is AppendMbuf of plSize + 14. On success Data is L2 + 14; on failure nothing changes. |
| Packets.Packet.InitEmptyIPv4Packet | packet/packet.go:562-581 | Appends plSize + 34 bytes. On success it writes the IPv4 EtherType, the IPv4 defaults with no next header, and a zero checksum when offloaded. On failure nothing changes. |
| Packets.Packet.InitEmptyIPv6Packet | packet/packet.go:585-597 | Appends plSize + 54 bytes. On success it writes the IPv6 EtherType and defaults. On failure nothing changes. |
| Packets.Packet.InitEmptyARPPacket | packet/packet.go:600-610 | Appends 42 bytes. On success it writes the ARP EtherType and sets L3. On failure nothing changes. |
| Packets.Packet.InitEmptyIPv4TCPPacket | packet/packet.go:616-637 | Appends plSize + 54 bytes. On success the frame is `IPv4TCPFrame`, with L3/L4/Data at L2 + 14/34/54. On failure nothing changes. |
| Packets.Packet.WriteIPv4TCP | packet/packet.go:624-635 | The writes after a successful append leave `IPv4TCPFrame`. |
| Packets.Packet.WriteIPv4Headers | packet/packet.go:624-627 | Writes the IPv4 EtherType and defaults, with L3 = L2 + 14 and L4 = L2 + 34. |
| Packets.Packet.SetTCPMinDataOffset | packet/packet.go:629-630 | Writes DataOff 0x50 and sets Data = L4 + 20. |
| Packets.Packet.ClearChecksumIfOffloaded | packet/packet.go:632-635 | Zeroes HdrChecksum exactly when the checksum is offloaded. |
| Packets.Packet.InitEmptyIPv4UDPPacket | packet/packet.go:643-662 | Appends plSize + 42 bytes. On success the frame is `IPv4UDPFrame`, with L3/L4/Data at L2 + 14/34/42. On failure nothing changes. |
| Packets.Packet.WriteIPv4UDP | packet/packet.go:649-660 | The writes after the append leave `IPv4UDPFrame`. |
| Packets.Packet.InitEmptyIPv4ICMPPacket | packet/packet.go:668-681 | Appends plSize + 42 bytes. On success the frame is `IPv4ICMPFrame`. On failure nothing changes. |
| Packets.Packet.WriteIPv4ICMP | packet/packet.go:674-679 | The writes after the append leave `IPv4ICMPFrame`. |
| Packets.Packet.InitEmptyIPv6TCPPacket | packet/packet.go:687-706 | Appends plSize + 74 bytes. On success the frame is `IPv6TCPFrame`, with L3/L4/Data at L2 + 14/54/74. On failure nothing changes. |
| Packets.Packet.WriteIPv6TCP | packet/packet.go:694-700 | The writes after the append leave `IPv6TCPFrame`. |
| Packets.Packet.InitEmptyIPv6UDPPacket | packet/packet.go:712-730 | Appends plSize + 62 bytes. On success the frame is `IPv6UDPFrame`. On failure nothing changes. |
| Packets.Packet.WriteIPv6UDP | packet/packet.go:718-724 | The writes after the append leave `IPv6UDPFrame`. |
| Packets.Packet.InitEmptyIPv6ICMPPacket | packet/packet.go:734-747 | Appends plSize + 62 bytes. On success the frame is `IPv6ICMPFrame`. On failure nothing changes. |
| Packets.Packet.WriteIPv6ICMP | packet/packet.go:740-745 | The writes after the append leave `IPv6ICMPFrame`. |
| PacketBytes.IPv4TCPFrameReads | packet/packet.go:616-637 | The frame reads back as IPv4 with IHL 5, total length 40 + plSize, TTL 64, protocol TCP and DataOff 0x50, with a zero checksum when offloaded. |
| PacketBytes.IPv4UDPFrameReads | packet/packet.go:643-662 | The frame reads back as IPv4 with total length 28 + plSize, protocol UDP and datagram length 8 + plSize. |
| PacketBytes.IPv4ICMPFrameReads | packet/packet.go:668-681 | The frame reads back as IPv4 with total length 28 + plSize and protocol ICMP. |
| PacketBytes.IPv6TCPFrameReads | packet/packet.go:687-706 | The frame reads back as IPv6 with payload length 20 + plSize, next header TCP, hop limit 255 and DataOff 0x50. |
| PacketBytes.IPv6UDPFrameReads | packet/packet.go:712-730 | The frame reads back as IPv6 with payload length 8 + plSize, next header UDP and datagram length 8 + plSize. |
| PacketBytes.IPv6ICMPFrameReads | packet/packet.go:734-747 | The frame reads back as IPv6 with payload length 8 + plSize and next header ICMPv6. |
| PacketProofs.IPv4FrameParses | packet/packet.go:463-485 | ParseData on an IPv4 frame with IHL 5 carrying TCP (DataOff 0x50), UDP or ICMP returns 0 with L3/L4/Data at L2 + 14, L2 + 34 and after the transport header. |
| PacketProofs.IPv6FrameParses | packet/packet.go:463-485 | The same for IPv6 carrying TCP, UDP or ICMPv6, with L4 at L2 + 54. |
| PacketProofs.InitIPv4TCPParses | packet/packet.go:616-637 | ParseData on the frame InitEmptyIPv4TCPPacket writes finds L3/L4/Data where the initialiser set them. |
| PacketProofs.InitIPv4UDPParses | packet/packet.go:643-662 | The same for InitEmptyIPv4UDPPacket. |
| PacketProofs.InitIPv4ICMPParses | packet/packet.go:668-681 | The same for InitEmptyIPv4ICMPPacket. |
| PacketProofs.InitIPv6TCPParses | packet/packet.go:687-706 | The same for InitEmptyIPv6TCPPacket. |
| PacketProofs.InitIPv6UDPParses | packet/packet.go:712-730 | The same for InitEmptyIPv6UDPPacket. |
| PacketProofs.InitIPv6ICMPParses | packet/packet.go:734-747 | The same for InitEmptyIPv6ICMPPacket. |
| PacketBytes.PullDown | packet/packet.go:800-802 | The ascending copy loop leaves `PulledDown`: each byte of the block takes the old byte `dist` later. |
| PacketBytes.PulledDownReads | packet/packet.go:800-802 | Byte by byte, `PulledDown` reads the old byte `dist` later inside the block, and the old byte outside it. |
| PacketBytes.PushUp | packet/packet.go:830-832 | The descending copy loop leaves `PushedUp`: each byte of the target block takes the old byte `dist` earlier. |
| PacketBytes.PushedUpReads | packet/packet.go:830-832 | Byte by byte, `PushedUp` reads the old byte `dist` earlier inside the target block, and the old byte outside it. |
| PacketBytes.Overwrite | packet/packet.go:859-861 | The copy loop leaves `Overwritten`. |
| PacketBytes.OverwrittenReads | packet/packet.go:854-863 | The written range reads back as the bytes given. Every other byte is unchanged. |
| PacketBytes.OverwrittenUndone | packet/packet.go:854-863 | Writing back the replaced bytes restores the frame. |
| Packets.Packet.PacketBytesChange | packet/packet.go:854-863 | Succeeds exactly when start + length, computed without the uint wrap, is at most the packet length. It then replaces exactly that range; on failure it writes nothing. |
| PacketProofs.BytesChangeGuardWraps | packet/packet.go:855-857 | The overflow-free guard holds exactly when the range ends inside the packet. It agrees with the Go uint guard whenever start + length is below 2^64. Past that, the Go guard accepts every range whose wrapped end lies inside the packet, though none of them fits. |
| PacketProofs.BytesChangeGuardCounterexample | packet/packet.go:855-857 | One byte at start 2^64 - 1 passes the Go guard of an empty packet, but does not fit it. |
| Packets.Packet.EncapsulateTail | packet/packet.go:810-819 | The mbuf step is AppendMbuf. On success the frame is `EncapsulatedTail` over the new length; on failure nothing changes. |
| Packets.Packet.ShiftTailUp | packet/packet.go:814-817 | The descending loop over the new packet length leaves `EncapsulatedTail`. |
| PacketBytes.EncapsulatedTailMoves | packet/packet.go:810-819 | Bytes before start + length are kept. The old bytes from start to the old end move up by `length`. |
| Packets.Packet.DecapsulateTail | packet/packet.go:841-850 | The mbuf step is TrimMbuf. On success the frame is `DecapsulatedTail`, which reads up to the old length plus `length`. |
| PacketBytes.DecapsulatedTailMoves | packet/packet.go:841-850 | Bytes before start are kept. The bytes from start + length to the old end move down by `length`. |
| PacketBytes.TailShiftRoundTrip | packet/packet.go:810-850 | Moving a block up and back down restores every byte below the block's old end. |
| PacketProofs.TailEncapsulationUndone | packet/packet.go:810-850 | EncapsulateTail then DecapsulateTail with the same start and length restores the mbuf lengths and every packet byte. |
| PacketProofs.TailBytesRestored | packet/packet.go:810-850 | The byte-level half: the frame up to the old length is restored. |
| Packets.Packet.DecapsulateHead | packet/packet.go:826-835 | The mbuf step is AdjMbuf. On success the frame is `PushedUp` at L2 and Ether moves on by `length`; on failure nothing changes. |
| Packets.Packet.EncapsulateHead | packet/packet.go:795-804 | The mbuf step is PrependMbuf, with Ether moved back by `length`. The frame is `PulledDown` at the unmoved L2. |
| PacketBytes.HeadShiftRoundTrip | packet/packet.go:795-835 | EncapsulateHead then DecapsulateHead at the same L2 restores every byte except the `length` bytes at the start of the block. |
| PacketProofs.EncapsulateHeadMisplaces | packet/packet.go:795-804 | As written, the byte at the new frame start is not written. The old first `start` bytes are overwritten by the bytes `length` later. |
| PacketProofs.EncapsulateHeadCounterexample | packet/packet.go:795-804 | Frame [7, 1, 2], L2 1, start 1, length 1: the bytes become [7, 2, 2], so the header byte 1 is lost. |
| Packets.Packet.EncapsulateHeadAtNewStart | packet/packet.go:795-804 | Like EncapsulateHead, but L2 moves back with Ether and the copy runs at the new start. |
| PacketProofs.EncapsulateHeadAtNewStartInserts | packet/packet.go:795-804 | The new frame begins with the old first `start` bytes. Everything from old L2 + start on stays in place. |
| PacketProofs.HeadEncapsulationUndone | packet/packet.go:795-835 | DecapsulateHead on that packet restores the mbuf lengths and the frame from the old L2 on. |
| Mbufs.TailRoomExact | mbuf/mbuf.go:395-398 | While the data area fits the buffer, the uint16 tail room does not wrap: it is buf_len - data_off - data_len. |
| Mbufs.PrependContract | mbuf/mbuf.go:144-152 | Succeeds iff the truncated length is at most data_off - packetStructSize. On success data_off shrinks and data_len and pkt_len grow by it. On failure nothing changes. Fits is kept. |
| Mbufs.AppendContract | mbuf/mbuf.go:156-163 | Succeeds iff the truncated length fits the tail room. On success data_len and pkt_len grow and data_off stays. On failure nothing changes. Fits is kept. |
| Mbufs.AdjContract | mbuf/mbuf.go:254-262 | Fails iff the truncated length exceeds data_len. Otherwise data_off grows and data_len and pkt_len shrink. On failure nothing changes. Fits is kept. |
| Mbufs.TrimContract | mbuf/mbuf.go:266-273 | Fails iff the truncated length exceeds data_len. Otherwise data_len and pkt_len shrink and data_off stays. On failure nothing changes. Fits is kept. |
| Mbufs.AppendLengthBound | mbuf/mbuf.go:156-163 | Appending never makes pkt_len exceed the old pkt_len plus `length`. |
| Mbufs.AppendThenTrim | mbuf/mbuf.go:156-273 | A successful Append(n) followed by Trim(n) succeeds and restores every field. |
| Mbufs.PrependThenAdj | mbuf/mbuf.go:144-262 | A successful Prepend(n) followed by Adj(n) succeeds and restores every field. |
| Mbufs.SingleSegmentKept | mbuf/mbuf.go:144-273 | For lengths below 2^16, all four operations keep pkt_len == data_len. |
| Mbufs.LongAppendSplitsLengths | mbuf/mbuf.go:156-163 | Appending 2^16 bytes passes the guard, leaves data_len unchanged and grows pkt_len by 2^16. |
| Mbufs.WrapCancels | mbuf/mbuf.go:156-273 | The uint32 pkt_len addition is undone by the subtraction. |
| Mbufs.Mbuf.Reset | mbuf/mbuf.go:305-308 | An empty mbuf with data_off at the default headroom (or at the room size if the room is smaller). |
| Mbufs.Mbuf.Prepend | mbuf/mbuf.go:144-152 | The result and new fields are `PrependStep`, and buf_len is unchanged. A valid mbuf stays valid (the data area fits the buffer) when the struct size is at most data_off. |
| Mbufs.Mbuf.Append | mbuf/mbuf.go:156-163 | The result and new fields are `AppendStep`. A valid mbuf stays valid. |
| Mbufs.Mbuf.Adj | mbuf/mbuf.go:254-262 | The result and new fields are `AdjStep`. A valid mbuf stays valid. |
| Mbufs.Mbuf.Trim | mbuf/mbuf.go:266-273 | The result and new fields are `TrimStep`. A valid mbuf stays valid. |
| Mbufs.Mbuf.HeadRoomSize | mbuf/mbuf.go:389-392 | The head room plus data_len fits the buffer. |
| Mbufs.Mbuf.TailRoomSize | mbuf/mbuf.go:395-398 | The tail room is exactly buf_len - data_off - data_len and never wraps. |
| Mbufs.MbufPackage.constructor | mbuf/mbuf.go:124 | packetStructSize starts at 0. |
| Mbufs.MbufPackage.SetPacketStructSize | mbuf/mbuf.go:127-139 | A size above RTE_PKTMBUF_HEADROOM is refused and the old size kept. Any other size is stored. |
| Lcores.DissectLcores | app/test-sniffer/lcores.go:30-44 | The map built equals `Dissected` of the lcores. |
| Lcores.OnSocketMembers | app/test-sniffer/lcores.go:30-44 | An lcore is in a socket's list exactly when it is an input lcore on that socket. |
| Lcores.DissectedIsPartition | app/test-sniffer/lcores.go:30-44 | A socket has a bucket exactly when an input lcore is on it. The bucket lists that socket's lcores in input order. |
| Lcores.EachLcoreInItsBucket | app/test-sniffer/lcores.go:30-44 | Every input lcore is in its own socket's bucket and in no other. |
| Lcores.Distributor.DistributeQueuesPort | app/test-sniffer/lcores.go:65-104 | The error and both maps after the call are `DistributePort` of the maps before it. |
| Lcores.DistributePortMeaning | app/test-sniffer/lcores.go:65-104 | Success iff InfoGet works, the socket is non-negative with a pool, and 0 < nrx <= pool size. On error neither map changes. On success the pool becomes its suffix after nrx, and each new entry is a taken lcore with this port and TX queue 0. |
| Lcores.AssignedMeaning | app/test-sniffer/lcores.go:92-99 | With distinct lcores, lcores[i] gets RX queue i and TX queue 0, exactly those keys are added, and other entries are kept. |
| Lcores.AssignedFromPool | app/test-sniffer/lcores.go:92-99 | Every entry is either an old one or a pool lcore mapped to this port with TX queue 0. |
| Lcores.DistributeQueues | app/test-sniffer/lcores.go:52-63 | Dissects the lcores and distributes the ports in order. There is no table on the first error, and otherwise the table `DistributeAll` builds. For distinct ports and lcores, every RX queue of every port is in the returned table. |
| Lcores.AssignedCovers | app/test-sniffer/lcores.go:94-99 | Distinct lcores with no entry, given to a port the table does not serve: queue i is served by lcores[i]. Earlier entries are kept, and no two lcores serve the same queue. |
| Lcores.TakeKeepsSeparate | app/test-sniffer/lcores.go:94-97 | Popping the first n lcores of a pool into the table keeps the pools separate: no repeats, no lcore in two pools, no pooled lcore in the table. |
| Lcores.DistributePortCovers | app/test-sniffer/lcores.go:65-104 | On separate pools, a successful port gets every RX queue served by a new lcore. No earlier entry is overwritten, no queue is served twice, and the pools stay separate. |
| Lcores.DistributeAllCovers | app/test-sniffer/lcores.go:56-62 | For distinct ports on separate pools, a successful run serves every RX queue of every port by exactly one lcore. It never overwrites an entry and adds only those queues, with TX queue 0. |
| Lcores.ExtendsCompose | app/test-sniffer/lcores.go:56-62 | Serving the first port and then the remaining ports covers all of them, keeps every old entry, and adds only their RX queues. |
| Lcores.OnSocketNoDup | app/test-sniffer/lcores.go:30-44 | A socket's list of distinct lcores has no repeats. |
| Lcores.DissectedSeparate | app/test-sniffer/lcores.go:30-44 | The pools dissectLcores builds from distinct lcores are separate. |
| Lcores.DistributeQueuesCovers | app/test-sniffer/lcores.go:46-63 | For distinct ports and lcores, on success every RX queue q < NbRxQueues of every port is served by exactly one lcore. The table holds only those queues, each with TX queue 0. |
| Lcores.DistributeAllLocal | app/test-sniffer/lcores.go:56-62 | If every pool holds only lcores of its socket, every added entry maps an lcore to a port on that lcore's socket with TX queue 0. The pools keep the property. |
| Lcores.DissectedOnSockets | app/test-sniffer/lcores.go:30-44 | The pools dissectLcores builds hold only lcores of their own socket. |
| Lcores.DistributeQueuesLocal | app/test-sniffer/lcores.go:52-63 | NUMA locality: each lcore in the returned table serves a port on its own socket, with TX queue 0. |
| Lcores.Reflect | app/test-sniffer/lcores.go:156-173 | Swaps the MAC addresses and the IPv4 addresses, and the stored header checksum verifies. For ICMP, the type becomes echo reply with other fields kept and the ICMP checksum verifies over the payload. For UDP the ports are swapped. Any other L4 is untouched. |
| Lcores.EchoReplyBytes | app/test-sniffer/lcores.go:164-166 | Re-encoding the ICMP header changes only the type and checksum bytes. |
| Lcores.PortsSwappedBytes | app/test-sniffer/lcores.go:167-170 | Swapping the decoded UDP ports swaps the first two byte pairs. |
| Port.Ctzll | app/test-sniffer/port.go:157-167 | 64 iff x is 0. Otherwise below 64, with that bit set and every lower bit clear. |
| Port.Clzll | app/test-sniffer/port.go:169-180 | 64 iff x is 0. Otherwise below 64, with bit 63 - r set and every higher bit clear. |
| Port.AndPow2 | app/test-sniffer/port.go:148 | `x & (1 << k)` is nonzero exactly when bit k is set. |
| Port.OffloadStep | app/test-sniffer/port.go:145-152 | `single_offload` is 1 << bit on every iteration, and the mask tests that bit. |
| Port.SetBitsMeaning | app/test-sniffer/port.go:136-155 | The list holds 1 << k for each set bit k in range and nothing else, strictly ascending. |
| Port.WholeWord | app/test-sniffer/port.go:143-146 | The range from ctzll to 64 - clzll covers every set bit of the word. |
| Port.PrintTXOffloads | app/test-sniffer/port.go:136-155 | The printed values are the set bits of the whole word (empty for 0). |
| Common.ErrnoOf | common/common.go:37-56 | nil exactly for 0. |
| Common.ErrnoMeaning | common/common.go:37-56 | The sign does not matter, and every nonzero value gives an error. ±1000..±1003 give their sentinels, and any other value the generic error carrying abs(n). |
| Common.ErrnoGenericOutsideRte | common/common.go:53-54 | The generic error never carries 0 or one of the four RTE numbers. |
| Common.IntErr | common/common.go:33-35 | nil exactly for 0, and the same error as for -n. |
| Common.IntOrErr | common/common.go:68-74 | A non-negative x gives (x, nil). A negative x gives (0, errno(x)), which is never nil. |
| Common.IntToErr | common/common.go:78-81 | nil exactly for 0, and for negatives the error IntOrErr reports. |
| Common.OnceCallsAfterDone | common/common.go:87-94 | Once fn has run, later calls never run it and all return the stored error. |
| Common.OnceCallsReturnFirst | common/common.go:87-94 | Over any sequence of calls of a fresh closure, fn runs exactly once if there is a call. Every call returns the first call's error. |
| Common.Once.constructor | common/common.go:87-89 | A fresh closure: not run, err nil. |
| Common.Once.Call | common/common.go:90-93 | One call is `OnceCall` on the captured state, and fn has run at most once. |
| FlowItemVxlan2.VniStored | ethdev/flow/item_vxlan2.go:22-27 | The stored item keeps its 8-byte size. |
| FlowItemVxlan2.Encap | ethdev/flow/item_vxlan2.go:22-27 | The item afterwards is `VniStored` of the item before: only the three VNI bytes are written. |
| FlowItemVxlan2.VniRoundTrip | ethdev/flow/item_vxlan2.go:22-27 | Reading the three bytes back big-endian gives VNI mod 2^24, because bits 24-31 are dropped. No other item byte changes. |
| FlowItemVxlan2.VniBytesRoundTrip | ethdev/flow/item_vxlan2.go:22-27 | Storing the big-endian value of three bytes stores exactly those bytes. |
| FlowItemVxlan2.ItemVxlan2.Reload | ethdev/flow/item_vxlan2.go:42-55 | Allocates a zeroed item on first use, then stores the VNI with `encap`. The VNI is unchanged. |
| FlowItemVxlan2.ItemVxlan2.Type | ethdev/flow/item_vxlan2.go:57-59 | Always ItemTypeVxlan. |

## Left out

- Pointers: Go's `unsafe.Pointer` fields are offsets into the mbuf's data room, and nil is offset 0. Raw-memory bounds that Go leaves to the caller are preconditions (the frame lies in the room).
- Chained (multi-segment) mbufs: only the first segment is modelled, as the copy loops themselves assume.
- The `NoCheck` accessors, the `String()` methods, `ExtractPacket*`, `ToPacket`, `GetRawPacketBytes` and `GeneratePacketFromByte`: these are pointer casts and formatting.
- The `hwtxchecksum` package flag set by `SetHWTXChecksumFlag` is a parameter of the IPv4 initialisers.
- `ParseL3`, `ParseL4ForIPv4` and `ParseAllKnown*` inside `ParseData` and `VxlanDecap` are written inline in the methods that call them. The shared steps are separate methods: ParseL4AndData, ParseOuter, MoveInside, WriteIPv4Headers and the `Write*` helpers.
- `GetTCPFor*`, `GetUDPFor*`, `GetICMPFor*` and `GetEther` have no contract of their own. Their behaviour is stated through ParseAllKnownL4ForIPv4/IPv6 and ParseL2.
- WordSums.DataChecksum: the `offset` argument of `calculateDataChecksum` is dropped, because every caller passes 0.
- The uint16 payload-length subtractions of the transport checksums are modelled with wrap-around. The `*Covers` lemmas hold for any payload that long, with no bound on the header values.
- Mbufs: the `uint` length is taken as a uint64. Its truncation to uint16 in the guards and to uint32 for pkt_len is written out.
- Mbufs.Mbuf.Reset: models only the length fields rte_pktmbuf_reset leaves. RTE_PKTMBUF_HEADROOM is DPDK's default of 128.
- All other mbuf wrappers are foreign DPDK calls: free, alloc, clone, reference counts, private data and RSS hash.
- Lcores: `eal.LcoreToSocket`, `pid.InfoGet`, `pid.SocketID` and `info.NbRxQueues` are parameters. The error text of the too-few-lcores case is reduced to its numbers.
- The `LcoreFunc` receive/transmit loop, counters, logging and metadata printing are driver I/O. Only its header rewrite is modelled, and it is modelled on header values.
- Lcores.Reflect: IPv4 is a precondition, because the source dereferences `GetIPv4()` without checking.
- `printTXOffloads` builds a string with `fmt.Sprintf`. The model returns the list of numbers it formats, and the `log.Printf` trace is left out.
- `Configure`, `printPortConfig` and the rest of `app/test-sniffer/port.go` are ethdev driver calls.
- Common.Once.Call: DoOnce's `sync.Once` thread safety is not modelled, only its sequential behaviour. What fn would return is a parameter of each call.
- `RteErrno` reads a C global.
- `IntOrErr`/`IntToErr` take an `interface{}` and panic on a non-integer. The model takes an int64.
- Common.IntOrErr: its Go doc comment says a nil argument is replaced by `RteErrno()`. The code calls `reflect.ValueOf(n).Int()` without checking, which panics on nil. The model follows the code, takes no nil, and does not model the documented `RteErrno()` fallback.
- The four RTE errno values are those of rte_errno.h (1000 to 1003), which is not part of this model.
- FlowItemVxlan2.ItemVxlan2.Reload: the C item is a zero-filled array. `Mask` and the finalizer are left out.
- The `types` constants (header lengths, EtherType and protocol numbers) are the standard values their names denote. The `types` package is not part of this model.

## Findings

| source | as written | input that shows it | evidently intended | confidence | as-written member | corrected member |
|---|---|---|---|---|---|---|
| packet/packet.go:795-804 | `EncapsulateHead` moves `Ether` back by `length` but leaves `L2`. Its loop copies byte `L2 + i + length` to `L2 + i`, so the first `start` bytes are overwritten by later bytes and nothing is written at the new frame start. | Frame bytes [7, 1, 2] with L2 = 1, start = 1, length = 1 become [7, 2, 2]: the header byte 1 is lost. | Copy byte `L2 + i` to `L2 - length + i` (L2 moved back with Ether), so that the first `start` bytes open a gap of `length` bytes behind them and DecapsulateHead undoes it. | not executed | PacketProofs.EncapsulateHeadCounterexample | PacketProofs.HeadEncapsulationUndone |
| packet/packet.go:855-857 | `PacketBytesChange` checks `start+length > packet.GetPacketLen()` with `start` and `length` in `uint`, so the sum wraps at 2^64 and a range far past the packet end passes the check. The loop then writes at `L2 + start + i`, outside the packet. | start = 2^64 - 1, one byte, packet length 0: the wrapped sum 0 is not greater than 0, so the write is accepted. | Refuse every range that does not end inside the packet, for example by checking `length <= pktLen && start <= pktLen - length`. | not executed | PacketProofs.BytesChangeGuardCounterexample | Packets.Packet.PacketBytesChange |
| packet/packet.go:244-262 | After the outer headers, `VxlanDecap` reassigns `pktUDP` only when the inner frame is IPv4 or IPv6. For any other inner EtherType, `pktUDP` still points at the outer UDP header, so the UDP branch sets Data to the nil L4 plus 8 and the function returns 0. | A VXLAN frame (outer IPv4/UDP to port 4789) whose inner frame is VLAN-tagged (EtherType 0x8100): the result is 0 and Data is 8. | Fail with -1 for an inner frame that is neither ARP, IPv4 nor IPv6, as ParseData does. | not executed | PacketProofs.VxlanVlanCounterexample | PacketProofs.VxlanIntendedAccepts |
