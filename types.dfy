/**
 * Machine integer widths, protocol constants and the Option wrapper shared by
 * every module. The Go `types` package that defines the constants is not part
 * of this model; the values below are the standard ones its names denote
 * (header lengths, EtherType and IP protocol numbers).
 */
module Types {

  type u8 = x: nat | x < 0x100
  type u16 = x: nat | x < 0x1_0000
  type u32 = x: nat | x < 0x1_0000_0000
  type u64 = x: nat | x < 0x1_0000_0000_0000_0000

  /** 2^n: what 1 << n is before truncation, and the divisor of a right shift by n bits. */
  function Pow2(n: nat): (r: nat)
    ensures r > 0
  {
    if n == 0 then 1 else 2 * Pow2(n - 1)
  }

  /** Go's conversion of an integer to uint16 / uint32: keep the low bits (two's complement for negatives). */
  function ToU16(x: int): u16 { x % 0x1_0000 }
  function ToU32(x: int): u32 { x % 0x1_0000_0000 }
  function ToU64(x: int): u64 { x % 0x1_0000_0000_0000_0000 }

  /** Go's a - b on uint16 operands: wraps below zero. */
  function SubU16(a: u16, b: u16): u16
  {
    if a >= b then a - b else 0x1_0000 + a - b
  }

  /** Go's a + b on uint32 operands: wraps past 2^32. */
  function AddU32(a: u32, b: u32): u32
  {
    if a + b < 0x1_0000_0000 then a + b else a + b - 0x1_0000_0000
  }

  /** Go's a + b on uint16 operands: wraps past 2^16. */
  function AddU16(a: u16, b: u16): u16
  {
    if a + b < 0x1_0000 then a + b else a + b - 0x1_0000
  }

  /** Go's a - b on uint32 operands: wraps below zero. */
  function SubU32(a: u32, b: u32): u32
  {
    if a >= b then a - b else 0x1_0000_0000 + a - b
  }

  /** The explicit wrap-around agrees with the truncating conversion. */
  lemma SubU16Wraps(a: u16, b: u16)
    ensures SubU16(a, b) == ToU16(a - b)
  {
  }

  lemma AddU32Wraps(a: u32, b: u32)
    ensures AddU32(a, b) == ToU32(a + b)
  {
  }

  datatype Option<T> = None | Some(value: T)

  // Header lengths in bytes.
  const EtherLen: nat := 14
  const IPv4MinLen: nat := 20
  const IPv6Len: nat := 40
  const TCPMinLen: nat := 20
  const UDPLen: nat := 8
  const ICMPLen: nat := 8
  const VXLANLen: nat := 8
  const ARPLen: nat := 28

  // EtherType values in network byte order, and the same values as a
  // little-endian host reads them from a frame.
  const IPV4Number: u16 := 0x0800
  const ARPNumber: u16 := 0x0806
  const IPV6Number: u16 := 0x86DD
  const SwapIPV4Number: u16 := 0x0008
  const SwapARPNumber: u16 := 0x0608
  const SwapIPV6Number: u16 := 0xDD86

  // IP protocol numbers.
  const ICMPNumber: u8 := 1
  const TCPNumber: u8 := 6
  const UDPNumber: u8 := 17
  const ICMPv6Number: u8 := 58
  const NoNextHeader: u8 := 59

  // Defaults written by the packet initialisers.
  const IPv4VersionIhl: u8 := 0x45
  const IPv6VtcFlow: u32 := 0x60
  const TCPMinDataOffset: u8 := 0x50

  const ICMPTypeEchoResponse: u8 := 0

  /** The UDP destination port that marks VXLAN traffic (section 5 of RFC 7348). */
  const VxlanPort: u16 := 4789
}
