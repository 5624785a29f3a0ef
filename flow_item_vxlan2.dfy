/**
 * The VXLAN flow item of ethdev/flow/item_vxlan2.go, whose C helper encap
 * stores the 24-bit VNI into the item big-endian (section 5 of RFC 7348).
 *
 * The C item is the 8 bytes of DPDK's struct rte_flow_item_vxlan: flags,
 * 3 reserved bytes, the 3 VNI bytes at offset 4, and a reserved byte.
 * That layout comes from rte_flow.h, which is not part of this model.
 */
module FlowItemVxlan2 {
  import opened Types

  const ItemVxlanSize: nat := 8
  const VniOffset: nat := 4

  /** The item types the flow items report (the enum itself is defined outside this model). */
  datatype ItemType = ItemTypeVxlan | ItemTypeTCP

  /** (uint8_t)(vni >> (i * 8)): the i-th byte of vni counting from the least significant. */
  function VniByte(vni: u32, i: nat): u8
  {
    (vni / Pow2(i * 8)) % 0x100
  }

  /** Three bytes read as a big-endian 24-bit number. */
  function BE24(b0: u8, b1: u8, b2: u8): nat
  {
    0x1_0000 * b0 + 0x100 * b1 + b2
  }

  /** The item bytes after the three VNI bytes are stored into them. */
  function VniStored(item: seq<u8>, vni: u32): (r: seq<u8>)
    requires |item| == ItemVxlanSize
    ensures |r| == ItemVxlanSize
  {
    item[..VniOffset] + [VniByte(vni, 2), VniByte(vni, 1), VniByte(vni, 0)] + item[VniOffset + 3..]
  }

  /**
   * Reading the stored VNI bytes back big-endian gives the VNI modulo 2^24:
   * bits 24 to 31 are dropped by the uint8_t stores; every other byte of the
   * item is untouched.
   */
  lemma VniRoundTrip(item: seq<u8>, vni: u32)
    requires |item| == ItemVxlanSize
    ensures var r := VniStored(item, vni);
      && BE24(r[VniOffset], r[VniOffset + 1], r[VniOffset + 2]) == vni % 0x100_0000
      && r[..VniOffset] == item[..VniOffset] && r[VniOffset + 3..] == item[VniOffset + 3..]
  {
    var q0 := vni / 0x100;
    var q1 := q0 / 0x100;
    assert Pow2(8) == 0x100 && Pow2(16) == 0x1_0000;
    assert vni / 0x1_0000 == q1;
    assert vni == 0x100 * q0 + vni % 0x100;
    assert q0 == 0x100 * q1 + q0 % 0x100;
    assert vni % 0x100_0000 == 0x1_0000 * (q1 % 0x100) + 0x100 * (q0 % 0x100) + vni % 0x100;
  }

  /** Conversely, storing the big-endian value of three bytes stores exactly those bytes. */
  lemma VniBytesRoundTrip(item: seq<u8>, b0: u8, b1: u8, b2: u8)
    requires |item| == ItemVxlanSize
    ensures var r := VniStored(item, BE24(b0, b1, b2));
      r[VniOffset] == b0 && r[VniOffset + 1] == b1 && r[VniOffset + 2] == b2
  {
    var v := BE24(b0, b1, b2);
    assert Pow2(8) == 0x100 && Pow2(16) == 0x1_0000;
    assert v / 0x100 == 0x100 * b0 + b1;
    assert v / 0x1_0000 == b0;
  }

  /** encap (ethdev/flow/item_vxlan2.go:22-27): item->vni[2 - i] = vni >> (i * 8) for i = 0, 1, 2. */
  method Encap(vni: u32, item: array<u8>)
    requires item.Length == ItemVxlanSize
    modifies item
    ensures item[..] == VniStored(old(item[..]), vni)
  {
    for i := 0 to 3
      invariant forall k | 0 <= k < item.Length && !(VniOffset + 2 - i < k <= VniOffset + 2) :: item[k] == old(item[k])
      invariant forall j | 0 <= j < i :: item[VniOffset + 2 - j] == VniByte(vni, j)
    {
      item[VniOffset + 2 - i] := VniByte(vni, i);
    }
  }

  /** ItemVXLAN2 (ethdev/flow/item_vxlan2.go:36-39): the VNI and the C item it is loaded into. */
  class ItemVxlan2 {
    var vni: u32
    var cptr: array?<u8>

    ghost predicate Valid()
      reads this
    {
      cptr != null ==> cptr.Length == ItemVxlanSize
    }

    constructor (vni: u32)
      ensures Valid() && this.vni == vni && cptr == null
    {
      this.vni := vni;
      cptr := null;
    }

    /**
     * Reload (ethdev/flow/item_vxlan2.go:42-55): allocate the C item on
     * first use (zeroed), then store the VNI into it.
     */
    method Reload()
      requires Valid()
      modifies this, cptr
      ensures Valid() && cptr != null && vni == old(vni)
      ensures old(cptr) != null ==> cptr == old(cptr) && cptr[..] == VniStored(old(cptr[..]), vni)
      ensures old(cptr) == null ==> fresh(cptr) && cptr[..] == VniStored(seq(ItemVxlanSize, _ => 0), vni)
    {
      if cptr == null {
        cptr := new u8[ItemVxlanSize](_ => 0);
      }
      Encap(vni, cptr);
    }

    /** Type (ethdev/flow/item_vxlan2.go:57-59). */
    function Type(): (t: ItemType)
      ensures t.ItemTypeVxlan?
    {
      ItemTypeVxlan
    }
  }
}
