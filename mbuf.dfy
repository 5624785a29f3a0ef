/**
 * Length bookkeeping of a single-segment DPDK mbuf (mbuf/mbuf.go): the fields
 * buf_len, data_off, data_len and pkt_len, and the four operations that grow
 * or shrink the data area at its head or its tail. The Go conversions of the
 * `uint` length to uint16 and uint32, and the uint16/uint32 arithmetic on the
 * fields, are written out with ToU16, ToU32, AddU16, SubU16, AddU32 and SubU32.
 */
module Mbufs {
  import opened Types

  /** RTE_PKTMBUF_HEADROOM of DPDK's default build configuration. */
  const PktMbufHeadroom: int := 128

  /** The length fields of one mbuf. */
  datatype Lengths = Lengths(bufLen: u16, dataOff: u16, dataLen: u16, pktLen: u32)

  /** The data area [data_off, data_off + data_len) lies inside the buffer. */
  predicate Fits(m: Lengths)
  {
    m.dataOff + m.dataLen <= m.bufLen
  }

  /** What an operation reports, and the fields after it. */
  datatype Step = Step(ok: bool, after: Lengths)

  /** PrependMbuf (mbuf/mbuf.go:144-152); structSize is the package's packetStructSize. */
  function PrependStep(m: Lengths, structSize: int, length: u64): Step
  {
    var n := ToU16(length);
    if n > SubU16(m.dataOff, ToU16(structSize)) then Step(false, m)
    else Step(true, m.(dataOff := SubU16(m.dataOff, n), dataLen := AddU16(m.dataLen, n),
                       pktLen := AddU32(m.pktLen, ToU32(length))))
  }

  /** AppendMbuf (mbuf/mbuf.go:156-163). */
  function AppendStep(m: Lengths, length: u64): Step
  {
    var n := ToU16(length);
    if n > SubU16(SubU16(m.bufLen, m.dataOff), m.dataLen) then Step(false, m)
    else Step(true, m.(dataLen := AddU16(m.dataLen, n), pktLen := AddU32(m.pktLen, ToU32(length))))
  }

  /** AdjMbuf (mbuf/mbuf.go:254-262). */
  function AdjStep(m: Lengths, length: u64): Step
  {
    var n := ToU16(length);
    if n > m.dataLen then Step(false, m)
    else Step(true, m.(dataOff := AddU16(m.dataOff, n), dataLen := m.dataLen - n,
                       pktLen := SubU32(m.pktLen, ToU32(length))))
  }

  /** TrimMbuf (mbuf/mbuf.go:266-273). */
  function TrimStep(m: Lengths, length: u64): Step
  {
    var n := ToU16(length);
    if n > m.dataLen then Step(false, m)
    else Step(true, m.(dataLen := m.dataLen - n, pktLen := SubU32(m.pktLen, ToU32(length))))
  }

  /** TailRoomSize (mbuf/mbuf.go:395-398): buf_len - data_off - data_len in uint16. */
  function TailRoom(m: Lengths): u16
  {
    SubU16(SubU16(m.bufLen, m.dataOff), m.dataLen)
  }

  /** The tail room never wraps while the data area fits the buffer. */
  lemma TailRoomExact(m: Lengths)
    requires Fits(m)
    ensures TailRoom(m) == m.bufLen - m.dataOff - m.dataLen
    ensures TailRoom(m) + m.dataOff + m.dataLen == m.bufLen
  {
  }

  /**
   * PrependMbuf succeeds exactly when the truncated length fits the headroom
   * left above the packet structure; then data_off moves down by it, data_len
   * and pkt_len grow by it, and the data area still fits. A failure changes nothing.
   */
  lemma PrependContract(m: Lengths, structSize: int, length: u64)
    requires Fits(m) && 0 <= structSize <= m.dataOff
    ensures var r := PrependStep(m, structSize, length);
      && (r.ok <==> ToU16(length) <= m.dataOff - structSize)
      && (!r.ok ==> r.after == m)
      && (r.ok ==> r.after == Lengths(m.bufLen, m.dataOff - ToU16(length), m.dataLen + ToU16(length),
                                      ToU32(m.pktLen + length)))
      && Fits(r.after)
  {
    AddU32Wraps(m.pktLen, ToU32(length));
    ToU32OfSum(m.pktLen, length);
  }

  /**
   * AppendMbuf succeeds exactly when the truncated length fits the tail room;
   * then data_len and pkt_len grow by it, data_off stays, and the data area
   * still fits. A failure changes nothing.
   */
  lemma AppendContract(m: Lengths, length: u64)
    requires Fits(m)
    ensures var r := AppendStep(m, length);
      && (r.ok <==> ToU16(length) <= m.bufLen - m.dataOff - m.dataLen)
      && (!r.ok ==> r.after == m)
      && (r.ok ==> r.after == Lengths(m.bufLen, m.dataOff, m.dataLen + ToU16(length), ToU32(m.pktLen + length)))
      && Fits(r.after)
  {
    AddU32Wraps(m.pktLen, ToU32(length));
    ToU32OfSum(m.pktLen, length);
  }

  /**
   * AdjMbuf fails exactly when the truncated length exceeds data_len; otherwise
   * data_off moves up by it, data_len and pkt_len shrink by it, and the data
   * area still fits. A failure changes nothing.
   */
  lemma AdjContract(m: Lengths, length: u64)
    requires Fits(m)
    ensures var r := AdjStep(m, length);
      && (r.ok <==> ToU16(length) <= m.dataLen)
      && (!r.ok ==> r.after == m)
      && (r.ok ==> r.after == Lengths(m.bufLen, m.dataOff + ToU16(length), m.dataLen - ToU16(length),
                                      ToU32(m.pktLen - length)))
      && Fits(r.after)
  {
    SubU32Wraps(m.pktLen, ToU32(length));
    ToU32OfDifference(m.pktLen, length);
  }

  /**
   * TrimMbuf fails exactly when the truncated length exceeds data_len;
   * otherwise data_len and pkt_len shrink by it and data_off stays.
   */
  lemma TrimContract(m: Lengths, length: u64)
    requires Fits(m)
    ensures var r := TrimStep(m, length);
      && (r.ok <==> ToU16(length) <= m.dataLen)
      && (!r.ok ==> r.after == m)
      && (r.ok ==> r.after == Lengths(m.bufLen, m.dataOff, m.dataLen - ToU16(length), ToU32(m.pktLen - length)))
      && Fits(r.after)
  {
    SubU32Wraps(m.pktLen, ToU32(length));
    ToU32OfDifference(m.pktLen, length);
  }

  /** Appending length bytes never makes the packet longer than pkt_len + length (a wrapped pkt_len is shorter). */
  lemma AppendLengthBound(m: Lengths, length: u64)
    ensures AppendStep(m, length).after.pktLen <= m.pktLen + length
  {
    AddU32Wraps(m.pktLen, ToU32(length));
  }

  /** Appending n bytes and trimming n bytes restores every field. */
  lemma AppendThenTrim(m: Lengths, length: u64)
    requires Fits(m) && AppendStep(m, length).ok
    ensures TrimStep(AppendStep(m, length).after, length) == Step(true, m)
  {
    var a := AppendStep(m, length).after;
    AppendContract(m, length);
    AddU32Wraps(m.pktLen, ToU32(length));
    SubU32Wraps(a.pktLen, ToU32(length));
    WrapCancels(m.pktLen, ToU32(length));
  }

  /** Prepending n bytes and removing n bytes at the head restores every field. */
  lemma PrependThenAdj(m: Lengths, structSize: int, length: u64)
    requires Fits(m) && 0 <= structSize <= m.dataOff && PrependStep(m, structSize, length).ok
    ensures AdjStep(PrependStep(m, structSize, length).after, length) == Step(true, m)
  {
    var a := PrependStep(m, structSize, length).after;
    PrependContract(m, structSize, length);
    AddU32Wraps(m.pktLen, ToU32(length));
    SubU32Wraps(a.pktLen, ToU32(length));
    WrapCancels(m.pktLen, ToU32(length));
  }

  /**
   * For a single-segment mbuf (pkt_len == data_len) a length below 2^16 keeps
   * the two lengths equal through any of the four operations.
   */
  lemma SingleSegmentKept(m: Lengths, structSize: int, length: u64)
    requires Fits(m) && 0 <= structSize <= m.dataOff && m.pktLen == m.dataLen && length < 0x1_0000
    ensures var p := PrependStep(m, structSize, length).after; p.pktLen == p.dataLen
    ensures var a := AppendStep(m, length).after; a.pktLen == a.dataLen
    ensures var d := AdjStep(m, length).after; d.pktLen == d.dataLen
    ensures var t := TrimStep(m, length).after; t.pktLen == t.dataLen
  {
    assert ToU16(length) == length && ToU32(length) == length;
    assert ToU32(m.pktLen + length) == m.pktLen + length;
  }

  /**
   * The guards compare only the low 16 bits of the length, while pkt_len adds
   * the low 32 bits: appending 2^16 bytes passes any guard, leaves data_len
   * as it was and grows pkt_len by 2^16.
   */
  lemma LongAppendSplitsLengths(m: Lengths)
    requires Fits(m) && m.pktLen == m.dataLen
    ensures var r := AppendStep(m, 0x1_0000);
      r.ok && r.after.dataLen == m.dataLen && r.after.pktLen == m.pktLen + 0x1_0000
  {
  }

  // Arithmetic on the truncating conversions.

  lemma ToU32OfSum(a: u32, b: nat)
    ensures ToU32(a + ToU32(b)) == ToU32(a + b)
  {
    var m := 0x1_0000_0000;
    assert b == m * (b / m) + ToU32(b);
    assert a + b == m * (b / m) + (a + ToU32(b));
    ModOfMultiplePlus(b / m, a + ToU32(b));
  }

  lemma ToU32OfDifference(a: u32, b: nat)
    ensures ToU32(a - ToU32(b)) == ToU32(a - b)
  {
    var m := 0x1_0000_0000;
    assert b == m * (b / m) + ToU32(b);
    assert a - ToU32(b) == m * (b / m) + (a - b);
    ModOfMultiplePlusInt(b / m, a - b);
  }

  lemma {:induction false} ModOfMultiplePlus(q: nat, x: nat)
    ensures (0x1_0000_0000 * q + x) % 0x1_0000_0000 == x % 0x1_0000_0000
  {
    if q > 0 {
      ModOfMultiplePlus(q - 1, x);
      assert 0x1_0000_0000 * q + x == (0x1_0000_0000 * (q - 1) + x) + 0x1_0000_0000;
    }
  }

  lemma {:induction false} ModOfMultiplePlusInt(q: nat, x: int)
    ensures (0x1_0000_0000 * q + x) % 0x1_0000_0000 == x % 0x1_0000_0000
  {
    if q > 0 {
      ModOfMultiplePlusInt(q - 1, x);
      assert 0x1_0000_0000 * q + x == (0x1_0000_0000 * (q - 1) + x) + 0x1_0000_0000;
    }
  }

  lemma SubU32Wraps(a: u32, b: u32)
    ensures SubU32(a, b) == ToU32(a - b)
  {
  }

  lemma WrapCancels(a: u32, b: u32)
    ensures SubU32(AddU32(a, b), b) == a
  {
  }

  /**
   * An mbuf with its data room. The Go Mbuf is the C rte_mbuf; only the four
   * length fields and the buffer they index are modelled.
   */
  class Mbuf {
    var bufLen: u16
    var dataOff: u16
    var dataLen: u16
    var pktLen: u32
    /** The data room, indexed from buf_addr. */
    const buf: array<u8>

    function Fields(): Lengths
      reads this
    {
      Lengths(bufLen, dataOff, dataLen, pktLen)
    }

    ghost predicate Valid()
      reads this
    {
      buf.Length == bufLen && Fits(Fields())
    }

    /** An mbuf as rte_pktmbuf_reset leaves it: empty, data_off at the default headroom. */
    constructor Reset(room: array<u8>)
      requires room.Length < 0x1_0000
      ensures Valid() && buf == room && pktLen == dataLen == 0
      ensures dataOff == if room.Length < PktMbufHeadroom then room.Length else PktMbufHeadroom
    {
      buf := room;
      bufLen := room.Length;
      dataOff := if room.Length < PktMbufHeadroom then room.Length else PktMbufHeadroom;
      dataLen := 0;
      pktLen := 0;
    }

    /** PrependMbuf (mbuf/mbuf.go:144-152); structSize is the package's packetStructSize. */
    method Prepend(structSize: int, length: u64) returns (ok: bool)
      modifies this
      ensures Step(ok, Fields()) == PrependStep(old(Fields()), structSize, length)
      ensures bufLen == old(bufLen)
      ensures old(Valid()) && 0 <= structSize <= old(dataOff) ==> Valid()
    {
      if Valid() && 0 <= structSize <= dataOff {
        PrependContract(Fields(), structSize, length);
      }
      var n := ToU16(length);
      if n > SubU16(dataOff, ToU16(structSize)) {
        return false;
      }
      dataOff := SubU16(dataOff, n);
      dataLen := AddU16(dataLen, n);
      pktLen := AddU32(pktLen, ToU32(length));
      return true;
    }

    /** AppendMbuf (mbuf/mbuf.go:156-163). */
    method Append(length: u64) returns (ok: bool)
      modifies this
      ensures Step(ok, Fields()) == AppendStep(old(Fields()), length)
      ensures old(Valid()) ==> Valid()
    {
      if Valid() {
        AppendContract(Fields(), length);
      }
      var n := ToU16(length);
      if n > SubU16(SubU16(bufLen, dataOff), dataLen) {
        return false;
      }
      dataLen := AddU16(dataLen, n);
      pktLen := AddU32(pktLen, ToU32(length));
      return true;
    }

    /** AdjMbuf (mbuf/mbuf.go:254-262). */
    method Adj(length: u64) returns (ok: bool)
      modifies this
      ensures Step(ok, Fields()) == AdjStep(old(Fields()), length)
      ensures old(Valid()) ==> Valid()
    {
      if Valid() {
        AdjContract(Fields(), length);
      }
      var n := ToU16(length);
      if n > dataLen {
        return false;
      }
      dataOff := AddU16(dataOff, n);
      dataLen := dataLen - n;
      pktLen := SubU32(pktLen, ToU32(length));
      return true;
    }

    /** TrimMbuf (mbuf/mbuf.go:266-273). */
    method Trim(length: u64) returns (ok: bool)
      modifies this
      ensures Step(ok, Fields()) == TrimStep(old(Fields()), length)
      ensures old(Valid()) ==> Valid()
    {
      if Valid() {
        TrimContract(Fields(), length);
      }
      var n := ToU16(length);
      if n > dataLen {
        return false;
      }
      dataLen := dataLen - n;
      pktLen := SubU32(pktLen, ToU32(length));
      return true;
    }

    /** HeadRoomSize (mbuf/mbuf.go:389-392): the bytes in front of the data. */
    function HeadRoomSize(): (r: u16)
      reads this
      ensures Valid() ==> r + dataLen <= bufLen
    {
      dataOff
    }

    /** TailRoomSize (mbuf/mbuf.go:395-398): the bytes behind the data. */
    function TailRoomSize(): (r: u16)
      reads this
      ensures Valid() ==> r == bufLen - dataOff - dataLen && r + dataOff + dataLen == buf.Length
    {
      TailRoom(Fields())
    }
  }

  /** The package-level packetStructSize of mbuf/mbuf.go and its setter. */
  class MbufPackage {
    var packetStructSize: int

    constructor ()
      ensures packetStructSize == 0
    {
      packetStructSize := 0;
    }

    /**
     * SetPacketStructSize (mbuf/mbuf.go:127-139): a structure larger than the
     * headroom is refused and the size kept; otherwise the size is stored.
     */
    method SetPacketStructSize(t: int) returns (ok: bool)
      modifies this
      ensures ok <==> t <= PktMbufHeadroom
      ensures packetStructSize == if ok then t else old(packetStructSize)
    {
      if t > PktMbufHeadroom {
        return false;
      }
      packetStructSize := t;
      return true;
    }
  }
}
