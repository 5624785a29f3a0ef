/**
 * The bit-scan helpers of app/test-sniffer/port.go: count trailing and
 * leading zeros of a uint64, and list the set bits of a TX offload mask.
 *
 * Values are naturals below 2^64; a bit of x is BitAt(x, k), the bitwise
 * AND of Go is And, a left shift doubles modulo 2^64 and a right shift halves.
 */
module Port {
  import opened Types

  /** Bit k of x. */
  predicate BitAt(x: nat, k: nat)
    decreases k
  {
    if k == 0 then x % 2 == 1 else BitAt(x / 2, k - 1)
  }

  /** Go's & on unsigned integers, bit by bit. */
  function And(x: nat, y: nat): nat
    decreases x
  {
    if x == 0 || y == 0 then 0
    else 2 * And(x / 2, y / 2) + (if x % 2 == 1 && y % 2 == 1 then 1 else 0)
  }

  lemma {:induction false} Pow2Add(a: nat, b: nat)
    ensures Pow2(a + b) == Pow2(a) * Pow2(b)
    decreases a
  {
    if a > 0 {
      var p, q := Pow2(a - 1), Pow2(b);
      calc {
        Pow2(a + b);
        2 * Pow2(a - 1 + b);
        { Pow2Add(a - 1, b); }
        2 * (p * q);
        (2 * p) * q;
      }
    }
  }

  lemma Pow2Byte()
    ensures Pow2(8) == 0x100
  {
  }

  lemma Pow2Sixteen()
    ensures Pow2(16) == 0x1_0000
  {
    Pow2Byte();
    Pow2Add(8, 8);
  }

  lemma Pow2HalfWidth()
    ensures Pow2(32) == 0x1_0000_0000
  {
    Pow2Sixteen();
    Pow2Add(16, 16);
  }

  /** 1 << 63 is the top bit of a uint64, and 1 << 64 bounds it. */
  lemma Pow2Width()
    ensures Pow2(63) == 0x8000_0000_0000_0000 && Pow2(64) == 0x1_0000_0000_0000_0000
  {
    Pow2HalfWidth();
    Pow2Add(32, 32);
    assert Pow2(64) == 2 * Pow2(63);
  }

  lemma {:induction false} NoBitsOfZero(k: nat)
    ensures !BitAt(0, k)
    decreases k
  {
    if k > 0 {
      NoBitsOfZero(k - 1);
    }
  }

  /** Masking with 1 << k tests bit k. */
  lemma {:induction false} AndPow2(x: nat, k: nat)
    ensures And(x, Pow2(k)) != 0 <==> BitAt(x, k)
    decreases k
  {
    if x == 0 {
      NoBitsOfZero(k);
    } else if k > 0 {
      AndPow2(x / 2, k - 1);
      assert Pow2(k) % 2 == 0 && Pow2(k) / 2 == Pow2(k - 1);
    }
  }

  /** Below 2^n no bit from n up is set. */
  lemma {:induction false} HighBitsClear(x: nat, n: nat, k: nat)
    requires x < Pow2(n) && n <= k
    ensures !BitAt(x, k)
    decreases n
  {
    if n == 0 {
      NoBitsOfZero(k);
    } else {
      HighBitsClear(x / 2, n - 1, k - 1);
    }
  }

  /** Below 2^(n+1), bit n is set exactly when x is at least 2^n. */
  lemma {:induction false} TopBit(x: nat, n: nat)
    requires x < Pow2(n + 1)
    ensures BitAt(x, n) <==> x >= Pow2(n)
    decreases n
  {
    if n > 0 {
      TopBit(x / 2, n - 1);
    }
  }

  lemma {:induction false} Pow2Monotone(a: nat, b: nat)
    requires a <= b
    ensures Pow2(a) <= Pow2(b)
    decreases b
  {
    if a < b {
      Pow2Monotone(a, b - 1);
    }
  }

  /** x >> n. */
  function ShiftRight(x: nat, n: nat): nat
  {
    if n == 0 then x else ShiftRight(x, n - 1) / 2
  }

  /** x << n, before any truncation to 64 bits. */
  function ShiftLeft(x: nat, n: nat): nat
  {
    if n == 0 then x else 2 * ShiftLeft(x, n - 1)
  }

  /** Bit k of x >> n is bit n + k of x. */
  lemma {:induction false} ShiftRightBits(x: nat, n: nat, k: nat)
    ensures BitAt(ShiftRight(x, n), k) == BitAt(x, n + k)
    decreases n
  {
    if n > 0 {
      ShiftRightBits(x, n - 1, k + 1);
    }
  }

  /** Bit k + n of x << n is bit k of x. */
  lemma {:induction false} ShiftLeftBits(x: nat, n: nat, k: nat)
    ensures BitAt(ShiftLeft(x, n), k + n) == BitAt(x, k)
    decreases n
  {
    if n > 0 {
      ShiftLeftBits(x, n - 1, k);
      assert BitAt(ShiftLeft(x, n), k + n) == BitAt(ShiftLeft(x, n - 1), k + n - 1);
    }
  }

  /** x << n below 2^(m + n) means x below 2^m. */
  lemma {:induction false} ShiftLeftBelow(x: nat, n: nat, m: nat)
    requires ShiftLeft(x, n) < Pow2(m + n)
    ensures x < Pow2(m)
    decreases n
  {
    if n > 0 {
      ShiftLeftBelow(x, n - 1, m);
    }
  }

  /** If x << r lands in [2^63, 2^64), the highest set bit of x is 63 - r. */
  lemma ScaledTopBit(x: nat, r: nat)
    requires r < 64 && 0x8000_0000_0000_0000 <= ShiftLeft(x, r) < 0x1_0000_0000_0000_0000
    ensures BitAt(x, 63 - r) && forall k: nat | 63 - r < k :: !BitAt(x, k)
  {
    Pow2Width();
    TopBit(ShiftLeft(x, r), 63);
    ShiftLeftBits(x, r, 63 - r);
    ShiftLeftBelow(x, r, 64 - r);
    forall k: nat | 63 - r < k
      ensures !BitAt(x, k)
    {
      HighBitsClear(x, 64 - r, k);
    }
  }

  /** ctzll (app/test-sniffer/port.go:157-167): the index of the lowest set bit, 64 for zero. */
  method Ctzll(x: u64) returns (r: u64)
    ensures x == 0 <==> r == 64
    ensures x != 0 ==> r < 64 && BitAt(x, r) && forall k: nat | k < r :: !BitAt(x, k)
  {
    if x == 0 {
      return 64;
    }
    Pow2Width();
    var y := x;
    var i: u64 := 0;
    while And(y, 1) == 0
      invariant i < 64 && 0 < y < Pow2(64 - i) && y == ShiftRight(x, i)
      invariant forall k: nat | k < i :: !BitAt(x, k)
      decreases y
    {
      AndPow2(y, 0);
      ShiftRightBits(x, i, 0);
      y := y / 2;
      i := i + 1;
    }
    AndPow2(y, 0);
    ShiftRightBits(x, i, 0);
    r := i;
  }

  /** Masking a uint64 with 1 << 63 tests whether it is at least 2^63. */
  lemma TopBitTest(y: u64)
    ensures And(y, 0x8000_0000_0000_0000) == 0 <==> y < 0x8000_0000_0000_0000
  {
    Pow2Width();
    AndPow2(y, 63);
    TopBit(y, 63);
  }

  /**
   * One x <<= 1 of clzll below 2^63: nothing wraps and the count stays
   * below 64.
   */
  lemma ShiftLeftStep(x: nat, i: nat, y: nat)
    requires i < 64 && y == ShiftLeft(x, i) && Pow2(i) <= y < 0x8000_0000_0000_0000
    ensures i + 1 < 64 && y * 2 < 0x1_0000_0000_0000_0000 && ToU64(y * 2) == y * 2
    ensures y * 2 == ShiftLeft(x, i + 1) && Pow2(i + 1) <= y * 2
  {
    if i + 1 == 64 {
      Pow2Width();
    }
  }

  /** clzll (app/test-sniffer/port.go:169-180): 63 minus the index of the highest set bit, 64 for zero. */
  method Clzll(x: u64) returns (r: u64)
    ensures x == 0 <==> r == 64
    ensures x != 0 ==> r < 64 && BitAt(x, 63 - r) && forall k: nat | 63 - r < k :: !BitAt(x, k)
  {
    if x == 0 {
      return 64;
    }
    var y := x;
    var i: u64 := 0;
    while And(y, 0x8000_0000_0000_0000) == 0
      invariant i < 64 && y == ShiftLeft(x, i) && Pow2(i) <= y
      decreases 64 - i
    {
      TopBitTest(y);
      ShiftLeftStep(x, i, y);
      // y <<= 1 does not wrap while the top bit is clear
      y := y * 2;
      i := i + 1;
    }
    TopBitTest(y);
    ScaledTopBit(x, i);
    r := i;
  }

  /** The values 1 << k of the set bits k of x with lo <= k < hi, lowest bit first. */
  function SetBits(x: nat, lo: nat, hi: nat): seq<nat>
    requires lo <= hi
    decreases hi - lo
  {
    if hi == lo then []
    else SetBits(x, lo, hi - 1) + (if BitAt(x, hi - 1) then [Pow2(hi - 1)] else [])
  }

  /** v is 1 << k for a set bit k of x with lo <= k < hi. */
  ghost predicate SetBitValue(x: nat, lo: nat, hi: nat, v: nat)
  {
    exists k: nat :: lo <= k < hi && BitAt(x, k) && v == Pow2(k)
  }

  /** Each entry of the list is 1 << k for a set bit k in range. */
  lemma {:induction false} SetBitsSound(x: nat, lo: nat, hi: nat, i: nat)
    requires lo <= hi && i < |SetBits(x, lo, hi)|
    ensures SetBitValue(x, lo, hi, SetBits(x, lo, hi)[i])
    decreases hi - lo
  {
    var r0 := SetBits(x, lo, hi - 1);
    if i < |r0| {
      SetBitsSound(x, lo, hi - 1, i);
      var k: nat :| lo <= k < hi - 1 && BitAt(x, k) && r0[i] == Pow2(k);
      assert SetBits(x, lo, hi)[i] == r0[i];
    } else {
      assert BitAt(x, hi - 1) && SetBits(x, lo, hi)[i] == Pow2(hi - 1);
    }
  }

  /** Every set bit in range has its entry 1 << k in the list. */
  lemma {:induction false} SetBitsComplete(x: nat, lo: nat, hi: nat, k: nat)
    requires lo <= k < hi && BitAt(x, k)
    ensures Pow2(k) in SetBits(x, lo, hi)
    decreases hi - lo
  {
    if k < hi - 1 {
      SetBitsComplete(x, lo, hi - 1, k);
    }
  }

  /** The list is strictly ascending and below 1 << hi. */
  lemma {:induction false} SetBitsAscending(x: nat, lo: nat, hi: nat)
    requires lo <= hi
    ensures forall i, j | 0 <= i < j < |SetBits(x, lo, hi)| :: SetBits(x, lo, hi)[i] < SetBits(x, lo, hi)[j]
    ensures forall i | 0 <= i < |SetBits(x, lo, hi)| :: SetBits(x, lo, hi)[i] < Pow2(hi)
    decreases hi - lo
  {
    if hi > lo {
      SetBitsAscending(x, lo, hi - 1);
      var r0, r := SetBits(x, lo, hi - 1), SetBits(x, lo, hi);
      assert forall i | 0 <= i < |r0| :: r[i] == r0[i];
    }
  }

  /**
   * The list holds one entry 1 << k per set bit k in range and nothing
   * else, in strictly ascending order.
   */
  lemma SetBitsMeaning(x: nat, lo: nat, hi: nat)
    requires lo <= hi
    ensures forall k: nat | lo <= k < hi && BitAt(x, k) :: Pow2(k) in SetBits(x, lo, hi)
    ensures forall i | 0 <= i < |SetBits(x, lo, hi)| :: SetBitValue(x, lo, hi, SetBits(x, lo, hi)[i])
    ensures forall i, j | 0 <= i < j < |SetBits(x, lo, hi)| :: SetBits(x, lo, hi)[i] < SetBits(x, lo, hi)[j]
  {
    forall k: nat | lo <= k < hi && BitAt(x, k) {
      SetBitsComplete(x, lo, hi, k);
    }
    forall i | 0 <= i < |SetBits(x, lo, hi)| {
      SetBitsSound(x, lo, hi, i);
    }
    SetBitsAscending(x, lo, hi);
  }

  lemma {:induction false} SetBitsSplit(x: nat, lo: nat, mid: nat, hi: nat)
    requires lo <= mid <= hi
    ensures SetBits(x, lo, hi) == SetBits(x, lo, mid) + SetBits(x, mid, hi)
    decreases hi - mid
  {
    if hi > mid {
      SetBitsSplit(x, lo, mid, hi - 1);
    }
  }

  lemma {:induction false} SetBitsNone(x: nat, lo: nat, hi: nat)
    requires lo <= hi && forall k: nat | lo <= k < hi :: !BitAt(x, k)
    ensures SetBits(x, lo, hi) == []
    decreases hi - lo
  {
    if hi > lo {
      SetBitsNone(x, lo, hi - 1);
    }
  }

  /** One iteration of printTXOffloads: single_offload is 1 << bit, and masking with it tests the bit. */
  lemma OffloadStep(offloads: nat, bit: nat, single: nat)
    requires bit < 64 && single == ToU64(Pow2(bit))
    ensures single == Pow2(bit) && ToU64(single * 2) == ToU64(Pow2(bit + 1))
    ensures And(offloads, single) != 0 <==> BitAt(offloads, bit)
  {
    Pow2Width();
    Pow2Monotone(bit, 63);
    assert single == Pow2(bit);
    assert Pow2(bit + 1) == 2 * Pow2(bit);
    AndPow2(offloads, bit);
  }

  /** With no set bit below begin or from end on, the bits in [begin, end) are all of them. */
  lemma WholeWord(x: nat, begin: nat, end: nat)
    requires begin <= end <= 64
    requires forall k: nat | k < begin :: !BitAt(x, k)
    requires forall k: nat | end <= k :: !BitAt(x, k)
    ensures SetBits(x, begin, end) == SetBits(x, 0, 64)
  {
    SetBitsSplit(x, 0, begin, end);
    SetBitsSplit(x, 0, end, 64);
    SetBitsNone(x, 0, begin);
    SetBitsNone(x, end, 64);
  }

  /**
   * printTXOffloads (app/test-sniffer/port.go:136-155) as the list of the
   * offload values it prints: scanning bits from ctzll to 64 - clzll lists
   * every set bit of the 64, so the list is SetBits over the whole word.
   */
  method PrintTXOffloads(offloads: u64) returns (ret: seq<u64>)
    ensures ret == SetBits(offloads, 0, 64)
  {
    ret := [];
    if offloads == 0 {
      forall k: nat
        ensures !BitAt(offloads, k)
      {
        NoBitsOfZero(k);
      }
      WholeWord(offloads, 0, 0);
      return;
    }
    var begin := Ctzll(offloads);
    var clz := Clzll(offloads);
    var end := 64 - clz;
    OffloadStep(offloads, begin as nat, ToU64(Pow2(begin)));
    var single: u64 := Pow2(begin);
    for bit := begin as nat to end
      invariant single == ToU64(Pow2(bit))
      invariant ret == SetBits(offloads, begin, bit)
    {
      OffloadStep(offloads, bit, single);
      if And(offloads, single) != 0 {
        ret := ret + [single];
      }
      single := ToU64(single * 2);
    }
    WholeWord(offloads, begin as nat, end);
  }
}
