/**
 * One's-complement folding, the arithmetic core of packet/checksum.go
 * (reduceChecksum and the final complement), as section 2 of RFC 1071
 * describes it: a sum is reduced to 16 bits by adding its carries back in.
 */
module OnesComplement {
  import opened Types

  /**
   * The 16-bit one's-complement value of a sum: zero only for a zero sum,
   * otherwise the member of 1..0xFFFF congruent to it modulo 0xFFFF (so 0xFFFF,
   * "negative zero", stands for the nonzero multiples of 0xFFFF).
   */
  function Folded(sum: nat): u16
  {
    if sum == 0 then 0 else (sum - 1) % 0xFFFF + 1
  }

  /** Adding a multiple of 0xFFFF does not change the residue. */
  lemma {:induction false} AddMultiple(q: nat, x: nat)
    ensures (0xFFFF * q + x) % 0xFFFF == x % 0xFFFF
  {
    if q > 0 {
      AddMultiple(q - 1, x);
      assert 0xFFFF * q + x == (0xFFFF * (q - 1) + x) + 0xFFFF;
    }
  }

  /** The residue of x - 1 in terms of the residue of x. */
  lemma PredResidue(x: nat)
    requires x > 0
    ensures (x - 1) % 0xFFFF == if x % 0xFFFF == 0 then 0xFFFE else x % 0xFFFF - 1
  {
    var q, r := x / 0xFFFF, x % 0xFFFF;
    assert x == 0xFFFF * q + r;
    if r == 0 {
      assert x - 1 == 0xFFFF * (q - 1) + 0xFFFE;
      AddMultiple(q - 1, 0xFFFE);
    } else {
      assert x - 1 == 0xFFFF * q + (r - 1);
      AddMultiple(q, r - 1);
    }
  }

  /**
   * What the fold keeps: the residue modulo 0xFFFF, whether the sum is zero,
   * and any sum that already fits 16 bits.
   */
  lemma FoldedResidue(sum: nat)
    ensures Folded(sum) % 0xFFFF == sum % 0xFFFF
    ensures Folded(sum) == 0 <==> sum == 0
    ensures sum <= 0xFFFF ==> Folded(sum) == sum
  {
    if sum != 0 {
      PredResidue(sum);
    }
  }

  /** Two sums with the same residue that are both zero or both nonzero fold alike. */
  lemma FoldedDetermined(x: nat, y: nat)
    requires (x == 0) == (y == 0)
    requires x % 0xFFFF == y % 0xFFFF
    ensures Folded(x) == Folded(y)
  {
    if x != 0 {
      PredResidue(x);
      PredResidue(y);
    }
  }

  /** One step of the reduceChecksum loop shrinks a sum above 0xFFFF and keeps its fold. */
  lemma FoldStep(sum: nat)
    requires sum > 0xFFFF
    ensures 0 < sum / 0x1_0000 + sum % 0x1_0000 < sum
    ensures Folded(sum / 0x1_0000 + sum % 0x1_0000) == Folded(sum)
  {
    var q, r := sum / 0x1_0000, sum % 0x1_0000;
    assert sum == 0xFFFF * q + (q + r);
    AddMultiple(q, q + r);
    FoldedDetermined(q + r, sum);
  }

  /**
   * reduceChecksum (packet/checksum.go:80-85): while the uint32 sum exceeds
   * 16 bits, add its upper half to its lower half. The loop never wraps.
   */
  method ReduceChecksum(sum: u32) returns (r: u16)
    ensures r == Folded(sum)
  {
    var s: u32 := sum;
    while s > 0xFFFF
      invariant Folded(s) == Folded(sum)
      decreases s
    {
      FoldStep(s);
      s := s / 0x1_0000 + s % 0x1_0000;
    }
    FoldedResidue(s);
    r := s;
  }

  /** Folding part of a sum first changes nothing (the basis of checksum offload). */
  lemma FoldedAbsorbs(a: nat, b: nat)
    ensures Folded(Folded(a) + b) == Folded(a + b)
  {
    var f := Folded(a);
    FoldedResidue(a);
    assert f == 0xFFFF * (f / 0xFFFF) + f % 0xFFFF;
    assert a == 0xFFFF * (a / 0xFFFF) + a % 0xFFFF;
    AddMultiple(f / 0xFFFF, f % 0xFFFF + b);
    AddMultiple(a / 0xFFFF, a % 0xFFFF + b);
    FoldedDetermined(f + b, a + b);
  }

  /** Go's ^x on a uint16. */
  function Complement(x: u16): u16 { 0xFFFF - x }

  /**
   * The verification law: adding the complement of the folded sum to the sum
   * folds to 0xFFFF, so a receiver that recomputes the checksum gets zero.
   */
  lemma VerificationLaw(sum: nat)
    ensures Folded(sum + Complement(Folded(sum))) == 0xFFFF
    ensures Complement(Folded(sum + Complement(Folded(sum)))) == 0
  {
    var f := Folded(sum);
    FoldedResidue(sum);
    var t := sum + Complement(f);
    assert sum == 0xFFFF * (sum / 0xFFFF) + f % 0xFFFF;
    assert f == 0xFFFF * (f / 0xFFFF) + f % 0xFFFF;
    var k := sum / 0xFFFF + 1 - f / 0xFFFF;
    assert f / 0xFFFF <= 1;
    assert f == 0xFFFF ==> sum >= 0xFFFF;
    assert t == 0xFFFF * k;
    AddMultiple(k, 0);
    PredResidue(t);
  }
}
