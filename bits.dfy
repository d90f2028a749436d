/** PHP's bitwise operators on the non-negative integers the reporter uses as
    error classes and masks, defined one bit at a time from the low end. */
module Bits {

  /** `a & b`. */
  function And(a: nat, b: nat): nat
    decreases a
  {
    if a == 0 || b == 0 then 0
    else 2 * And(a / 2, b / 2) + (if a % 2 == 1 && b % 2 == 1 then 1 else 0)
  }

  /** `a | b`. */
  function Or(a: nat, b: nat): nat
    decreases a + b
  {
    if a == 0 then b
    else if b == 0 then a
    else 2 * Or(a / 2, b / 2) + (if a % 2 == 1 || b % 2 == 1 then 1 else 0)
  }

  /** `a ^ b`. */
  function Xor(a: nat, b: nat): nat
    decreases a + b
  {
    if a == 0 then b
    else if b == 0 then a
    else 2 * Xor(a / 2, b / 2) + (if a % 2 != b % 2 then 1 else 0)
  }

  /** `~b & a` for non-negative a and b: the bits of a that b lacks. */
  function AndNot(a: nat, b: nat): nat
    decreases a
  {
    if a == 0 then 0
    else if b == 0 then a
    else 2 * AndNot(a / 2, b / 2) + (if a % 2 == 1 && b % 2 == 0 then 1 else 0)
  }

  /** Every bit of a is a bit of b. */
  predicate Within(a: nat, b: nat)
  {
    AndNot(a, b) == 0
  }

  function Pow2(k: nat): (p: nat)
    ensures 1 <= p
  {
    if k == 0 then 1 else 2 * Pow2(k - 1)
  }

  lemma {:induction false} Pow2Monotone(a: nat, b: nat)
    requires a < b
    ensures Pow2(a) < Pow2(b)
  {
    if a + 1 < b {
      Pow2Monotone(a, b - 1);
    }
  }

  /** A bit of m is set in `a | b` iff it is set in a or in b. */
  lemma {:induction false} OrOverlap(a: nat, b: nat, m: nat)
    ensures And(Or(a, b), m) == 0 <==> And(a, m) == 0 && And(b, m) == 0
    decreases a + b
  {
    if a != 0 && b != 0 && m != 0 {
      OrOverlap(a / 2, b / 2, m / 2);
    }
  }

  /** `x & x == x`. */
  lemma {:induction false} AndSelf(a: nat)
    ensures And(a, a) == a
  {
    if a != 0 {
      AndSelf(a / 2);
    }
  }

  /** `(a | b) & b == b`: after `a |= b` every bit of b is present. */
  lemma {:induction false} OrKeepsOperand(a: nat, b: nat)
    ensures And(Or(a, b), b) == b
    decreases a + b
  {
    if a == 0 {
      AndSelf(b);
    } else if b != 0 {
      OrKeepsOperand(a / 2, b / 2);
    }
  }

  /** `a | b` keeps every bit mask that a already held. */
  lemma {:induction false} OrKeepsContained(a: nat, b: nat, x: nat)
    requires And(a, x) == x
    ensures And(Or(a, b), x) == x
    decreases a + b
  {
    if a != 0 && b != 0 && x != 0 {
      var o := Or(a, b);
      assert o / 2 == Or(a / 2, b / 2) && (a % 2 == 1 ==> o % 2 == 1);
      assert And(a / 2, x / 2) == x / 2 && (x % 2 == 1 ==> a % 2 == 1);
      OrKeepsContained(a / 2, b / 2, x / 2);
    }
  }

  /** `a & c == c` says the same as "every bit of c is a bit of a". */
  lemma {:induction false} AndWithin(a: nat, c: nat)
    ensures And(a, c) == c <==> Within(c, a)
    decreases c
  {
    if a != 0 && c != 0 {
      AndWithin(a / 2, c / 2);
    }
  }

  /** The low bit of `a ^ b` and the XOR of the remaining bits. */
  lemma XorHalves(a: nat, b: nat)
    ensures Xor(a, b) / 2 == Xor(a / 2, b / 2)
    ensures Xor(a, b) % 2 == (if a % 2 != b % 2 then 1 else 0)
  {
  }

  /** `a ^ a == 0`. */
  lemma {:induction false} XorSelf(a: nat)
    ensures Xor(a, a) == 0
  {
    if a != 0 {
      XorSelf(a / 2);
    }
  }

  /** `(a ^ b) ^ b == a`. */
  lemma {:induction false} XorTwice(a: nat, b: nat)
    ensures Xor(Xor(a, b), b) == a
    decreases a + b
  {
    if a != 0 && b != 0 {
      var x := Xor(a, b);
      XorHalves(a, b);
      XorHalves(x, b);
      XorTwice(a / 2, b / 2);
      var y := Xor(x, b);
      assert y / 2 == a / 2;
      assert y % 2 == a % 2;
      assert y == 2 * (y / 2) + y % 2;
    } else if a == 0 {
      XorSelf(b);
    }
  }

  /** Bit k of a is set. */
  predicate HasBit(a: nat, k: nat)
  {
    And(a, Pow2(k)) != 0
  }

  lemma HasBitLow(a: nat)
    ensures HasBit(a, 0) <==> a % 2 == 1
  {
    assert Pow2(0) == 1;
    if a != 0 {
      assert And(a / 2, 0) == 0;
    }
  }

  lemma HasBitShift(a: nat, k: nat)
    requires 0 < k
    ensures HasBit(a, k) <==> HasBit(a / 2, k - 1)
  {
  }

  /** XOR with b flips exactly the bits of b. */
  lemma {:induction false} XorFlips(a: nat, b: nat, k: nat)
    ensures HasBit(Xor(a, b), k) <==> HasBit(a, k) != HasBit(b, k)
    decreases k
  {
    XorHalves(a, b);
    if k == 0 {
      HasBitLow(Xor(a, b));
      HasBitLow(a);
      HasBitLow(b);
    } else {
      HasBitShift(Xor(a, b), k);
      HasBitShift(a, k);
      HasBitShift(b, k);
      XorFlips(a / 2, b / 2, k - 1);
    }
  }

  /** Every value below `2^k` lies within the all-ones mask `2^k - 1`. */
  lemma {:induction false} WithinAllOnes(a: nat, k: nat)
    requires a < Pow2(k)
    ensures Within(a, Pow2(k) - 1)
    decreases k
  {
    if a != 0 {
      var m := Pow2(k) - 1;
      assert m / 2 == Pow2(k - 1) - 1 && m % 2 == 1;
      WithinAllOnes(a / 2, k - 1);
      assert AndNot(a, m) == 2 * AndNot(a / 2, m / 2);
    }
  }
}
