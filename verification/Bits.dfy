/** Infinite two's complement: every integer is a sequence of bits that is eventually constant, and
    integers with the same bits are the same. */
module Bits {
  import opened Arith

  function Pow2(k: nat): (p: nat)
    ensures p >= 1
  {
    if k == 0 then 1 else 2 * Pow2(k - 1)
  }

  lemma {:induction false} Pow2Monotone(a: nat, b: nat)
    ensures a <= b ==> Pow2(a) <= Pow2(b)
    ensures a < b ==> Pow2(a) < Pow2(b)
    decreases b
  {
    if b > 0 { if a > 0 { Pow2Monotone(a - 1, b - 1); } else { Pow2Monotone(0, b - 1); } }
  }

  /** Bit i of x; division rounds down, so negative numbers have infinitely many ones. */
  function Bit(x: int, i: nat): (b: nat)
    ensures b <= 1
  {
    x / Pow2(i) % 2
  }

  lemma DivDiv(x: int, a: nat, b: nat)
    requires a > 0 && b > 0
    ensures a * b > 0 && x / (a * b) == x / a / b
  {
    MulAtLeast(a, b);
    var q, r := x / a, x % a;
    DivModIdentity(x, a);
    DivModIdentity(q, b);
    var q', r' := q / b, q % b;
    assert x == a * (b * q' + r') + r;
    Distribute(a, b * q', r');
    assert a * (b * q') == (a * b) * q';
    assert 0 <= a * r' + r < a * b by {
      MulNonNegative(a, r');
      Distribute(a, b, r');
      MulAtLeast(a, b - r');
    }
    DivModUnique(x, a * b, q', a * r' + r);
  }

  lemma BitOfHalf(x: int, i: nat)
    ensures Bit(x, i + 1) == Bit(x / 2, i)
    ensures Bit(x, 0) == x % 2
  {
    DivDiv(x, 2, Pow2(i));
  }

  lemma Associate(p: nat, q: nat)
    ensures (2 * p) * q == 2 * (p * q)
  {
  }

  lemma {:induction false} Pow2Sum(a: nat, b: nat)
    ensures Pow2(a + b) == Pow2(a) * Pow2(b)
  {
    if a > 0 {
      Pow2Sum(a - 1, b);
      Associate(Pow2(a - 1), Pow2(b));
    }
  }

  /** Integers with the same bits are the same integer. */
  lemma {:induction false} SameBits(x: int, y: int)
    requires forall i: nat :: Bit(x, i) == Bit(y, i)
    ensures x == y
    decreases Size(x) + Size(y)
  {
    BitOfHalf(x, 0);
    BitOfHalf(y, 0);
    if !(-1 <= x <= 0 && -1 <= y <= 0) {
      forall i: nat ensures Bit(x / 2, i) == Bit(y / 2, i) {
        BitOfHalf(x, i);
        BitOfHalf(y, i);
      }
      SameBits(x / 2, y / 2);
    }
  }

  /** The size of a number: a negative one counts as its complement. */
  function Size(x: int): nat { if x < 0 then -x - 1 else x }

  datatype Operation = And | Or | Xor

  function OfBits(op: Operation, a: nat, b: nat): nat {
    match op
    case And => if a == 1 && b == 1 then 1 else 0
    case Or => if a == 1 || b == 1 then 1 else 0
    case Xor => if a != b then 1 else 0
  }

  lemma TruthTable()
    ensures OfBits(And, 1, 1) == 1 && OfBits(And, 1, 0) == OfBits(And, 0, 1) == OfBits(And, 0, 0) == 0
    ensures OfBits(Or, 0, 0) == 0 && OfBits(Or, 1, 0) == OfBits(Or, 0, 1) == OfBits(Or, 1, 1) == 1
    ensures OfBits(Xor, 0, 0) == OfBits(Xor, 1, 1) == 0 && OfBits(Xor, 1, 0) == OfBits(Xor, 0, 1) == 1
  {
  }

  /** z is the bitwise operation of x and y, in every one of the infinitely many bits. */
  ghost predicate IsBitwise(op: Operation, x: int, y: int, z: int) {
    forall i: nat :: Bit(z, i) == OfBits(op, Bit(x, i), Bit(y, i))
  }

  /** There is at most one such integer. */
  lemma BitwiseUnique(op: Operation, x: int, y: int, z: int, z': int)
    requires IsBitwise(op, x, y, z) && IsBitwise(op, x, y, z')
    ensures z == z'
  {
    SameBits(z, z');
  }

  lemma IsBitwiseHalf(op: Operation, x: int, y: int, z: int)
    ensures IsBitwise(op, x, y, z) <==> z % 2 == OfBits(op, x % 2, y % 2) && IsBitwise(op, x / 2, y / 2, z / 2)
  {
    BitOfHalf(x, 0); BitOfHalf(y, 0); BitOfHalf(z, 0);
    forall i: nat
        ensures Bit(x, i + 1) == Bit(x / 2, i) && Bit(y, i + 1) == Bit(y / 2, i) && Bit(z, i + 1) == Bit(z / 2, i) {
      BitOfHalf(x, i); BitOfHalf(y, i); BitOfHalf(z, i);
    }
    if IsBitwise(op, x, y, z) {
      assert Bit(z, 0) == OfBits(op, Bit(x, 0), Bit(y, 0));
      forall i: nat ensures Bit(z / 2, i) == OfBits(op, Bit(x / 2, i), Bit(y / 2, i)) {
        assert Bit(z, i + 1) == OfBits(op, Bit(x, i + 1), Bit(y, i + 1));
      }
    }
    if z % 2 == OfBits(op, x % 2, y % 2) && IsBitwise(op, x / 2, y / 2, z / 2) {
      forall i: nat ensures Bit(z, i) == OfBits(op, Bit(x, i), Bit(y, i)) {
        if i > 0 {
          assert Bit(z, i - 1 + 1) == Bit(z / 2, i - 1);
          assert Bit(x, i - 1 + 1) == Bit(x / 2, i - 1);
          assert Bit(y, i - 1 + 1) == Bit(y / 2, i - 1);
        }
      }
    }
  }

  /* ---- the conjunction with a nonnegative mask ---- */

  function Masked(x: int, mask: nat): nat
    decreases mask
  {
    if mask == 0 then 0 else (x % 2) * (mask % 2) + 2 * Masked(x / 2, mask / 2)
  }

  lemma ZeroBits(i: nat)
    ensures Bit(0, i) == 0
  {
    ModSmall(0, Pow2(i));
  }

  lemma MaskedHalf(x: int, mask: nat)
    requires mask > 0
    ensures Masked(x, mask) / 2 == Masked(x / 2, mask / 2)
    ensures Masked(x, mask) % 2 == OfBits(And, x % 2, mask % 2)
  {
    var low, high := (x % 2) * (mask % 2), Masked(x / 2, mask / 2);
    assert low == OfBits(And, x % 2, mask % 2);
    assert Masked(x, mask) == low + 2 * high;
  }

  lemma {:induction false} MaskedIsAnd(x: int, mask: nat)
    ensures IsBitwise(And, x, mask, Masked(x, mask))
    decreases mask
  {
    if mask == 0 {
      forall i: nat ensures Bit(0, i) == OfBits(And, Bit(x, i), Bit(0, i)) { ZeroBits(i); }
    } else {
      MaskedIsAnd(x / 2, mask / 2);
      MaskedHalf(x, mask);
      IsBitwiseHalf(And, x, mask, Masked(x, mask));
    }
  }

  /** Against a negative mask -n-1, what n selects is taken away. */
  lemma {:induction false} NegativeMask(x: int, n: nat)
    ensures IsBitwise(And, x, -1 - n, x - Masked(x, n))
    decreases n
  {
    if n == 0 {
      forall i: nat ensures Bit(x, i) == OfBits(And, Bit(x, i), Bit(-1, i)) { OnesBits(i); }
    } else {
      NegativeMask(x / 2, n / 2);
      var z, m := x - Masked(x, n), -1 - n;
      assert m / 2 == -(n / 2) - 1 && m % 2 == 1 - n % 2;
      MaskedHalf(x, n);
      var d := x % 2 - OfBits(And, x % 2, n % 2);
      assert z == 2 * (x / 2 - Masked(x / 2, n / 2)) + d;
      assert 0 <= d <= 1;
      assert z / 2 == x / 2 - Masked(x / 2, n / 2) && z % 2 == d;
      IsBitwiseHalf(And, x, m, z);
    }
  }

  lemma OnesBits(i: nat)
    ensures Bit(-1, i) == 1
  {
    DivModUnique(-1, Pow2(i), -1, Pow2(i) - 1);
  }

  /** Disjunction and exclusive or through the conjunction, bit by bit. */
  lemma {:induction false} ThroughAnd(x: int, y: int, both: int, i: nat)
    requires IsBitwise(And, x, y, both)
    ensures Bit(x + y - both, i) == OfBits(Or, Bit(x, i), Bit(y, i))
    ensures Bit(x + y - both * 2, i) == OfBits(Xor, Bit(x, i), Bit(y, i))
    decreases i
  {
    IsBitwiseHalf(And, x, y, both);
    hide IsBitwise, Bit;
    var or, xor := x + y - both, x + y - both * 2;
    var o, e := x % 2 + y % 2 - both % 2, x % 2 + y % 2 - both % 2 * 2;
    assert 0 <= o <= 1 && 0 <= e <= 1;
    assert or == 2 * (x / 2 + y / 2 - both / 2) + o;
    assert xor == 2 * (x / 2 + y / 2 - both / 2 * 2) + e;
    assert or / 2 == x / 2 + y / 2 - both / 2 && or % 2 == o;
    assert xor / 2 == x / 2 + y / 2 - both / 2 * 2 && xor % 2 == e;
    if i == 0 {
      BitOfHalf(x, 0); BitOfHalf(y, 0); BitOfHalf(or, 0); BitOfHalf(xor, 0);
    } else {
      BitOfHalf(x, i - 1); BitOfHalf(y, i - 1); BitOfHalf(or, i - 1); BitOfHalf(xor, i - 1);
      ThroughAnd(x / 2, y / 2, both / 2, i - 1);
    }
  }

  lemma Idempotent(x: int)
    ensures IsBitwise(And, x, x, x) && IsBitwise(Or, x, x, x) && IsBitwise(Xor, x, x, 0)
  {
    forall i: nat ensures Bit(0, i) == 0 { ZeroBits(i); }
  }

  lemma Commutes(op: Operation, x: int, y: int, z: int)
    ensures IsBitwise(op, x, y, z) <==> IsBitwise(op, y, x, z)
  {
  }

  /* ---- fixed widths ---- */

  predicate InSigned(x: int, width: nat)
    requires width > 0
  {
    0 - Pow2(width - 1) <= x < Pow2(width - 1)
  }

  predicate InUnsigned(x: int, width: nat) { 0 <= x < Pow2(width) }

  /** In range means: from the sign bit on, all bits are the sign. */
  lemma {:induction false} SignedBits(x: int, width: nat)
    requires width > 0
    ensures InSigned(x, width) <==> forall i: nat :: i >= width - 1 ==> Bit(x, i) == Bit(x, width - 1)
    decreases width
  {
    if width == 1 {
      BitOfHalf(x, 0);
      if -1 <= x < 1 {
        forall i: nat ensures Bit(x, i) == Bit(x, 0) { ZeroBits(i); OnesBits(i); ZeroBits(0); OnesBits(0); }
      }
      if forall i: nat :: i >= 0 ==> Bit(x, i) == Bit(x, 0) {
        var constant := if x % 2 == 0 then 0 else -1;
        forall i: nat ensures Bit(x, i) == Bit(constant, i) { ZeroBits(i); OnesBits(i); }
        SameBits(x, constant);
      }
    } else {
      SignedBits(x / 2, width - 1);
      forall i: nat ensures Bit(x, i + 1) == Bit(x / 2, i) { BitOfHalf(x, i); }
      assert Bit(x, width - 2 + 1) == Bit(x / 2, width - 2);
      assert InSigned(x, width) <==> InSigned(x / 2, width - 1);
      if forall i: nat :: i >= width - 1 ==> Bit(x, i) == Bit(x, width - 1) {
        forall i: nat | i >= width - 2 ensures Bit(x / 2, i) == Bit(x / 2, width - 2) {
          assert Bit(x, i + 1) == Bit(x, width - 1);
        }
      }
      if forall i: nat :: i >= width - 2 ==> Bit(x / 2, i) == Bit(x / 2, width - 2) {
        forall i: nat | i >= width - 1 ensures Bit(x, i) == Bit(x, width - 1) {
          assert Bit(x, i - 1 + 1) == Bit(x / 2, i - 1) == Bit(x / 2, width - 2);
        }
      }
    }
  }

  lemma {:induction false} UnsignedBits(x: int, width: nat)
    ensures InUnsigned(x, width) <==> forall i: nat :: i >= width ==> Bit(x, i) == 0
    decreases width
  {
    if width == 0 {
      if x == 0 { forall i: nat ensures Bit(x, i) == 0 { ZeroBits(i); } }
      if forall i: nat :: i >= 0 ==> Bit(x, i) == 0 {
        forall i: nat ensures Bit(x, i) == Bit(0, i) { ZeroBits(i); }
        SameBits(x, 0);
      }
    } else {
      UnsignedBits(x / 2, width - 1);
      forall i: nat ensures Bit(x, i + 1) == Bit(x / 2, i) { BitOfHalf(x, i); }
      assert InUnsigned(x, width) <==> InUnsigned(x / 2, width - 1);
      if forall i: nat :: i >= width ==> Bit(x, i) == 0 {
        forall i: nat | i >= width - 1 ensures Bit(x / 2, i) == 0 { assert Bit(x, i + 1) == 0; }
      }
      if forall i: nat :: i >= width - 1 ==> Bit(x / 2, i) == 0 {
        forall i: nat | i >= width ensures Bit(x, i) == 0 { assert Bit(x, i - 1 + 1) == Bit(x / 2, i - 1); }
      }
    }
  }

  /** Operands in a fixed-width range have their result in that range, so it is the fixed-width
      result: the one number of the range with those bits. */
  lemma StaysInWidth(op: Operation, x: int, y: int, z: int, width: nat)
    requires IsBitwise(op, x, y, z) && width > 0
    ensures InSigned(x, width) && InSigned(y, width) ==> InSigned(z, width)
    ensures InUnsigned(x, width) && InUnsigned(y, width) ==> InUnsigned(z, width)
  {
    SignedBits(x, width); SignedBits(y, width); SignedBits(z, width);
    UnsignedBits(x, width); UnsignedBits(y, width); UnsignedBits(z, width);
  }

  /* ---- shifts ---- */

  lemma Scale(x: int, p: nat)
    ensures x * (2 * p) == 2 * (x * p)
  {
  }

  /** Multiplying by a power of two moves every bit up, dividing moves it down. */
  lemma ShiftedBits(x: int, k: nat, i: nat)
    ensures Bit(x * Pow2(k), i) == if i < k then 0 else Bit(x, i - k)
    ensures Bit(x / Pow2(k), i) == Bit(x, i + k)
  {
    hide Pow2;
    ShiftedUp(x, k, i);
    DivDiv(x, Pow2(k), Pow2(i));
    Pow2Sum(k, i);
  }

  lemma {:induction false} ShiftedUp(x: int, k: nat, i: nat)
    ensures Bit(x * Pow2(k), i) == if i < k then 0 else Bit(x, i - k)
    decreases k
  {
    hide Bit;
    if k > 0 {
      var y := x * Pow2(k);
      Scale(x, Pow2(k - 1));
      assert y / 2 == x * Pow2(k - 1) && y % 2 == 0;
      if i == 0 { BitOfHalf(y, 0); }
      else {
        BitOfHalf(y, i - 1);
        ShiftedUp(x, k - 1, i - 1);
      }
    }
  }
}
