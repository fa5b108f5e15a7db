/** Bitwise operations with a constant mask on unbounded integers, encoded with div and mod only: the
    digits of the mask select bits of the operand, and the other operations follow from the
    conjunction. */
module Bitwise {
  import opened Arith
  import opened Bits
  import opened Terms
  import opened Wrappers

  const MAX_DIGITS: nat := 4096

  /** What the rest of the mask still selects, above the current place. */
  function Above(x: int, weight: nat, rest: nat): int
    requires weight > 0
  {
    weight * Masked(x / weight, rest)
  }

  lemma MaskedDigit(x: int, mask: nat)
    requires mask > 0
    ensures Masked(x, mask) == (if mask % 2 == 1 then x % 2 else 0) + 2 * Masked(x / 2, mask / 2)
  {
    hide Masked;
    MaskedHalf(x, mask);
  }

  /** One digit of the mask: its lowest bit selects a bit of x at the current place. */
  lemma DigitStep(x: int, weight: nat, rest: nat)
    requires weight > 0 && rest > 0
    ensures Above(x, weight, rest) ==
        (if rest % 2 == 1 then (x / weight) % 2 * weight else 0) + Above(x, 2 * weight, rest / 2)
  {
    hide Masked;
    DivDiv(x, weight, 2);
    MaskedDigit(x / weight, rest);
    Distribute(weight, if rest % 2 == 1 then (x / weight) % 2 else 0, 2 * Masked(x / (2 * weight), rest / 2));
    Shuffle(weight, Masked(x / (2 * weight), rest / 2));
  }

  lemma Shuffle(weight: nat, deeper: nat)
    ensures weight * (2 * deeper) == (2 * weight) * deeper
  {
  }

  /** ((x / place) % 2) * place */
  function PlaceTerm(x: Term, place: nat): Term {
    Times(Binary(Op.Mod, Binary(Op.Div, x, Num(place)), Num(2)), Num(place))
  }

  lemma PlaceMeans(x: Term, place: nat, e: Env)
    requires place > 0
    ensures Eval(PlaceTerm(x, place), e) == (Eval(x, e) / place) % 2 * place
  {
    var quotient := Binary(Op.Div, x, Num(place));
    NumMeans(place, e);
    NumMeans(2, e);
    hide Eval;
    assert Eval(quotient, e) == Eval(x, e) / place;
    assert Eval(Binary(Op.Mod, quotient, Num(2)), e) == Eval(quotient, e) % 2;
  }

  /** Part of the intersection is built; the rest of the mask is still to come. */
  ghost predicate Partial(x: Term, intersection: Term, weight: nat, rest: nat, magnitude: nat) {
    weight > 0 && forall e :: Eval(intersection, e) + Above(Eval(x, e), weight, rest) == Masked(Eval(x, e), magnitude)
  }

  lemma PartialStart(x: Term, magnitude: nat)
    ensures Partial(x, Num(0), 1, magnitude, magnitude)
  {
    hide Masked;
    forall e ensures Eval(Num(0), e) + Above(Eval(x, e), 1, magnitude) == Masked(Eval(x, e), magnitude) {
      assert Eval(x, e) / 1 == Eval(x, e);
    }
  }

  lemma PartialStep(x: Term, intersection: Term, weight: nat, rest: nat, magnitude: nat)
    requires Partial(x, intersection, weight, rest, magnitude) && rest > 0
    ensures Partial(x, if rest % 2 != 0 then Plus(intersection, PlaceTerm(x, weight))
        else intersection, 2 * weight, rest / 2, magnitude)
  {
    hide Eval, Above, Masked, PlaceTerm;
    var after := if rest % 2 != 0 then Plus(intersection, PlaceTerm(x, weight)) else intersection;
    forall e ensures Eval(after, e) + Above(Eval(x, e), 2 * weight, rest / 2) == Masked(Eval(x, e), magnitude) {
      DigitStep(Eval(x, e), weight, rest);
      PlaceMeans(x, weight, e);
    }
  }

  lemma PartialEnd(x: Term, intersection: Term, weight: nat, magnitude: nat)
    requires Partial(x, intersection, weight, 0, magnitude)
    ensures forall e :: Eval(intersection, e) == Masked(Eval(x, e), magnitude)
  {
    hide Eval;
    forall e ensures Eval(intersection, e) == Masked(Eval(x, e), magnitude) {
      assert Above(Eval(x, e), weight, 0) == 0;
    }
  }

  /** The rest of the mask, shifted back into place, is the mask without its low digits. */
  ghost predicate Leading(rest: nat, weight: nat, magnitude: nat) {
    rest * weight <= magnitude < (rest + 1) * weight
  }

  /** The intersection of the operand with the magnitude of the mask, or nothing if the mask has
      too many digits. */
  method Intersect(x: Term, magnitude: nat) returns (r: Option<Term>)
    ensures r.Some? <==> magnitude < Pow2(MAX_DIGITS)
    ensures r.Some? ==> forall e :: Eval(r.value, e) == Masked(Eval(x, e), magnitude)
  {
    hide Eval, Pow2, Partial, Masked, Leading, PlaceTerm;
    var mask, weight, digits := magnitude, 1, 0;
    var intersection := Num(0);
    PartialStart(x, magnitude);
    LeadingStart(magnitude);
    PowZero();
    while mask != 0
      invariant digits <= MAX_DIGITS && weight == Pow2(digits)
      invariant Leading(mask, weight, magnitude)
      invariant Partial(x, intersection, weight, mask, magnitude)
      decreases mask
    {
      digits := digits + 1;
      if digits > MAX_DIGITS {
        LeadingEnds(mask, weight, magnitude);
        return None;
      }
      PartialStep(x, intersection, weight, mask, magnitude);
      HalveBounds(mask, weight, magnitude);
      PowNext(digits - 1);
      if mask % 2 != 0 { intersection := Plus(intersection, PlaceTerm(x, weight)); }
      mask := mask / 2;
      weight := 2 * weight;
    }
    LeadingEnds(0, weight, magnitude);
    Pow2Monotone(digits, MAX_DIGITS);
    PartialEnd(x, intersection, weight, magnitude);
    r := Some(intersection);
  }

  lemma LeadingStart(magnitude: nat)
    ensures Leading(magnitude, 1, magnitude)
  {
  }

  lemma LeadingEnds(rest: nat, weight: nat, magnitude: nat)
    requires Leading(rest, weight, magnitude)
    ensures rest > 0 ==> magnitude >= weight
    ensures rest == 0 ==> magnitude < weight
  {
    if rest > 0 { assert rest * weight == (rest - 1) * weight + weight; MulNonNegative(rest - 1, weight); }
  }

  lemma PowZero()
    ensures Pow2(0) == 1
  {
  }

  lemma PowNext(k: nat)
    ensures Pow2(k + 1) == 2 * Pow2(k)
  {
  }

  lemma HalveBounds(mask: nat, weight: nat, magnitude: nat)
    requires Leading(mask, weight, magnitude)
    ensures Leading(mask / 2, 2 * weight, magnitude)
  {
    var h, r := mask / 2, mask % 2;
    Shuffle(weight, h);
    Shuffle(weight, h + 1);
    Distribute(weight, 2 * h, r);
    if r == 1 { assert r * weight == weight; } else { assert r * weight == 0; }
  }

  /** The result of the operation, given the conjunction with the magnitude. */
  function Combine(op: Operation, lhs: Term, rhs: Term, intersection: Term, negative: bool): Term {
    var both := if negative then Minus(lhs, intersection) else intersection;
    match op
    case And => both
    case Or => Minus(Plus(lhs, rhs), Times(both, Num(1)))
    case Xor => Minus(Plus(lhs, rhs), Times(both, Num(2)))
  }

  lemma CombineMeans(op: Operation, lhs: Term, mask: int, intersection: Term, e: Env)
    requires Eval(intersection, e) == Masked(Eval(lhs, e), Size(mask))
    ensures IsBitwise(op, Eval(lhs, e), mask, Eval(Combine(op, lhs, Num(mask), intersection, mask < 0), e))
  {
    NumMeans(1, e);
    NumMeans(2, e);
    NumMeans(mask, e);
    hide Eval, Bit, OfBits;
    var x := Eval(lhs, e);
    var both := if mask < 0 then x - Masked(x, Size(mask)) else Masked(x, mask);
    if mask < 0 { NegativeMask(x, Size(mask)); } else { MaskedIsAnd(x, mask); }
    assert IsBitwise(Operation.And, x, mask, both);
    forall i: nat
      ensures Bit(x + mask - both, i) == OfBits(Operation.Or, Bit(x, i), Bit(mask, i))
      ensures Bit(x + mask - both * 2, i) == OfBits(Operation.Xor, Bit(x, i), Bit(mask, i))
    {
      ThroughAnd(x, mask, both, i);
    }
  }

  /** The mask, or for a negative one its complement, has at most 4096 binary digits. */
  predicate AtMost4096Digits(mask: int) { 0 - Pow2(4096) <= mask < Pow2(4096) }

  /** Every mask with that many digits is answered for, and the next larger ones are not. */
  lemma LargestMasks(mask: int)
    ensures AtMost4096Digits(mask) <==> Size(mask) < Pow2(MAX_DIGITS)
    ensures AtMost4096Digits(Pow2(4096) - 1) && AtMost4096Digits(Pow2(4095))
    ensures !AtMost4096Digits(Pow2(4096)) && AtMost4096Digits(0 - Pow2(4096)) && !AtMost4096Digits(-1 - Pow2(4096))
  {
    Pow2Monotone(4095, 4096);
    hide Pow2;
  }

  /** integer_bitwise: if it answers, the term is the infinite two's-complement operation in every
      environment; it gives up exactly when the operands differ and either neither is a constant or
      the constant has too many digits. */
  method IntegerBitwise(left: Term, right: Term, op: Operation, simplify: Rewriter) returns (r: Option<Term>)
    requires Preserves(simplify)
    ensures r.Some? ==> forall e :: IsBitwise(op, Eval(left, e), Eval(right, e), Eval(r.value, e))
    ensures r.None? <==>
      && simplify(left) != simplify(right)
      && (simplify(right).Num? ==> !AtMost4096Digits(simplify(right).value))
      && (!simplify(right).Num? && simplify(left).Num? ==> !AtMost4096Digits(simplify(left).value))
  {
    hide Eval, IsBitwise, Pow2, Masked, Combine;
    var lhs, rhs := simplify(left), simplify(right);
    if lhs.Num? { LargestMasks(lhs.value); }
    if rhs.Num? { LargestMasks(rhs.value); }
    hide AtMost4096Digits;
    if lhs == rhs {
      r := Some(if op.Xor? then Num(0) else lhs);
      forall e ensures IsBitwise(op, Eval(left, e), Eval(right, e), Eval(r.value, e)) {
        assert Eval(lhs, e) == Eval(left, e) && Eval(rhs, e) == Eval(right, e);
        NumMeans(0, e);
        Idempotent(Eval(lhs, e));
      }
      return;
    }
    if !rhs.Num? { lhs, rhs := rhs, lhs; }
    if !rhs.Num? { return None; }
    var negative := rhs.value < 0;
    var intersection := Intersect(lhs, if negative then -rhs.value - 1 else rhs.value);
    if intersection.None? { return None; }
    r := Some(simplify(Combine(op, lhs, rhs, intersection.value, negative)));
    forall e ensures IsBitwise(op, Eval(left, e), Eval(right, e), Eval(r.value, e)) {
      NumMeans(rhs.value, e);
      CombineMeans(op, lhs, rhs.value, intersection.value, e);
      Commutes(op, Eval(lhs, e), Eval(rhs, e), Eval(r.value, e));
      assert Eval(simplify(left), e) == Eval(left, e) && Eval(simplify(right), e) == Eval(right, e);
    }
  }

  /** integer_shift_factor: the power of two for a constant amount in range; a negative amount, whose
      shift is undefined, gets 1. */
  method IntegerShiftFactor(amount: Term, simplify: Rewriter) returns (r: Option<Term>)
    requires Preserves(simplify)
    ensures r.Some? <==> simplify(amount).Num? && simplify(amount).value <= 4096
    ensures r.Some? ==> forall e :: Shifts(Eval(amount, e), Eval(r.value, e))
  {
    hide Eval, Pow2, ShiftsBy;
    var k := simplify(amount);
    if !k.Num? { return None; }
    if k.value < 0 {
      r := Some(Num(1));
    } else if k.value > MAX_DIGITS {
      return None;
    } else {
      r := Some(Num(Pow2(k.value)));
    }
    forall e ensures Shifts(Eval(amount, e), Eval(r.value, e)) {
      assert Eval(k, e) == Eval(amount, e);
      NumMeans(k.value, e);
      NumMeans(r.value.value, e);
      forall x: int ensures k.value >= 0 ==> ShiftsBy(k.value, x, x * Pow2(k.value), x / Pow2(k.value)) {
        if k.value >= 0 { ShiftsByPower(x, k.value); }
      }
    }
  }

  /** Multiplying and dividing by the factor shift by the amount; an undefined shift has factor 1. */
  ghost predicate Shifts(amount: int, factor: int) {
    if amount < 0 then factor == 1 else factor >= 1 && forall x: int :: ShiftsBy(amount, x, x * factor, x / factor)
  }

  /** The two numbers are x with its bits moved up and moved down by k places. */
  ghost predicate ShiftsBy(k: int, x: int, up: int, down: int) {
    k >= 0 && forall i: nat :: Bit(up, i) == (if i < k then 0 else Bit(x, i - k)) && Bit(down, i) == Bit(x, i + k)
  }

  lemma ShiftsByPower(x: int, k: nat)
    ensures ShiftsBy(k, x, x * Pow2(k), x / Pow2(k))
  {
    forall i: nat
        ensures Bit(x * Pow2(k), i) == (if i < k then 0 else Bit(x, i - k)) && Bit(x / Pow2(k), i) == Bit(x, i + k) {
      ShiftedBits(x, k, i);
    }
  }

  /** With operands in the range of a width, the answer is the fixed-width answer: it is in range
      and no other number of the range has its bits. */
  lemma FixedWidthAnswer(op: Operation, x: int, y: int, z: int, width: nat)
    requires width > 0 && IsBitwise(op, x, y, z)
    requires (InSigned(x, width) && InSigned(y, width)) || (InUnsigned(x, width) && InUnsigned(y, width))
    ensures InSigned(x, width) && InSigned(y, width) ==> InSigned(z, width) && forall z' | InSigned(z', width)
      && (forall i: nat | i < width :: Bit(z', i) == OfBits(op, Bit(x, i), Bit(y, i))) :: z' == z
    ensures InUnsigned(x, width) && InUnsigned(y, width) ==> InUnsigned(z, width) && forall z' | InUnsigned(z', width)
      && (forall i: nat | i < width :: Bit(z', i) == OfBits(op, Bit(x, i), Bit(y, i))) :: z' == z
  {
    hide Bit, OfBits;
    StaysInWidth(op, x, y, z, width);
    forall z' | InSigned(z', width) && InSigned(z, width)
      && (forall i: nat | i < width :: Bit(z', i) == OfBits(op, Bit(x, i), Bit(y, i)))
      ensures z' == z
    {
      SignedBits(z', width);
      SignedBits(z, width);
      SameLowBits(op, x, y, z, z', width);
      assert Bit(z', width - 1) == Bit(z, width - 1);
      forall i: nat ensures Bit(z', i) == Bit(z, i) { }
      SameBits(z', z);
    }
    forall z' | InUnsigned(z', width) && InUnsigned(z, width)
      && (forall i: nat | i < width :: Bit(z', i) == OfBits(op, Bit(x, i), Bit(y, i)))
      ensures z' == z
    {
      UnsignedBits(z', width);
      UnsignedBits(z, width);
      SameLowBits(op, x, y, z, z', width);
      forall i: nat ensures Bit(z', i) == Bit(z, i) { }
      SameBits(z', z);
    }
  }

  lemma SameLowBits(op: Operation, x: int, y: int, z: int, z': int, width: nat)
    requires IsBitwise(op, x, y, z) && forall i: nat | i < width :: Bit(z', i) == OfBits(op, Bit(x, i), Bit(y, i))
    ensures forall i: nat | i < width :: Bit(z', i) == Bit(z, i)
  {
  }
}
