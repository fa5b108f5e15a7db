/** Machine arithmetic of a fixed width over unbounded integers: values are normalised only where a
    signed or an unsigned reading is needed, and divisions by constants are constraints on fresh
    values. */
module MachineIntegers {
  import opened Arith
  import opened Bits
  import opened Wrappers

  /** power_of_two: the factor is built by repeated doubling. */
  method PowerOfTwo(exponent: nat) returns (result: nat)
    ensures result == Pow2(exponent)
  {
    result := 1;
    var i := 0;
    while i < exponent
      invariant i <= exponent && result == Pow2(i)
    {
      result := result * 2;
      i := i + 1;
    }
  }

  function AsUnsigned(x: int, width: nat): nat { x % Pow2(width) }

  function AsSigned(x: int, width: nat): int
    requires width > 0
  {
    var u := AsUnsigned(x, width);
    if u >= Pow2(width - 1) then u - Pow2(width) else u
  }

  ghost predicate Congruent(x: int, y: int, width: nat) { x % Pow2(width) == y % Pow2(width) }

  lemma ModShiftBy(x: int, k: int, n: nat)
    requires n > 0
    ensures (x + n * k) % n == x % n
  {
    DivModIdentity(x, n);
    Distribute(n, x / n, k);
    DivModUnique(x + n * k, n, x / n + k, x % n);
  }

  lemma CongruentBy(x: int, y: int, width: nat)
    ensures Congruent(x, y, width) <==> exists k: int :: x == y + Pow2(width) * k
    ensures Congruent(x, y, width) <==> (x - y) % Pow2(width) == 0
  {
    var n := Pow2(width);
    if Congruent(x, y, width) {
      DivModIdentity(x, n);
      DivModIdentity(y, n);
      Distribute(n, x / n, y / n);
      assert x == y + n * (x / n - y / n);
    }
    if k: int :| x == y + n * k {
      ModShiftBy(y, k, n);
      ModShiftBy(0, k, n);
      ModSmall(0, n);
    }
    if (x - y) % n == 0 {
      DivModIdentity(x - y, n);
      assert x == y + n * ((x - y) / n);
    }
  }

  /** The signed reading is the one number of the signed range in its class, the unsigned reading
      the one of the unsigned range. */
  lemma ReadingsAreUnique(x: int, y: int, width: nat)
    requires width > 0
    ensures InSigned(AsSigned(x, width), width) && Congruent(AsSigned(x, width), x, width)
    ensures InUnsigned(AsUnsigned(x, width), width) && Congruent(AsUnsigned(x, width), x, width)
    ensures InSigned(y, width) && Congruent(x, y, width) ==> y == AsSigned(x, width)
    ensures InUnsigned(y, width) && Congruent(x, y, width) ==> y == AsUnsigned(x, width)
  {
    var n := Pow2(width);
    assert n == 2 * Pow2(width - 1);
    ModSmall(x % n, n);
    ModShiftBy(x % n, -1, n);
    if InSigned(y, width) {
      if y >= 0 { ModSmall(y, n); } else { ModShiftBy(y, 1, n); ModSmall(y + n, n); }
    }
    if InUnsigned(y, width) { ModSmall(y, n); }
  }

  lemma CongruentArithmetic(a: int, b: int, c: int, d: int, width: nat)
    requires Congruent(a, c, width) && Congruent(b, d, width)
    ensures Congruent(a + b, c + d, width) && Congruent(a - b, c - d, width) && Congruent(a * b, c * d, width)
  {
    var n := Pow2(width);
    CongruentBy(a, c, width);
    CongruentBy(b, d, width);
    var j: int :| a == c + n * j;
    var k: int :| b == d + n * k;
    Distribute(n, j, k);
    CongruentBy(a + b, c + d, width);
    CongruentBy(a - b, c - d, width);
    Products(a, b, c, d, n, j, k);
    CongruentBy(a * b, c * d, width);
  }

  lemma Products(a: int, b: int, c: int, d: int, n: int, j: int, k: int)
    requires a == c + n * j && b == d + n * k
    ensures a * b == c * d + n * (c * k + d * j + n * j * k)
  {
    calc {
      a * b;
      (c + n * j) * b;
      c * b + n * j * b;
      c * (d + n * k) + n * j * (d + n * k);
      c * d + c * (n * k) + n * j * d + n * j * (n * k);
      c * d + n * (c * k + d * j + n * j * k);
    }
  }

  /* ---- truncating division ---- */

  /** signed_div */
  function SignedDiv(l: int, r: int): int
    requires r != 0
  {
    var quotient := Abs(l) / Abs(r);
    if (l < 0) != (r < 0) then -quotient else quotient
  }

  /** signed_rem */
  function SignedRem(l: int, r: int): int
    requires r != 0
  {
    var remainder := Abs(l) % Abs(r);
    if l < 0 then -remainder else remainder
  }

  /** The constraint on the fresh quotient and remainder of a division. */
  predicate DivisionConstraint(l: int, r: int, q: int, m: int) {
    && l == q * r + m
    && -Abs(r) < m < Abs(r)
    && (m == 0 || (l < 0 && m < 0) || (l > 0 && m > 0))
  }

  /** For a nonzero divisor the constraint has exactly one solution: division truncated towards
      zero. */
  lemma DivisionConstraintSolved(l: int, r: int, q: int, m: int)
    requires r != 0
    ensures DivisionConstraint(l, r, q, m) <==> q == SignedDiv(l, r) && m == SignedRem(l, r)
    ensures (l == q * r + m && -Abs(r) < m < Abs(r) && (l >= 0 ==> m >= 0) && (l <= 0 ==> m <= 0)) <==>
      q == SignedDiv(l, r) && m == SignedRem(l, r)
  {
    hide SignedDiv, SignedRem;
    var s := if r < 0 then -q else q;
    SignMoves(q, r);
    TruncationByPositive(l, Abs(r), s, m);
    SignedParts(l, r);
  }

  lemma SignMoves(q: int, r: int)
    ensures r < 0 ==> q * r == (-q) * (-r)
  {
  }

  lemma SignedParts(l: int, r: int)
    requires r != 0
    ensures SignedDiv(l, r) == (if r < 0 then -1 else 1) * SignedDiv(l, Abs(r))
    ensures SignedRem(l, r) == SignedRem(l, Abs(r))
  {
    var k := Abs(l) / Abs(r);
    assert Abs(Abs(r)) == Abs(r);
    if l == 0 { ModSmall(0, Abs(r)); }
  }

  lemma TruncationByPositive(l: int, b: int, s: int, m: int)
    requires b > 0
    ensures l == s * b + m && -b < m < b && (m == 0 || (l < 0 && m < 0) || (l > 0 && m > 0))
       <==> s == SignedDiv(l, b) && m == SignedRem(l, b)
  {
    hide SignedDiv, SignedRem;
    var p, q, k := b * s, SignedDiv(l, b), SignedRem(l, b);
    Commute(s, b);
    if l >= 0 { NonNegativeTruncation(l, b, s, m, p, q, k); }
    else {
      Commute(-s, b);
      Opposite(s, b);
      SignedOpposite(l, b);
      NonNegativeTruncation(-l, b, -s, -m, -p, -q, -k);
    }
  }

  lemma SignedOpposite(l: int, b: int)
    requires b > 0
    ensures SignedDiv(-l, b) == -SignedDiv(l, b) && SignedRem(-l, b) == -SignedRem(l, b)
  {
    if l == 0 { ModSmall(0, b); }
  }

  lemma NonNegativeTruncation(l: int, b: int, s: int, m: int, p: int, q: int, k: int)
    requires l >= 0 && b > 0 && p == b * s && q == SignedDiv(l, b) && k == SignedRem(l, b)
    ensures l == p + m && -b < m < b && (m == 0 || (l > 0 && m > 0)) <==> s == q && m == k
  {
    DivModIff(l, b, s, m, p);
    if l == 0 { ModSmall(0, b); }
  }

  lemma DivModIff(a: int, b: int, s: int, m: int, p: int)
    requires b > 0 && p == b * s
    ensures a == p + m && 0 <= m < b <==> s == a / b && m == a % b
  {
    DivModIdentity(a, b);
    if a == p + m && 0 <= m < b { DivModUnique(a, b, s, m); }
  }

  lemma Commute(x: int, y: int)
    ensures x * y == y * x
  {
  }

  lemma Opposite(x: int, y: int)
    ensures (-x) * y == -(x * y)
  {
  }

  /** In range, unless the smallest number is divided by -1; the remainder always is. */
  lemma DivisionInRange(l: int, r: int, width: nat)
    requires width > 0 && r != 0 && InSigned(l, width) && InSigned(r, width)
    ensures InSigned(SignedDiv(l, r), width) <==> !(l == -1 * Pow2(width - 1) && r == -1)
    ensures InSigned(SignedRem(l, r), width)
  {
    var k := Abs(l) / Abs(r);
    DivModIdentity(Abs(l), Abs(r));
    Smaller(Abs(l), Abs(r), k, Abs(l) % Abs(r));
  }

  lemma Smaller(a: int, b: int, k: int, m: int)
    requires a >= 0 && b > 0 && a == b * k + m && 0 <= m < b
    ensures 0 <= k <= a && m <= a && (b > 1 && a > 0 ==> k < a) && (b == 1 ==> k == a)
  {
    if k < 0 { MulAtLeast(b, -k); Opposite(k, b); Commute(-k, b); Commute(k, b); }
    else {
      MulAtLeast(k, b);
      Commute(k, b);
      MulNonNegative(b, k);
      if b > 1 && k > 0 {
        Distribute(k, b, 1);
        MulAtLeast(k, b - 1);
      }
    }
  }

  /* ---- expressions ---- */

  datatype Op = Add | Sub | Mul | SDiv | SRem | UDiv | URem

  /** A tree of binary instructions. A division by a constant carries the values of its fresh
      quotient and remainder; `known` says that an operand is known to be in the signed range. */
  datatype Tree =
    | Leaf(value: int)
    | Node(op: Op, l: Tree, r: Tree, flags: Flags, fresh_: Option<(int, int)>)

  datatype Flags = Flags(nsw: bool, nuw: bool, exact: bool, knownL: bool, knownR: bool)

  datatype Lazy = Lazy(value: int, defined: bool)

  /** signed_value: an operand known to be in range is taken as it is. */
  function SignedValue(x: int, known: bool, width: nat): int
    requires width > 0
  {
    if known then x else AsSigned(x, width)
  }

  function SignedMin(width: nat): int
    requires width > 0
  {
    -1 * Pow2(width - 1)
  }

  /** One binary instruction on lazily kept operands. */
  function Execute(op: Op, l: int, r: int, f: Flags, fresh_: Option<(int, int)>, width: nat): Lazy
    requires width > 0
  {
    var sl, sr := SignedValue(l, f.knownL, width), SignedValue(r, f.knownR, width);
    var ul, ur := AsUnsigned(l, width), AsUnsigned(r, width);
    match op
    case Add =>
      Lazy(if f.nsw then sl + sr else l + r,
           (f.nsw ==> InSigned(sl + sr, width)) && (f.nuw ==> ul + ur < Pow2(width)))
    case Sub =>
      Lazy(if f.nsw then sl - sr else l - r,
           (f.nsw ==> InSigned(sl - sr, width)) && (f.nuw ==> ul >= ur))
    case Mul =>
      Lazy(if f.nsw then sl * sr else l * r,
           (f.nsw ==> InSigned(sl * sr, width)) && (f.nuw ==> ul * ur < Pow2(width)))
    case SDiv =>
      var possible := sr != 0 && !(sl == SignedMin(width) && sr == -1);
      (match fresh_
       case Some((q, m)) => Lazy(q, possible && DivisionConstraint(sl, sr, q, m) && (f.exact ==> m == 0))
       case None =>
         if sr == 0 then Lazy(0, false) else Lazy(SignedDiv(sl, sr), possible && (f.exact ==> SignedRem(sl, sr) == 0)))
    case SRem =>
      (match fresh_
       case Some((q, m)) => Lazy(m, sr != 0 && DivisionConstraint(sl, sr, q, m))
       case None => if sr == 0 then Lazy(0, false) else Lazy(SignedRem(sl, sr), true))
    case UDiv => if ur == 0 then Lazy(0, false) else Lazy(ul / ur, f.exact ==> ul % ur == 0)
    case URem => if ur == 0 then Lazy(0, false) else Lazy(ul % ur, true)
  }

  function Symbolic(t: Tree, width: nat): Lazy
    requires width > 0
  {
    match t
    case Leaf(v) => Lazy(v, true)
    case Node(op, l, r, f, fresh_) =>
      var a, b := Symbolic(l, width), Symbolic(r, width);
      var c := Execute(op, a.value, b.value, f, fresh_, width);
      Lazy(c.value, a.defined && b.defined && c.defined)
  }

  /* ---- the machine: bit patterns, with overflow and division checked at every instruction ---- */

  function Checked(x: int, ok: bool, width: nat): Option<nat> {
    if ok then Some(AsUnsigned(x, width)) else None
  }

  function MachineOp(op: Op, p: nat, q: nat, f: Flags, width: nat): Option<nat>
    requires width > 0
  {
    var sp, sq := AsSigned(p, width), AsSigned(q, width);
    match op
    case Add => Checked(p + q, (f.nsw ==> InSigned(sp + sq, width)) && (f.nuw ==> InUnsigned(p + q, width)), width)
    case Sub => Checked(p - q, (f.nsw ==> InSigned(sp - sq, width)) && (f.nuw ==> InUnsigned(p - q, width)), width)
    case Mul => Checked(p * q, (f.nsw ==> InSigned(sp * sq, width)) && (f.nuw ==> InUnsigned(p * q, width)), width)
    case SDiv =>
      if sq == 0 then None
      else Checked(SignedDiv(sp, sq), InSigned(SignedDiv(sp, sq), width)
          && (f.exact ==> SignedDiv(sp, sq) * sq == sp), width)
    case SRem =>
      // undefined where the quotient is, although the remainder would fit
      if sq == 0 then None else Checked(SignedRem(sp, sq), InSigned(SignedDiv(sp, sq), width), width)
    case UDiv => if q == 0 then None else Checked(p / q, f.exact ==> p / q * q == p, width)
    case URem => if q == 0 then None else Checked(p % q, true, width)
  }

  function Machine(t: Tree, width: nat): Option<nat>
    requires width > 0
  {
    match t
    case Leaf(v) => Some(AsUnsigned(v, width))
    case Node(op, l, r, f, _) =>
      var a, b := Machine(l, width), Machine(r, width);
      if a.None? || b.None? then None else MachineOp(op, a.value, b.value, f, width)
  }

  /** What is known of an operand is true wherever the operand is defined. */
  predicate Truthful(t: Tree, width: nat)
    requires width > 0
  {
    match t
    case Leaf(_) => true
    case Node(_, l, r, f, _) =>
      && Truthful(l, width) && Truthful(r, width)
      && (f.knownL && Symbolic(l, width).defined ==> InSigned(Symbolic(l, width).value, width))
      && (f.knownR && Symbolic(r, width).defined ==> InSigned(Symbolic(r, width).value, width))
  }

  /** The fresh values that a division needs. */
  function Solution(op: Op, sl: int, sr: int): (int, int) {
    if sr == 0 then (0, 0) else (SignedDiv(sl, sr), SignedRem(sl, sr))
  }

  predicate FreshFits(op: Op, sl: int, sr: int, fresh_: Option<(int, int)>) {
    (op.SDiv? || op.SRem?) && fresh_.Some? ==> fresh_.value == Solution(op, sl, sr)
  }

  /** The least number srem -1: the machine leaves it undefined, the code does not exclude it. */
  predicate Overlooked(op: Op, sl: int, sr: int, width: nat)
    requires width > 0
  {
    op.SRem? && sl == SignedMin(width) && sr == -1
  }

  /** One instruction, exactly: it is defined if and only if the fresh values are the quotient and
      remainder and the machine's instruction on the patterns is defined or is the overlooked srem.
      Where both are defined the value has the machine's pattern. */
  lemma ExecuteIsExact(op: Op, l: int, r: int, f: Flags, fresh_: Option<(int, int)>, width: nat)
    requires width > 0
    requires f.knownL ==> InSigned(l, width)
    requires f.knownR ==> InSigned(r, width)
    ensures
      var c := Execute(op, l, r, f, fresh_, width);
      var m := MachineOp(op, AsUnsigned(l, width), AsUnsigned(r, width), f, width);
      var sl, sr := AsSigned(l, width), AsSigned(r, width);
      var fits, overlooked := FreshFits(op, sl, sr, fresh_), Overlooked(op, sl, sr, width);
      && (c.defined <==> fits && (m.Some? || overlooked))
      && (overlooked ==> m.None?)
      && ((c.defined <==> m.Some? && fits) <==> !(overlooked && fits))
      && (c.defined && m.Some? ==> m == Some(AsUnsigned(c.value, width)))
  {
    hide DivisionConstraint, InSigned, AsSigned, AsUnsigned, SignedDiv, SignedRem, SignedMin;
    SameReading(l, f.knownL, width);
    SameReading(r, f.knownR, width);
    if op.Add? || op.Sub? || op.Mul? { RingIsExact(op, l, r, f, fresh_, width); }
    else { DivisionIsExact(op, l, r, f, fresh_, width); }
  }

  /** The failing input, at every width. */
  lemma SremOverflowOverlooked(f: Flags, width: nat)
    requires width > 0
    ensures
      var l, r := SignedMin(width), -1;
      && Execute(SRem, l, r, f, None, width) == Lazy(0, true)
      && MachineOp(SRem, AsUnsigned(l, width), AsUnsigned(r, width), f, width).None?
  {
    var l := SignedMin(width);
    assert Pow2(width) == 2 * Pow2(width - 1);
    assert InSigned(l, width) && InSigned(-1, width);
    ReadingsAreUnique(l, l, width);
    ReadingsAreUnique(-1, -1, width);
    hide AsSigned, AsUnsigned;
    ExecuteIsExact(SRem, l, -1, f, None, width);
    assert Abs(l) % 1 == 0;
  }

  /** Both sides read an operand alike. */
  lemma SameReading(x: int, known: bool, width: nat)
    requires width > 0 && (known ==> InSigned(x, width))
    ensures SignedValue(x, known, width) == AsSigned(x, width) == AsSigned(AsUnsigned(x, width), width)
  {
    hide InSigned;
    ReadingsAreUnique(x, x, width);
    ReadingsAreUnique(AsUnsigned(x, width), AsSigned(x, width), width);
  }

  lemma RingIsExact(op: Op, l: int, r: int, f: Flags, fresh_: Option<(int, int)>, width: nat)
    requires width > 0 && (op.Add? || op.Sub? || op.Mul?)
    requires f.knownL ==> InSigned(l, width)
    requires f.knownR ==> InSigned(r, width)
    ensures
      var c := Execute(op, l, r, f, fresh_, width);
      var m := MachineOp(op, AsUnsigned(l, width), AsUnsigned(r, width), f, width);
      && (c.defined <==> m.Some?) && (c.defined ==> m == Some(AsUnsigned(c.value, width)))
  {
    hide InSigned, AsSigned;
    SameReading(l, f.knownL, width);
    SameReading(r, f.knownR, width);
    var sl, sr, ul, ur := AsSigned(l, width), AsSigned(r, width), AsUnsigned(l, width), AsUnsigned(r, width);
    ReadingsAreUnique(l, l, width);
    ReadingsAreUnique(r, r, width);
    CongruentArithmetic(sl, sr, ul, ur, width);
    CongruentArithmetic(l, r, ul, ur, width);
    MulNonNegative(ul, ur);
  }

  lemma DivisionIsExact(op: Op, l: int, r: int, f: Flags, fresh_: Option<(int, int)>, width: nat)
    requires width > 0 && !(op.Add? || op.Sub? || op.Mul?)
    requires f.knownL ==> InSigned(l, width)
    requires f.knownR ==> InSigned(r, width)
    ensures
      var c := Execute(op, l, r, f, fresh_, width);
      var m := MachineOp(op, AsUnsigned(l, width), AsUnsigned(r, width), f, width);
      var sl, sr := AsSigned(l, width), AsSigned(r, width);
      && (c.defined <==> FreshFits(op, sl, sr, fresh_) && (m.Some? || Overlooked(op, sl, sr, width)))
      && (Overlooked(op, sl, sr, width) ==> m.None?)
      && (c.defined && m.Some? ==> m == Some(AsUnsigned(c.value, width)))
  {
    hide InSigned, AsSigned, AsUnsigned, DivisionConstraint, SignedDiv, SignedRem;
    SameReading(l, f.knownL, width);
    SameReading(r, f.knownR, width);
    var sl, sr := AsSigned(l, width), AsSigned(r, width);
    var ul, ur := AsUnsigned(l, width), AsUnsigned(r, width);
    if op.SDiv? || op.SRem? {
      if sr != 0 {
        ReadingsAreUnique(l, l, width);
        ReadingsAreUnique(r, r, width);
        DivisionInRange(sl, sr, width);
        DivisionConstraintSolved(sl, sr, SignedDiv(sl, sr), SignedRem(sl, sr));
        ExactMeans(sl, sr, SignedDiv(sl, sr), SignedRem(sl, sr));
        if fresh_.Some? { DivisionConstraintSolved(sl, sr, fresh_.value.0, fresh_.value.1); }
      }
    } else if ur != 0 {
      DivModIdentity(ul, ur);
      assert ul / ur * ur == ur * (ul / ur);
    }
  }

  lemma ExactMeans(l: int, r: int, q: int, m: int)
    requires DivisionConstraint(l, r, q, m)
    ensures m == 0 <==> q * r == l
  {
  }

  /** Every division with fresh values has the right ones. */
  predicate Solved(t: Tree, width: nat)
    requires width > 0
  {
    match t
    case Leaf(_) => true
    case Node(op, l, r, f, fresh_) =>
      && Solved(l, width) && Solved(r, width)
      && FreshFits(op, AsSigned(Symbolic(l, width).value, width), AsSigned(Symbolic(r, width).value, width), fresh_)
  }

  /** No srem of the tree is given the least number and -1. */
  predicate NoneOverlooked(t: Tree, width: nat)
    requires width > 0
  {
    match t
    case Leaf(_) => true
    case Node(op, l, r, _, _) =>
      && NoneOverlooked(l, width) && NoneOverlooked(r, width)
      && !Overlooked(op, AsSigned(Symbolic(l, width).value, width), AsSigned(Symbolic(r, width).value, width), width)
  }

  /** Lazy machine arithmetic, exactly. A tree is defined wherever the machine computes it without
      overflow or a bad division and the fresh values solve their divisions; where it is defined, the
      machine computes it if and only if no srem is given the least number and -1, and then normalising
      its value once, at the end, gives what normalising at every node gives. */
  lemma {:induction false} LazyIsExact(t: Tree, width: nat)
    requires width > 0 && Truthful(t, width)
    ensures Machine(t, width).Some? && Solved(t, width) ==> Symbolic(t, width).defined
    ensures Symbolic(t, width).defined ==> Solved(t, width) && (Machine(t, width).Some? <==> NoneOverlooked(t, width))
    ensures Symbolic(t, width).defined && NoneOverlooked(t, width) ==>
      && Machine(t, width) == Some(AsUnsigned(Symbolic(t, width).value, width))
      && AsSigned(Machine(t, width).value, width) == AsSigned(Symbolic(t, width).value, width)
  {
    hide Execute, MachineOp, FreshFits, AsSigned, AsUnsigned, Overlooked;
    match t
    case Leaf(v) => SameReading(v, false, width);
    case Node(op, l, r, f, fresh_) =>
      LazyIsExact(l, width);
      LazyIsExact(r, width);
      var a, b := Symbolic(l, width), Symbolic(r, width);
      if a.defined && b.defined {
        ExecuteIsExact(op, a.value, b.value, f, fresh_, width);
        SameReading(Execute(op, a.value, b.value, f, fresh_, width).value, false, width);
      }
  }

  /** A tree is defined exactly when the machine computes it and its fresh values are right, if and only
      if it is not defined with an overlooked srem. */
  lemma LazyFailsExactly(t: Tree, width: nat)
    requires width > 0 && Truthful(t, width)
    ensures (Symbolic(t, width).defined <==> Machine(t, width).Some? && Solved(t, width)) <==>
      (Symbolic(t, width).defined ==> NoneOverlooked(t, width))
  {
    hide Symbolic, Machine, Solved, NoneOverlooked, Truthful;
    LazyIsExact(t, width);
  }

  /** The tree with its fresh values filled in. */
  function Solve(t: Tree, width: nat): (u: Tree)
    requires width > 0
    ensures SameTree(t, u)
    ensures Solved(u, width)
  {
    match t
    case Leaf(_) => t
    case Node(op, l, r, f, fresh_) =>
      var l', r' := Solve(l, width), Solve(r, width);
      var sl, sr := AsSigned(Symbolic(l', width).value, width), AsSigned(Symbolic(r', width).value, width);
      Node(op, l', r', f, if fresh_.Some? then Some(Solution(op, sl, sr)) else None)
  }

  /** The same instructions; only fresh values may differ. */
  predicate SameTree(t: Tree, u: Tree) {
    match t
    case Leaf(v) => u == t
    case Node(op, l, r, f, x) =>
      u.Node? && u.op == op && u.flags == f && u.fresh_.Some? == x.Some? && SameTree(l, u.l) && SameTree(r, u.r)
  }

  lemma {:induction false} SameMachine(t: Tree, u: Tree, width: nat)
    requires width > 0 && SameTree(t, u)
    ensures Machine(t, width) == Machine(u, width)
  {
    hide MachineOp;
    if t.Node? {
      SameMachine(t.l, u.l, width);
      SameMachine(t.r, u.r, width);
    }
  }

  /** With the right fresh values a tree evaluates as the tree with them filled in. */
  lemma {:induction false} SolvedSame(t: Tree, u: Tree, width: nat)
    requires width > 0 && SameTree(t, u) && Solved(u, width)
    ensures Symbolic(u, width) == Symbolic(Solve(t, width), width)
    ensures NoneOverlooked(u, width) <==> NoneOverlooked(Solve(t, width), width)
  {
    hide AsSigned, DivisionConstraint, Overlooked;
    if t.Node? {
      SolvedSame(t.l, u.l, width);
      SolvedSame(t.r, u.r, width);
      SolvedNode(t.op, Symbolic(u.l, width).value, Symbolic(u.r, width).value, t.flags, t.fresh_, u.fresh_, width);
    }
  }

  lemma SolvedNode(op: Op, l: int, r: int, f: Flags, x: Option<(int, int)>, y: Option<(int, int)>, width: nat)
    requires width > 0 && x.Some? == y.Some? && FreshFits(op, AsSigned(l, width), AsSigned(r, width), y)
    ensures
      var filled := if x.Some? then Some(Solution(op, AsSigned(l, width), AsSigned(r, width))) else None;
      Execute(op, l, r, f, y, width) == Execute(op, l, r, f, filled, width)
  {
    hide AsSigned, AsUnsigned, DivisionConstraint, InSigned, SignedDiv, SignedRem;
  }

  /** The fresh quotients and remainders are determined: every defined evaluation is the one with them
      filled in, that one is defined wherever the machine computes the tree, and where it is defined the
      machine does if and only if no srem is given the least number and -1, with the same value. */
  lemma FreshValuesDetermined(t: Tree, u: Tree, width: nat)
    requires width > 0 && SameTree(t, u) && Truthful(u, width) && Truthful(Solve(t, width), width)
    ensures Machine(t, width).Some? <==>
        Symbolic(Solve(t, width), width).defined && NoneOverlooked(Solve(t, width), width)
    ensures Symbolic(u, width).defined ==> Symbolic(u, width) == Symbolic(Solve(t, width), width)
    ensures Symbolic(u, width).defined ==>
      if NoneOverlooked(u, width) then Machine(t, width) == Some(AsUnsigned(Symbolic(u, width).value, width))
      else Machine(t, width).None?
  {
    hide Symbolic, Machine, Truthful, AsUnsigned, AsSigned, Solve, Solved, NoneOverlooked;
    SameMachine(t, u, width);
    SameMachine(t, Solve(t, width), width);
    LazyIsExact(u, width);
    LazyIsExact(Solve(t, width), width);
    if Solved(u, width) { SolvedSame(t, u, width); }
  }

  /* ---- comparisons ---- */

  datatype Comparison = CEQ | CNE | SLT | SLE | SGT | SGE | ULT | ULE | UGT | UGE

  function Compare(c: Comparison, s: int, t: int): bool {
    match c
    case CEQ => s == t
    case CNE => s != t
    case SLT => s < t
    case ULT => s < t
    case SLE => s <= t
    case ULE => s <= t
    case SGT => s > t
    case UGT => s > t
    case SGE => s >= t
    case UGE => s >= t
  }

  predicate IsUnsigned(c: Comparison) { c.ULT? || c.ULE? || c.UGT? || c.UGE? }

  /** unsigned_value */
  function UnsignedValue(x: int, known: bool, width: nat): int { if known then x else AsUnsigned(x, width) }

  /** One comparison instruction; `f` says what is known of the operands' signed range, `u` of their
      unsigned range. */
  function ExecuteCompare(c: Comparison, l: int, r: int, f: Flags, u: Flags, width: nat): bool
    requires width > 0
  {
    match c
    case CEQ => if f.knownL && f.knownR then l == r else (l - r) % Pow2(width) == 0
    case CNE => if f.knownL && f.knownR then l != r else (l - r) % Pow2(width) != 0
    case _ =>
      if IsUnsigned(c) then Compare(c, UnsignedValue(l, u.knownL, width), UnsignedValue(r, u.knownR, width))
      else Compare(c, SignedValue(l, f.knownL, width), SignedValue(r, f.knownR, width))
  }

  /** A comparison of lazily kept operands compares the machine's patterns: as unsigned numbers,
      signed numbers, or for equality. */
  lemma CompareIsExact(c: Comparison, l: int, r: int, f: Flags, u: Flags, width: nat)
    requires width > 0
    requires (f.knownL ==> InSigned(l, width)) && (f.knownR ==> InSigned(r, width))
    requires (u.knownL ==> InUnsigned(l, width)) && (u.knownR ==> InUnsigned(r, width))
    ensures
      var p, q := AsUnsigned(l, width), AsUnsigned(r, width);
      var sp, sq := AsSigned(p, width), AsSigned(q, width);
      ExecuteCompare(c, l, r, f, u, width) <==>
        match c
        case CEQ => p == q
        case CNE => p != q
        case SLT => sp < sq
        case SLE => sp < sq || sp == sq
        case SGT => sq < sp
        case SGE => !(sp < sq)
        case ULT => p < q
        case ULE => p < q || p == q
        case UGT => q < p
        case UGE => !(p < q)
    ensures AsUnsigned(l, width) == AsUnsigned(r, width) <==> AsSigned(l, width) == AsSigned(r, width)
  {
    hide InSigned, AsSigned, AsUnsigned, InUnsigned, Congruent, Pow2, UnsignedValue;
    SameReading(l, f.knownL, width);
    SameReading(r, f.knownR, width);
    SameUnsigned(l, u.knownL, width);
    SameUnsigned(r, u.knownR, width);
    ModularEquality(l, r, width);
  }

  lemma SameUnsigned(x: int, known: bool, width: nat)
    requires width > 0 && (known ==> InUnsigned(x, width))
    ensures UnsignedValue(x, known, width) == AsUnsigned(x, width)
  {
    ReadingsAreUnique(x, x, width);
  }

  /** Two numbers have the same pattern exactly if their difference is a multiple of the modulus, and
      exactly if they have the same signed reading. */
  lemma ModularEquality(l: int, r: int, width: nat)
    requires width > 0
    ensures AsUnsigned(l, width) == AsUnsigned(r, width) <==> (l - r) % Pow2(width) == 0
    ensures AsUnsigned(l, width) == AsUnsigned(r, width) <==> AsSigned(l, width) == AsSigned(r, width)
  {
    hide InSigned, AsSigned;
    CongruentBy(l, r, width);
    ReadingsAreUnique(l, r, width);
    ReadingsAreUnique(r, l, width);
    ReadingsAreUnique(l, AsSigned(r, width), width);
    if AsSigned(l, width) == AsSigned(r, width) { assert Congruent(l, r, width); }
  }
}
