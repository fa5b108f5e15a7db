/** Polynomials in several variables as lists of terms: two lists are the same polynomial if every
    monomial has the same total coefficient in both. */
module Polynomials {

  type Exponents = seq<nat>
  datatype Monomial = Monomial(coeff: real, exps: Exponents)
  type Poly = seq<Monomial>

  /** Multiplication of coefficients, named so that its laws are used one at a time. */
  function Times(a: real, b: real): real { a * b }

  lemma TimesLaws(a: real, b: real, c: real)
    ensures Times(a, b) == Times(b, a)
    ensures Times(Times(a, b), c) == Times(a, Times(b, c))
    ensures Times(a, b + c) == Times(a, b) + Times(a, c)
    ensures Times(1.0, a) == a && Times(0.0, a) == 0.0
    ensures Times(-1.0, a) == -a
  {
    assert (a * b) * c == a * (b * c);
  }

  predicate InVariables(p: Poly, m: nat) { forall i | 0 <= i < |p| :: |p[i].exps| == m }

  predicate AllInVariables(ps: seq<Poly>, m: nat) { forall i | 0 <= i < |ps| :: InVariables(ps[i], m) }

  /** The sum over the terms of coefficient times weight: every linear reading of a polynomial. */
  function Weigh(p: Poly, g: Exponents -> real): real {
    if p == [] then 0.0 else Times(p[0].coeff, g(p[0].exps)) + Weigh(p[1..], g)
  }

  function Indicator(e: Exponents): Exponents -> real {
    (x: Exponents) => if x == e then 1.0 else 0.0
  }

  /** The coefficient of a monomial. */
  function Coeff(p: Poly, e: Exponents): real { Weigh(p, Indicator(e)) }

  ghost predicate SamePoly(p: Poly, q: Poly) { forall e :: Coeff(p, e) == Coeff(q, e) }

  ghost predicate IsZero(p: Poly) { forall e :: Coeff(p, e) == 0.0 }

  lemma {:induction false} WeighConcat(p: Poly, q: Poly, g: Exponents -> real)
    ensures Weigh(p + q, g) == Weigh(p, g) + Weigh(q, g)
  {
    hide Times;
    if p == [] {
      assert p + q == q;
    } else {
      assert (p + q)[1..] == p[1..] + q;
      WeighConcat(p[1..], q, g);
    }
  }

  function Scale(a: real, p: Poly): (r: Poly)
    ensures |r| == |p| && forall i | 0 <= i < |p| :: r[i] == Monomial(Times(a, p[i].coeff), p[i].exps)
  {
    seq(|p|, i requires 0 <= i < |p| => Monomial(Times(a, p[i].coeff), p[i].exps))
  }

  lemma {:induction false} WeighScale(a: real, p: Poly, g: Exponents -> real)
    ensures Weigh(Scale(a, p), g) == Times(a, Weigh(p, g))
  {
    hide Times;
    if p == [] {
      TimesLaws(0.0, a, 0.0);
      TimesLaws(a, 0.0, 0.0);
    } else {
      var rest := Scale(a, p)[1..];
      assert forall i | 0 <= i < |rest| :: rest[i] == Scale(a, p)[i + 1] == Scale(a, p[1..])[i];
      assert rest == Scale(a, p[1..]);
      WeighScale(a, p[1..], g);
      TimesLaws(a, p[0].coeff, g(p[0].exps));
      TimesLaws(a, Times(p[0].coeff, g(p[0].exps)), Weigh(p[1..], g));
    }
  }

  /** The terms with other exponents. */
  function Others(p: Poly, e: Exponents): (r: Poly)
    ensures |r| <= |p|
  {
    if p == [] then [] else if p[0].exps == e then Others(p[1..], e) else [p[0]] + Others(p[1..], e)
  }

  lemma {:induction false} WeighOthers(p: Poly, e: Exponents, g: Exponents -> real)
    ensures Weigh(p, g) == Times(Coeff(p, e), g(e)) + Weigh(Others(p, e), g)
  {
    hide Times;
    if p == [] {
      TimesLaws(g(e), 0.0, 0.0);
      TimesLaws(0.0, g(e), 0.0);
    } else {
      var c := p[0].coeff;
      WeighOthers(p[1..], e, g);
      TimesLaws(c, 1.0, 0.0);
      TimesLaws(1.0, c, 0.0);
      TimesLaws(c, 0.0, 0.0);
      TimesLaws(0.0, c, 0.0);
      if p[0].exps == e {
        TimesLaws(g(e), c, Coeff(p[1..], e));
        TimesLaws(c, g(e), 0.0);
        TimesLaws(Coeff(p[1..], e), g(e), 0.0);
        TimesLaws(c + Coeff(p[1..], e), g(e), 0.0);
      } else {
        assert ([p[0]] + Others(p[1..], e))[1..] == Others(p[1..], e);
      }
    }
  }

  lemma CoeffOthers(p: Poly, e: Exponents, f: Exponents)
    ensures Coeff(Others(p, e), f) == if f == e then 0.0 else Coeff(p, f)
  {
    hide Times, Weigh;
    WeighOthers(p, e, Indicator(f));
    TimesLaws(1.0, Coeff(p, e), 0.0);
    TimesLaws(Coeff(p, e), 1.0, 0.0);
    TimesLaws(0.0, Coeff(p, e), 0.0);
    TimesLaws(Coeff(p, e), 0.0, 0.0);
  }

  /** A polynomial that is zero has weight zero, whatever the weights. */
  lemma {:induction false} ZeroWeighsNothing(p: Poly, g: Exponents -> real)
    requires IsZero(p)
    ensures Weigh(p, g) == 0.0
    decreases |p|
  {
    hide Times, Coeff;
    if p != [] {
      var e := p[0].exps;
      WeighOthers(p, e, g);
      TimesLaws(0.0, g(e), 0.0);
      TimesLaws(g(e), 0.0, 0.0);
      forall f ensures Coeff(Others(p, e), f) == 0.0 { CoeffOthers(p, e, f); }
      ZeroWeighsNothing(Others(p, e), g);
    }
  }

  function Minus(p: Poly, q: Poly): Poly { p + Scale(-1.0, q) }

  lemma WeighMinus(p: Poly, q: Poly, g: Exponents -> real)
    ensures Weigh(Minus(p, q), g) == Weigh(p, g) - Weigh(q, g)
  {
    hide Times, Weigh;
    WeighConcat(p, Scale(-1.0, q), g);
    WeighScale(-1.0, q, g);
    TimesLaws(Weigh(q, g), 0.0, 0.0);
  }

  /** Every linear reading depends only on the polynomial, not on its list of terms. */
  lemma SameWeight(p: Poly, q: Poly, g: Exponents -> real)
    requires SamePoly(p, q)
    ensures Weigh(p, g) == Weigh(q, g)
  {
    hide Times, Weigh, Minus;
    forall e ensures Coeff(Minus(p, q), e) == 0.0 {
      assert Coeff(p, e) == Coeff(q, e);
      WeighMinus(p, q, Indicator(e));
    }
    ZeroWeighsNothing(Minus(p, q), g);
    WeighMinus(p, q, g);
  }

  /* ---- products and powers ---- */

  function AddExponents(e: Exponents, f: Exponents): (r: Exponents)
    requires |e| == |f|
    ensures |r| == |e|
  {
    seq(|e|, i requires 0 <= i < |e| => e[i] + f[i])
  }

  function ZeroExponents(m: nat): (e: Exponents)
    ensures |e| == m
  {
    seq(m, i => 0)
  }

  function One(m: nat): (p: Poly)
    ensures InVariables(p, m)
  {
    [Monomial(1.0, ZeroExponents(m))]
  }

  function TimesMonomial(t: Monomial, q: Poly): (r: Poly)
    requires InVariables(q, |t.exps|)
    ensures |r| == |q| && InVariables(r, |t.exps|)
  {
    seq(|q|, i requires 0 <= i < |q| => Monomial(Times(t.coeff, q[i].coeff), AddExponents(t.exps, q[i].exps)))
  }

  function Mul(p: Poly, q: Poly, m: nat): (r: Poly)
    requires InVariables(p, m) && InVariables(q, m)
    ensures InVariables(r, m)
  {
    if p == [] then [] else TimesMonomial(p[0], q) + Mul(p[1..], q, m)
  }

  function PolyPower(p: Poly, k: nat, m: nat): (r: Poly)
    requires InVariables(p, m)
    ensures InVariables(r, m)
  {
    if k == 0 then One(m) else Mul(PolyPower(p, k - 1, m), p, m)
  }

  /** The product of powers that a monomial becomes when its variables are replaced. */
  function Image(e: Exponents, fs: seq<Poly>, m: nat): (r: Poly)
    requires |e| == |fs| && AllInVariables(fs, m)
    ensures InVariables(r, m)
    decreases |e|
  {
    if e == [] then One(m)
    else
      var k := |e| - 1;
      Mul(Image(e[..k], fs[..k], m), PolyPower(fs[k], e[k], m), m)
  }

  /** All variables replaced by polynomials at once. */
  function Compose(p: Poly, fs: seq<Poly>, m: nat): (r: Poly)
    requires InVariables(p, |fs|) && AllInVariables(fs, m)
    ensures InVariables(r, m)
  {
    if p == [] then [] else Scale(p[0].coeff, Image(p[0].exps, fs, m)) + Compose(p[1..], fs, m)
  }

  /** How much of a monomial the image of another contains. */
  function ImageWeight(fs: seq<Poly>, m: nat, g: Exponents -> real): Exponents -> real
    requires AllInVariables(fs, m)
  {
    (e: Exponents) => if |e| == |fs| then Weigh(Image(e, fs, m), g) else 0.0
  }

  /** Composition is a linear reading of the outer polynomial. */
  lemma {:induction false} WeighCompose(p: Poly, fs: seq<Poly>, m: nat, g: Exponents -> real)
    requires InVariables(p, |fs|) && AllInVariables(fs, m)
    ensures Weigh(Compose(p, fs, m), g) == Weigh(p, ImageWeight(fs, m, g))
  {
    hide Times, Image, Scale, AllInVariables;
    if p != [] {
      WeighCompose(p[1..], fs, m, g);
      var head := Scale(p[0].coeff, Image(p[0].exps, fs, m));
      WeighConcat(head, Compose(p[1..], fs, m), g);
      WeighScale(p[0].coeff, Image(p[0].exps, fs, m), g);
    }
  }

  /* ---- values ---- */

  type Point = seq<real>

  function RealPower(x: real, k: nat): real { if k == 0 then 1.0 else Times(RealPower(x, k - 1), x) }

  function MonomialValue(e: Exponents, x: Point): real
    decreases |e|
  {
    if e == [] || |x| < |e| then 1.0
    else
      var k := |e| - 1;
      Times(MonomialValue(e[..k], x), RealPower(x[k], e[k]))
  }

  function At(x: Point): Exponents -> real { (e: Exponents) => MonomialValue(e, x) }

  function Value(p: Poly, x: Point): real { Weigh(p, At(x)) }

  function Values(ps: seq<Poly>, x: Point): (y: Point)
    ensures |y| == |ps|
  {
    seq(|ps|, i requires 0 <= i < |ps| => Value(ps[i], x))
  }

  lemma {:induction false} RealPowerSum(x: real, a: nat, b: nat)
    ensures RealPower(x, a + b) == Times(RealPower(x, a), RealPower(x, b))
  {
    hide Times;
    if b > 0 {
      RealPowerSum(x, a, b - 1);
      TimesLaws(RealPower(x, a), RealPower(x, b - 1), x);
    } else {
      TimesLaws(RealPower(x, a), 1.0, 0.0);
    }
    TimesLaws(1.0, RealPower(x, a), 0.0);
    TimesLaws(RealPower(x, a), 1.0, 0.0);
  }

  lemma Regroup(a: real, b: real, c: real, d: real)
    ensures Times(Times(a, b), Times(c, d)) == Times(Times(a, c), Times(b, d))
  {
    hide Times;
    TimesLaws(a, b, Times(c, d));
    TimesLaws(b, c, d);
    TimesLaws(c, b, d);
    TimesLaws(a, c, Times(b, d));
  }

  lemma {:induction false} ValueOfSum(e: Exponents, f: Exponents, x: Point)
    requires |e| == |f| <= |x|
    ensures MonomialValue(AddExponents(e, f), x) == Times(MonomialValue(e, x), MonomialValue(f, x))
    decreases |e|
  {
    hide Times, RealPower;
    if e != [] {
      var k := |e| - 1;
      assert AddExponents(e, f)[..k] == AddExponents(e[..k], f[..k]);
      ValueOfSum(e[..k], f[..k], x);
      RealPowerSum(x[k], e[k], f[k]);
      Regroup(MonomialValue(e[..k], x), MonomialValue(f[..k], x), RealPower(x[k], e[k]), RealPower(x[k], f[k]));
    } else {
      TimesLaws(1.0, 1.0, 0.0);
    }
  }

  lemma {:induction false} ValueOfZero(m: nat, x: Point)
    ensures MonomialValue(ZeroExponents(m), x) == 1.0
    decreases m
  {
    hide Times;
    if m > 0 && m <= |x| {
      assert ZeroExponents(m)[..m - 1] == ZeroExponents(m - 1);
      ValueOfZero(m - 1, x);
      TimesLaws(1.0, 1.0, 0.0);
    }
  }

  lemma {:induction false} ValueTimesMonomial(t: Monomial, q: Poly, x: Point)
    requires InVariables(q, |t.exps|) && |t.exps| <= |x|
    ensures Value(TimesMonomial(t, q), x) == Times(Times(t.coeff, MonomialValue(t.exps, x)), Value(q, x))
  {
    hide Times, MonomialValue;
    var v := MonomialValue(t.exps, x);
    if q == [] {
      TimesLaws(0.0, Times(t.coeff, v), 0.0);
      TimesLaws(Times(t.coeff, v), 0.0, 0.0);
    } else {
      var r := TimesMonomial(t, q);
      var rest := r[1..];
      assert forall i | 0 <= i < |rest| :: rest[i] == r[i + 1] == TimesMonomial(t, q[1..])[i];
      assert rest == TimesMonomial(t, q[1..]);
      ValueTimesMonomial(t, q[1..], x);
      ValueOfSum(t.exps, q[0].exps, x);
      var w := MonomialValue(q[0].exps, x);
      Regroup(t.coeff, q[0].coeff, v, w);
      TimesLaws(Times(t.coeff, v), Times(q[0].coeff, w), Value(q[1..], x));
    }
  }

  lemma {:induction false} ValueMul(p: Poly, q: Poly, m: nat, x: Point)
    requires InVariables(p, m) && InVariables(q, m) && m <= |x|
    ensures Value(Mul(p, q, m), x) == Times(Value(p, x), Value(q, x))
  {
    hide Times, MonomialValue, TimesMonomial;
    if p == [] {
      TimesLaws(Value(q, x), 0.0, 0.0);
    } else {
      ValueMul(p[1..], q, m, x);
      ValueTimesMonomial(p[0], q, x);
      WeighConcat(TimesMonomial(p[0], q), Mul(p[1..], q, m), At(x));
      var a, b, c := Times(p[0].coeff, MonomialValue(p[0].exps, x)), Value(p[1..], x), Value(q, x);
      TimesLaws(c, a, b);
      TimesLaws(a, c, 0.0);
      TimesLaws(b, c, 0.0);
      TimesLaws(a + b, c, 0.0);
    }
  }

  lemma ValueOne(m: nat, x: Point)
    ensures Value(One(m), x) == 1.0
  {
    hide Times, MonomialValue;
    ValueOfZero(m, x);
    TimesLaws(1.0, 1.0, 0.0);
    assert Weigh(One(m)[1..], At(x)) == 0.0;
  }

  lemma {:induction false} ValuePower(p: Poly, k: nat, m: nat, x: Point)
    requires InVariables(p, m) && m <= |x|
    ensures Value(PolyPower(p, k, m), x) == RealPower(Value(p, x), k)
  {
    hide Times, Value, Mul, One, InVariables;
    if k == 0 { ValueOne(m, x); }
    else {
      ValuePower(p, k - 1, m, x);
      ValueMul(PolyPower(p, k - 1, m), p, m, x);
    }
  }

  lemma {:induction false} ValueImage(e: Exponents, fs: seq<Poly>, m: nat, x: Point)
    requires |e| == |fs| && AllInVariables(fs, m) && m <= |x|
    ensures Value(Image(e, fs, m), x) == MonomialValue(e, Values(fs, x))
    decreases |e|
  {
    hide Times, Value, Mul, One, InVariables, PolyPower, RealPower;
    if e == [] { ValueOne(m, x); }
    else {
      var k := |e| - 1;
      ValueImage(e[..k], fs[..k], m, x);
      ValuePower(fs[k], e[k], m, x);
      ValueMul(Image(e[..k], fs[..k], m), PolyPower(fs[k], e[k], m), m, x);
      MonomialValuePrefix(e[..k], Values(fs[..k], x), Values(fs, x));
    }
  }

  lemma {:induction false} MonomialValuePrefix(e: Exponents, x: Point, y: Point)
    requires |e| <= |x| && |e| <= |y| && forall i | 0 <= i < |e| :: x[i] == y[i]
    ensures MonomialValue(e, x) == MonomialValue(e, y)
    decreases |e|
  {
    hide Times;
    if e != [] { MonomialValuePrefix(e[..|e| - 1], x, y); }
  }

  /** Composition is substitution of values. */
  lemma {:induction false} ValueCompose(p: Poly, fs: seq<Poly>, m: nat, x: Point)
    requires InVariables(p, |fs|) && AllInVariables(fs, m) && m <= |x|
    ensures Value(Compose(p, fs, m), x) == Value(p, Values(fs, x))
  {
    hide Times, Image, Scale, AllInVariables, MonomialValue;
    if p != [] {
      ValueCompose(p[1..], fs, m, x);
      ValueImage(p[0].exps, fs, m, x);
      var head := Scale(p[0].coeff, Image(p[0].exps, fs, m));
      WeighConcat(head, Compose(p[1..], fs, m), At(x));
      WeighScale(p[0].coeff, Image(p[0].exps, fs, m), At(x));
    }
  }

  /* ---- variables ---- */

  function UnitExponents(m: nat, i: nat): (e: Exponents)
    ensures |e| == m
  {
    seq(m, j => if j == i then 1 else 0)
  }

  function Variable(m: nat, i: nat): (p: Poly)
    ensures InVariables(p, m)
  {
    [Monomial(1.0, UnitExponents(m, i))]
  }

  lemma TimesOneLeft(q: Poly, m: nat)
    requires InVariables(q, m)
    ensures Mul(One(m), q, m) == q
  {
    hide Times;
    var r := TimesMonomial(One(m)[0], q);
    forall i | 0 <= i < |q| ensures Times(1.0, q[i].coeff) == q[i].coeff { TimesLaws(q[i].coeff, 0.0, 0.0); }
    forall i | 0 <= i < |q| ensures r[i] == q[i] { assert AddExponents(ZeroExponents(m), q[i].exps) == q[i].exps; }
    assert r == q;
    assert Mul(One(m)[1..], q, m) == [];
  }

  lemma {:induction false} TimesOneRight(p: Poly, m: nat)
    requires InVariables(p, m)
    ensures Mul(p, One(m), m) == p
  {
    hide Times;
    if p != [] {
      TimesLaws(p[0].coeff, 1.0, 0.0);
      TimesLaws(1.0, p[0].coeff, 0.0);
      TimesOneRight(p[1..], m);
      var r := TimesMonomial(p[0], One(m));
      assert AddExponents(p[0].exps, ZeroExponents(m)) == p[0].exps;
      assert r == [p[0]];
    }
  }

  lemma {:induction false} ImageOfUnit(m: nat, i: nat, fs: seq<Poly>, w: nat)
    requires |fs| == m && AllInVariables(fs, w)
    ensures Image(UnitExponents(m, i), fs, w) == if i < m then fs[i] else One(w)
    decreases m
  {
    hide Times, Mul;
    if m > 0 {
      var k := m - 1;
      assert UnitExponents(m, i)[..k] == UnitExponents(k, i);
      ImageOfUnit(k, i, fs[..k], w);
      if i == k {
        TimesOneLeft(fs[k], w);
        assert PolyPower(fs[k], 0, w) == One(w);
        assert PolyPower(fs[k], 1, w) == Mul(One(w), fs[k], w) == fs[k];
        TimesOneLeft(fs[k], w);
      } else {
        assert PolyPower(fs[k], 0, w) == One(w);
        TimesOneRight(Image(UnitExponents(k, i), fs[..k], w), w);
      }
    }
  }

  /** Composing a variable gives its replacement. */
  lemma ComposeVariable(m: nat, i: nat, fs: seq<Poly>, w: nat)
    requires |fs| == m && i < m && AllInVariables(fs, w)
    ensures Compose(Variable(m, i), fs, w) == fs[i]
  {
    hide Times, Image;
    ImageOfUnit(m, i, fs, w);
    forall j | 0 <= j < |fs[i]| ensures Times(1.0, fs[i][j].coeff) == fs[i][j].coeff {
      TimesLaws(fs[i][j].coeff, 0.0, 0.0);
    }
    assert Scale(1.0, fs[i]) == fs[i];
    assert Compose(Variable(m, i)[1..], fs, w) == [];
  }

  lemma ValueVariable(m: nat, i: nat, x: Point)
    requires i < m <= |x|
    ensures Value(Variable(m, i), x) == x[i]
  {
    hide Times, MonomialValue;
    ValueOfUnit(m, i, x);
    TimesLaws(x[i], 0.0, 0.0);
    assert Weigh(Variable(m, i)[1..], At(x)) == 0.0;
  }

  lemma {:induction false} ValueOfUnit(m: nat, i: nat, x: Point)
    requires m <= |x|
    ensures MonomialValue(UnitExponents(m, i), x) == if i < m then x[i] else 1.0
    decreases m
  {
    if m > 0 {
      var k := m - 1;
      assert UnitExponents(m, i)[..k] == UnitExponents(k, i);
      ValueOfUnit(k, i, x);
      hide Times;
      assert RealPower(x[k], 0) == 1.0 && RealPower(x[k], 1) == Times(RealPower(x[k], 0), x[k]);
      TimesLaws(x[k], 0.0, 0.0);
      var v := MonomialValue(UnitExponents(k, i), x);
      TimesLaws(1.0, v, 0.0);
      TimesLaws(v, 1.0, 0.0);
    }
  }
}
