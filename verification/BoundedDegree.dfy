/** Polynomial maps of bounded degree: a finite cutoff decides them, a matrix gives their closed forms. */
module BoundedDegree {
  import opened Arith
  import opened Polynomials
  import opened LinearDependence
  import opened Wrappers

  /* ---- degrees ---- */

  function Degree(e: Exponents): nat { if e == [] then 0 else e[0] + Degree(e[1..]) }

  ghost predicate BoundedBy(p: Poly, d: nat) { forall e | Degree(e) > d :: Coeff(p, e) == 0.0 }

  ghost predicate AllBounded(ps: seq<Poly>, d: nat) { forall i | 0 <= i < |ps| :: BoundedBy(ps[i], d) }

  lemma {:induction false} AbsentMonomial(p: Poly, e: Exponents)
    requires forall i | 0 <= i < |p| :: p[i].exps != e
    ensures Coeff(p, e) == 0.0
  {
    hide Times;
    if p != [] {
      AbsentMonomial(p[1..], e);
      TimesLaws(p[0].coeff, 0.0, 0.0);
      TimesLaws(0.0, p[0].coeff, 0.0);
    }
  }

  lemma OtherVariables(p: Poly, m: nat, e: Exponents)
    requires InVariables(p, m) && |e| != m
    ensures Coeff(p, e) == 0.0
  {
    AbsentMonomial(p, e);
  }

  /** The degree of one polynomial: of its monomials whose coefficients do not cancel. */
  method PolyDegree(p: Poly) returns (degree: nat)
    ensures forall d: nat :: degree <= d <==> BoundedBy(p, d)
  {
    hide Coeff;
    degree := 0;
    ghost var top: Option<Exponents> := None;
    var i := 0;
    while i < |p|
      invariant 0 <= i <= |p|
      invariant forall k | 0 <= k < i :: Coeff(p, p[k].exps) != 0.0 ==> Degree(p[k].exps) <= degree
      invariant degree > 0 ==> top.Some? && Degree(top.value) == degree && Coeff(p, top.value) != 0.0
    {
      if Coeff(p, p[i].exps) != 0.0 && Degree(p[i].exps) > degree {
        degree := Degree(p[i].exps);
        top := Some(p[i].exps);
      }
      i := i + 1;
    }
    forall e | Degree(e) > degree ensures Coeff(p, e) == 0.0 {
      if forall k | 0 <= k < |p| :: p[k].exps != e { AbsentMonomial(p, e); }
    }
  }

  /** _map_degree */
  method MapDegree(ps: seq<Poly>) returns (degree: nat)
    ensures forall d: nat :: degree <= d <==> AllBounded(ps, d)
  {
    hide BoundedBy, AllBounded;
    degree := 0;
    var i := 0;
    forall d: nat ensures AllBounded(ps[..0], d) { NoneBounded(ps, d); }
    while i < |ps|
      invariant 0 <= i <= |ps|
      invariant forall d: nat :: degree <= d <==> AllBounded(ps[..i], d)
    {
      var one := PolyDegree(ps[i]);
      ghost var before := degree;
      if one > degree { degree := one; }
      ghost var longer := ps[..i + 1];
      forall d: nat ensures degree <= d <==> AllBounded(longer, d) {
        BoundedSnoc(ps, i, d);
        assert before <= d <==> AllBounded(ps[..i], d);
      }
      i := i + 1;
    }
    assert ps[..|ps|] == ps;
  }

  lemma NoneBounded(ps: seq<Poly>, d: nat)
    ensures AllBounded(ps[..0], d)
  {
  }

  lemma BoundedSnoc(ps: seq<Poly>, i: nat, d: nat)
    requires i < |ps|
    ensures AllBounded(ps[..i + 1], d) <==> AllBounded(ps[..i], d) && BoundedBy(ps[i], d)
  {
    hide BoundedBy;
    var longer := ps[..i + 1];
    assert longer[i] == ps[i] && forall k | 0 <= k < i :: longer[k] == ps[..i][k];
    if AllBounded(longer, d) {
      forall k | 0 <= k < i ensures BoundedBy(ps[..i][k], d) { assert BoundedBy(longer[k], d); }
    }
    if AllBounded(ps[..i], d) && BoundedBy(ps[i], d) {
      forall k | 0 <= k < |longer| ensures BoundedBy(longer[k], d) { if k < i { assert BoundedBy(ps[..i][k], d); } }
    }
  }

  /* ---- iterates ---- */

  function ComposeMap(left: seq<Poly>, right: seq<Poly>, m: nat): (r: seq<Poly>)
    requires AllInVariables(left, m) && AllInVariables(right, m) && |right| == m
    ensures |r| == |left| && AllInVariables(r, m)
  {
    seq(|left|, i requires 0 <= i < |left| => Compose(left[i], right, m))
  }

  function Variables(m: nat): (vs: seq<Poly>)
    ensures |vs| == m && AllInVariables(vs, m)
  {
    seq(m, i requires 0 <= i < m => Variable(m, i))
  }

  /** A polynomial map of m variables. */
  predicate IsMap(f: seq<Poly>, m: nat) { |f| == m && AllInVariables(f, m) }

  /** The n-th iterate of the map. */
  function Iterate(f: seq<Poly>, m: nat, n: nat): (r: seq<Poly>)
    requires IsMap(f, m)
    ensures IsMap(r, m)
  {
    if n == 0 then Variables(m) else ComposeMap(Iterate(f, m, n - 1), f, m)
  }

  lemma FirstIterate(f: seq<Poly>, m: nat)
    requires IsMap(f, m)
    ensures Iterate(f, m, 1) == f
  {
    forall i | 0 <= i < m ensures Iterate(f, m, 1)[i] == f[i] { ComposeVariable(m, i, f, m); }
  }

  /** The loop's values. */
  function Orbit(f: seq<Poly>, x: Point, n: nat): (y: Point)
    requires |x| == |f|
    ensures |y| == |f|
  {
    if n == 0 then x else Values(f, Orbit(f, x, n - 1))
  }

  lemma {:induction false} OrbitShift(f: seq<Poly>, x: Point, n: nat)
    requires |x| == |f|
    ensures Orbit(f, x, n + 1) == Orbit(f, Values(f, x), n)
  {
    if n > 0 { OrbitShift(f, x, n - 1); }
  }

  /** The iterates of the map compute the loop's values. */
  lemma {:induction false} IterateValue(f: seq<Poly>, m: nat, n: nat, i: nat, x: Point)
    requires IsMap(f, m) && |x| == m && i < m
    ensures Value(Iterate(f, m, n)[i], x) == Orbit(f, x, n)[i]
  {
    hide Value, Compose;
    if n == 0 {
      ValueVariable(m, i, x);
    } else {
      ValueCompose(Iterate(f, m, n - 1)[i], f, m, x);
      IterateValue(f, m, n - 1, i, Values(f, x));
      OrbitShift(f, x, n - 1);
    }
  }

  /* ---- the monomial basis ---- */

  /** The binomial coefficient, by Pascal's rule. */
  function Binomial(n: nat, k: nat): nat {
    if k == 0 then 1 else if n == 0 then 0 else Binomial(n - 1, k - 1) + Binomial(n - 1, k)
  }

  function WithZero(es: seq<Exponents>): (r: seq<Exponents>)
    ensures |r| == |es| && forall i | 0 <= i < |es| :: r[i] == [0] + es[i]
  {
    seq(|es|, i requires 0 <= i < |es| => [0] + es[i])
  }

  function Bumped(e: Exponents): (r: Exponents)
    ensures |r| == |e|
  {
    if e == [] then [] else e[0 := e[0] + 1]
  }

  function AllBumped(es: seq<Exponents>): (r: seq<Exponents>)
    ensures |r| == |es| && forall i | 0 <= i < |es| :: r[i] == Bumped(es[i])
  {
    seq(|es|, i requires 0 <= i < |es| => Bumped(es[i]))
  }

  /** _monomial_exponents, in another order: all exponents of degree at most d. */
  function MonomialExponents(m: nat, d: nat): (es: seq<Exponents>)
    decreases m, d
  {
    if m == 0 then [[]]
    else WithZero(MonomialExponents(m - 1, d)) + if d == 0 then [] else AllBumped(MonomialExponents(m, d - 1))
  }

  /** Their number is the binomial coefficient of the cutoff. */
  lemma {:induction false} BasisSize(m: nat, d: nat)
    ensures |MonomialExponents(m, d)| == Binomial(m + d, m)
    decreases m, d
  {
    if m > 0 {
      BasisSize(m - 1, d);
      if d > 0 { BasisSize(m, d - 1); } else { BinomialAbove(m - 1, m); }
    }
  }

  lemma {:induction false} BinomialAbove(n: nat, k: nat)
    requires k > n
    ensures Binomial(n, k) == 0
  {
    if n > 0 {
      BinomialAbove(n - 1, k - 1);
      BinomialAbove(n - 1, k);
    }
  }

  lemma InWithZero(es: seq<Exponents>, e: Exponents)
    ensures e in WithZero(es) <==> e != [] && e[0] == 0 && e[1..] in es
  {
    if e in WithZero(es) {
      var i :| 0 <= i < |es| && WithZero(es)[i] == e;
      assert e[1..] == es[i];
    }
    if e != [] && e[0] == 0 && e[1..] in es {
      var i :| 0 <= i < |es| && es[i] == e[1..];
      assert WithZero(es)[i] == [0] + e[1..] == e;
    }
  }

  function Lowered(e: Exponents): (r: Exponents)
    requires e != [] && e[0] > 0
    ensures |r| == |e| && Bumped(r) == e && Degree(r) + 1 == Degree(e)
  {
    var r := e[0 := e[0] - 1];
    assert r[1..] == e[1..];
    assert Bumped(r) == e;
    r
  }

  lemma InAllBumped(es: seq<Exponents>, m: nat, e: Exponents)
    requires m > 0 && forall i | 0 <= i < |es| :: |es[i]| == m
    ensures e in AllBumped(es) <==> |e| == m && e[0] > 0 && Lowered(e) in es
  {
    if e in AllBumped(es) {
      var i :| 0 <= i < |es| && AllBumped(es)[i] == e;
      assert e == es[i][0 := es[i][0] + 1];
      assert Lowered(e) == es[i];
    }
    if |e| == m && e[0] > 0 && Lowered(e) in es {
      var i :| 0 <= i < |es| && es[i] == Lowered(e);
      assert AllBumped(es)[i] == e;
    }
  }

  lemma DegreeSplit(e: Exponents)
    requires e != []
    ensures Degree(e) == e[0] + Degree(e[1..])
  {
  }

  lemma {:induction false} BasisIsAll(m: nat, d: nat, e: Exponents)
    ensures e in MonomialExponents(m, d) <==> |e| == m && Degree(e) <= d
    decreases m, d
  {
    hide MonomialExponents, Degree, WithZero, AllBumped, Lowered;
    if m == 0 {
      BasisOfNone(d, e);
    } else {
      BasisUnfold(m, d);
      InWithZero(MonomialExponents(m - 1, d), e);
      if e != [] {
        BasisIsAll(m - 1, d, e[1..]);
        DegreeSplit(e);
      }
      if d > 0 {
        BasisWidth(m, d - 1);
        InAllBumped(MonomialExponents(m, d - 1), m, e);
        if |e| == m && e[0] > 0 { BasisIsAll(m, d - 1, Lowered(e)); }
      }
    }
  }

  lemma BasisOfNone(d: nat, e: Exponents)
    ensures e in MonomialExponents(0, d) <==> |e| == 0 && Degree(e) <= d
  {
  }

  lemma BasisUnfold(m: nat, d: nat)
    requires m > 0
    ensures MonomialExponents(m, d) ==
      WithZero(MonomialExponents(m - 1, d)) + if d == 0 then [] else AllBumped(MonomialExponents(m, d - 1))
  {
  }

  lemma {:induction false} BasisWidth(m: nat, d: nat)
    ensures forall i | 0 <= i < |MonomialExponents(m, d)| :: |MonomialExponents(m, d)[i]| == m
    decreases m, d
  {
    if m > 0 {
      BasisWidth(m - 1, d);
      if d > 0 { BasisWidth(m, d - 1); }
    }
  }

  predicate Distinct(es: seq<Exponents>) { forall i, j | 0 <= i < j < |es| :: es[i] != es[j] }

  lemma WithZeroDistinct(es: seq<Exponents>)
    requires Distinct(es)
    ensures Distinct(WithZero(es))
  {
    forall i, j | 0 <= i < j < |es| ensures WithZero(es)[i] != WithZero(es)[j] {
      assert WithZero(es)[i][1..] == es[i] && WithZero(es)[j][1..] == es[j];
    }
  }

  lemma AllBumpedDistinct(es: seq<Exponents>, m: nat)
    requires Distinct(es) && m > 0 && forall i | 0 <= i < |es| :: |es[i]| == m
    ensures Distinct(AllBumped(es))
  {
    forall i, j | 0 <= i < j < |es| ensures AllBumped(es)[i] != AllBumped(es)[j] { BumpedDistinct(es[i], es[j]); }
  }

  lemma {:induction false} BasisIsDistinct(m: nat, d: nat)
    ensures Distinct(MonomialExponents(m, d))
    decreases m, d
  {
    hide MonomialExponents, WithZero, AllBumped, Distinct;
    if m == 0 {
      OneIsDistinct(d);
    } else {
      BasisUnfold(m, d);
      BasisIsDistinct(m - 1, d);
      WithZeroDistinct(MonomialExponents(m - 1, d));
      if d > 0 {
        var lower := MonomialExponents(m, d - 1);
        BasisIsDistinct(m, d - 1);
        BasisWidth(m, d - 1);
        AllBumpedDistinct(lower, m);
        ZeroAndBumped(MonomialExponents(m - 1, d), lower, m);
        ConcatDistinct(WithZero(MonomialExponents(m - 1, d)), AllBumped(lower));
      } else {
        assert WithZero(MonomialExponents(m - 1, d)) + [] == WithZero(MonomialExponents(m - 1, d));
      }
    }
  }

  lemma OneIsDistinct(d: nat)
    ensures Distinct(MonomialExponents(0, d))
  {
  }

  lemma ZeroAndBumped(shorter: seq<Exponents>, lower: seq<Exponents>, m: nat)
    requires m > 0 && forall i | 0 <= i < |lower| :: |lower[i]| == m
    ensures forall i, j | 0 <= i < |shorter| && 0 <= j < |lower| :: WithZero(shorter)[i] != AllBumped(lower)[j]
  {
    forall i, j | 0 <= i < |shorter| && 0 <= j < |lower| ensures WithZero(shorter)[i] != AllBumped(lower)[j] {
      assert WithZero(shorter)[i][0] == 0 && AllBumped(lower)[j][0] == lower[j][0] + 1;
    }
  }

  lemma ConcatDistinct(a: seq<Exponents>, b: seq<Exponents>)
    requires Distinct(a) && Distinct(b) && forall i, j | 0 <= i < |a| && 0 <= j < |b| :: a[i] != b[j]
    ensures Distinct(a + b)
  {
  }

  lemma BumpedDistinct(e: Exponents, f: Exponents)
    requires |e| == |f| > 0 && e != f
    ensures Bumped(e) != Bumped(f)
  {
    var i :| 0 <= i < |e| && e[i] != f[i];
    assert Bumped(e)[i] != Bumped(f)[i];
  }

  /* ---- the cutoff ---- */

  /** The coordinates of a tuple of polynomials in the basis, one polynomial after the other. */
  function TupleVector(ps: seq<Poly>, basis: seq<Exponents>): (v: Vector)
    ensures |v| == |ps| * |basis|
  {
    seq(|ps| * |basis|, r requires 0 <= r < |ps| * |basis| => TupleCoordinate(ps, basis, r))
  }

  function TupleCoordinate(ps: seq<Poly>, basis: seq<Exponents>, r: nat): real {
    if |basis| > 0 && r / |basis| < |ps| then Coeff(ps[r / |basis|], basis[r % |basis|]) else 0.0
  }

  lemma TuplePosition(count: nat, size: nat, j: nat, b: nat)
    requires j < count && b < size
    ensures 0 <= j * size + b < count * size && (j * size + b) / size == j && (j * size + b) % size == b
  {
    MulNonNegative(j, size);
    assert (count - j) * size >= size by {
      MulAtLeast(size, count - j); assert size * (count - j) == (count - j) * size;
    }
    assert count * size == j * size + (count - j) * size;
    assert j * size == size * j;
    DivModUnique(j * size + b, size, j, b);
  }

  /** The coefficients of one component in consecutive iterates. */
  function CoeffSeq(f: seq<Poly>, m: nat, t: nat, count: nat, j: nat, e: Exponents): (vs: Vector)
    requires IsMap(f, m) && j < m
    ensures |vs| == count
  {
    seq(count, k requires 0 <= k < count => Coeff(Iterate(f, m, k + 1 + t)[j], e))
  }

  /** The same linear relation holds between consecutive iterates, wherever they start. */
  ghost predicate RelatedAt(f: seq<Poly>, m: nat, c: Vector, t: nat)
    requires IsMap(f, m)
  {
    forall j, e | 0 <= j < m :: Comb(c, CoeffSeq(f, m, t, |c|, j, e)) == 0.0
  }

  function LinComb(c: Vector, ps: seq<Poly>): Poly
    requires |c| == |ps|
  {
    if c == [] then [] else Scale(c[0], ps[0]) + LinComb(c[1..], ps[1..])
  }

  function Weights(ps: seq<Poly>, g: Exponents -> real): (vs: Vector)
    ensures |vs| == |ps|
  {
    seq(|ps|, k requires 0 <= k < |ps| => Weigh(ps[k], g))
  }

  lemma {:induction false} WeighLinComb(c: Vector, ps: seq<Poly>, g: Exponents -> real)
    requires |c| == |ps|
    ensures Weigh(LinComb(c, ps), g) == Comb(c, Weights(ps, g))
  {
    hide Times;
    if c != [] {
      WeighLinComb(c[1..], ps[1..], g);
      assert Weights(ps, g)[1..] == Weights(ps[1..], g);
      WeighConcat(Scale(c[0], ps[0]), LinComb(c[1..], ps[1..]), g);
      WeighScale(c[0], ps[0], g);
    }
  }

  lemma {:induction false} RelationShifts(f: seq<Poly>, m: nat, c: Vector, t: nat)
    requires IsMap(f, m) && RelatedAt(f, m, c, 0)
    ensures RelatedAt(f, m, c, t)
  {
    if t > 0 {
      RelationShifts(f, m, c, t - 1);
      forall j, e | 0 <= j < m ensures Comb(c, CoeffSeq(f, m, t, |c|, j, e)) == 0.0 {
        RelationStep(f, m, c, t - 1, j, e);
      }
    }
  }

  lemma RelationStep(f: seq<Poly>, m: nat, c: Vector, t: nat, j: nat, e: Exponents)
    requires IsMap(f, m) && RelatedAt(f, m, c, t) && j < m
    ensures Comb(c, CoeffSeq(f, m, t + 1, |c|, j, e)) == 0.0
  {
    hide Comb, Weigh, Compose, LinComb, Iterate, Weights, CoeffSeq;
    var ps := Consecutive(f, m, t, |c|, j);
    var combination := LinComb(c, ps);
    forall e' ensures Coeff(combination, e') == 0.0 {
      WeighLinComb(c, ps, Indicator(e'));
      ConsecutiveCoeffs(f, m, t, |c|, j, e');
    }
    var g := ImageWeight(f, m, Indicator(e));
    ZeroWeighsNothing(combination, g);
    WeighLinComb(c, ps, g);
    ConsecutiveImages(f, m, t, |c|, j, e);
  }

  /** One component of consecutive iterates. */
  function Consecutive(f: seq<Poly>, m: nat, t: nat, count: nat, j: nat): (ps: seq<Poly>)
    requires IsMap(f, m) && j < m
    ensures |ps| == count && forall k | 0 <= k < count :: ps[k] == Iterate(f, m, k + 1 + t)[j]
  {
    seq(count, k requires 0 <= k < count => Iterate(f, m, k + 1 + t)[j])
  }

  lemma ConsecutiveCoeffs(f: seq<Poly>, m: nat, t: nat, count: nat, j: nat, e: Exponents)
    requires IsMap(f, m) && j < m
    ensures Weights(Consecutive(f, m, t, count, j), Indicator(e)) == CoeffSeq(f, m, t, count, j, e)
  {
    hide Weigh, Iterate;
    var ps := Consecutive(f, m, t, count, j);
    forall k | 0 <= k < count ensures Weights(ps, Indicator(e))[k] == CoeffSeq(f, m, t, count, j, e)[k] {
      assert Weights(ps, Indicator(e))[k] == Weigh(ps[k], Indicator(e)) == Coeff(ps[k], e);
    }
  }

  lemma ConsecutiveImages(f: seq<Poly>, m: nat, t: nat, count: nat, j: nat, e: Exponents)
    requires IsMap(f, m) && j < m
    ensures Weights(Consecutive(f, m, t, count, j), ImageWeight(f, m, Indicator(e))) ==
        CoeffSeq(f, m, t + 1, count, j, e)
  {
    hide Weigh, Compose, Iterate, ImageWeight, Consecutive;
    var ps, g := Consecutive(f, m, t, count, j), ImageWeight(f, m, Indicator(e));
    forall k | 0 <= k < count ensures Weights(ps, g)[k] == CoeffSeq(f, m, t + 1, count, j, e)[k] {
      WeighCompose(ps[k], f, m, Indicator(e));
      NextIterate(f, m, k + 1 + t);
      assert Weights(ps, g)[k] == Weigh(ps[k], g);
      assert CoeffSeq(f, m, t + 1, count, j, e)[k] == Coeff(Iterate(f, m, k + 1 + t + 1)[j], e) ==
          Coeff(Compose(ps[k], f, m), e);
    }
  }

  /** A dependency between the coordinate vectors of the first iterates relates them. */
  lemma DependencyRelates(f: seq<Poly>, m: nat, d: nat, vectors: seq<Vector>, c: Vector)
    requires IsMap(f, m)
    requires |vectors| == m * |MonomialExponents(m, d)| + 1
    requires forall k | 0 <= k < |vectors| :: vectors[k] == TupleVector(Iterate(f, m, k + 1), MonomialExponents(m, d))
    requires forall k | 1 <= k <= |vectors| :: AllBounded(Iterate(f, m, k), d)
    requires HaveDimension(vectors, m * |MonomialExponents(m, d)|)
        && Dependency(vectors, m * |MonomialExponents(m, d)|, c)
    ensures RelatedAt(f, m, c, 0)
  {
    hide Comb, Coeff, MonomialExponents, Iterate, Nonzero, TupleVector, IsMap, AllBounded;
    var basis := MonomialExponents(m, d);
    var size := |basis|;
    var dimension := m * size;
    forall j, e | 0 <= j < m ensures Comb(c, CoeffSeq(f, m, 0, |c|, j, e)) == 0.0 {
      BasisIsAll(m, d, e);
      if e in basis {
        var b :| 0 <= b < size && basis[b] == e;
        ColumnIsCoeffs(f, m, basis, dimension, vectors, j, b);
      } else {
        forall k | 0 <= k < |c| ensures CoeffSeq(f, m, 0, |c|, j, e)[k] == 0.0 { OutsideBasis(f, m, d, k + 1, j, e); }
        CombZeros(c, CoeffSeq(f, m, 0, |c|, j, e));
      }
    }
  }

  lemma ColumnIsCoeffs(f: seq<Poly>, m: nat, basis: seq<Exponents>, dimension: nat, vectors: seq<Vector>, j: nat,
      b: nat)
    requires IsMap(f, m) && j < m && b < |basis| && dimension == m * |basis| && HaveDimension(vectors, dimension)
    requires forall k | 0 <= k < |vectors| :: vectors[k] == TupleVector(Iterate(f, m, k + 1), basis)
    ensures exists r :: 0 <= r < dimension && Column(vectors, dimension, r) == CoeffSeq(f, m, 0, |vectors|, j, basis[b])
  {
    hide Coeff, Iterate, TupleVector, Position;
    PositionInside(m, |basis|, j, b);
    ColumnAt(f, m, basis, dimension, vectors, j, b, Position(|basis|, j, b));
  }

  lemma ColumnAt(f: seq<Poly>, m: nat, basis: seq<Exponents>, dimension: nat, vectors: seq<Vector>, j: nat, b: nat,
      r: nat)
    requires IsMap(f, m) && j < m && b < |basis| && HaveDimension(vectors, dimension) && r < dimension
    requires r == Position(|basis|, j, b)
    requires forall k | 0 <= k < |vectors| :: vectors[k] == TupleVector(Iterate(f, m, k + 1), basis)
    ensures Column(vectors, dimension, r) == CoeffSeq(f, m, 0, |vectors|, j, basis[b])
  {
    hide Coeff, Iterate, TupleVector, Position, Column, CoeffSeq;
    forall k | 0 <= k < |vectors|
        ensures Column(vectors, dimension, r)[k] == CoeffSeq(f, m, 0, |vectors|, j, basis[b])[k] {
      ColumnEntry(f, m, basis, dimension, vectors, j, b, r, k);
    }
  }

  lemma ColumnEntry(f: seq<Poly>, m: nat, basis: seq<Exponents>, dimension: nat, vectors: seq<Vector>, j: nat, b: nat,
      r: nat, k: nat)
    requires IsMap(f, m) && j < m && b < |basis| && HaveDimension(vectors, dimension) && r < dimension && k < |vectors|
    requires r == Position(|basis|, j, b) && vectors[k] == TupleVector(Iterate(f, m, k + 1), basis)
    ensures Column(vectors, dimension, r)[k] == CoeffSeq(f, m, 0, |vectors|, j, basis[b])[k]
  {
    hide Coeff, Iterate, TupleVector, Position;
    TupleEntry(Iterate(f, m, k + 1), basis, j, b);
    assert Column(vectors, dimension, r)[k] == vectors[k][r];
    assert CoeffSeq(f, m, 0, |vectors|, j, basis[b])[k] == Coeff(Iterate(f, m, k + 1 + 0)[j], basis[b]);
  }

  function Position(size: nat, j: nat, b: nat): nat { j * size + b }

  lemma PositionInside(count: nat, size: nat, j: nat, b: nat)
    requires j < count && b < size
    ensures Position(size, j, b) < count * size
  {
    TuplePosition(count, size, j, b);
  }

  lemma TupleEntry(ps: seq<Poly>, basis: seq<Exponents>, j: nat, b: nat)
    requires j < |ps| && b < |basis|
    ensures Position(|basis|, j, b) < |ps| * |basis|
    ensures TupleVector(ps, basis)[Position(|basis|, j, b)] == Coeff(ps[j], basis[b])
  {
    hide Coeff;
    TuplePosition(|ps|, |basis|, j, b);
    var r := Position(|basis|, j, b);
    assert TupleVector(ps, basis)[r] == TupleCoordinate(ps, basis, r);
  }

  lemma OutsideBasis(f: seq<Poly>, m: nat, d: nat, n: nat, j: nat, e: Exponents)
    requires IsMap(f, m) && j < m && AllBounded(Iterate(f, m, n), d) && !(|e| == m && Degree(e) <= d)
    ensures Coeff(Iterate(f, m, n)[j], e) == 0.0
  {
    hide Coeff, Iterate;
    if |e| != m { OtherVariables(Iterate(f, m, n)[j], m, e); }
    else { assert BoundedBy(Iterate(f, m, n)[j], d); }
  }

  /** The last nonzero coefficient of a relation. */
  lemma {:induction false} LastNonzero(c: Vector) returns (last: nat)
    requires Nonzero(c)
    ensures last < |c| && c[last] != 0.0 && forall k | last < k < |c| :: c[k] == 0.0
  {
    last := |c| - 1;
    while c[last] == 0.0
      invariant 0 <= last < |c| && forall k | last < k < |c| :: c[k] == 0.0
      decreases last
    {
      if last == 0 { var i :| 0 <= i < |c| && c[i] != 0.0; assert false; }
      last := last - 1;
    }
  }

  /** A relation between iterates carries the degree bound on: each iterate is a combination of
      earlier ones. */
  lemma {:induction false} RelationBounds(f: seq<Poly>, m: nat, d: nat, c: Vector, last: nat, n: nat)
    requires IsMap(f, m) && RelatedAt(f, m, c, 0)
    requires last < |c| && c[last] != 0.0 && forall k | last < k < |c| :: c[k] == 0.0
    requires forall k | 1 <= k <= |c| :: AllBounded(Iterate(f, m, k), d)
    requires n >= 1
    ensures AllBounded(Iterate(f, m, n), d)
    decreases n
  {
    hide Comb, Coeff, Iterate, Times;
    if n > |c| {
      var t := n - (last + 1);
      RelationShifts(f, m, c, t);
      forall j, e | 0 <= j < m && Degree(e) > d ensures Coeff(Iterate(f, m, n)[j], e) == 0.0 {
        var vs := CoeffSeq(f, m, t, |c|, j, e);
        forall k | 0 <= k < |c| && k != last ensures c[k] == 0.0 || vs[k] == 0.0 {
          if k < last {
            RelationBounds(f, m, d, c, last, k + 1 + t);
            assert BoundedBy(Iterate(f, m, k + 1 + t)[j], d);
          }
        }
        CombOnly(c, vs, last);
        assert vs[last] == Coeff(Iterate(f, m, n)[j], e);
        NonzeroTimes(c[last], vs[last]);
      }
    }
  }

  lemma NonzeroTimes(a: real, b: real)
    requires a != 0.0 && Times(a, b) == 0.0
    ensures b == 0.0
  {
    assert b == (a * b) / a;
  }

  /** The finite cutoff is complete: if as many iterates as the space has dimensions, and one more,
      have bounded degree, then every iterate has. */
  lemma CutoffIsComplete(f: seq<Poly>, m: nat, d: nat, n: nat)
    requires IsMap(f, m) && n >= 1
    requires forall k | 1 <= k <= m * Binomial(m + d, m) + 1 :: AllBounded(Iterate(f, m, k), d)
    ensures AllBounded(Iterate(f, m, n), d)
  {
    hide Comb, Iterate, MonomialExponents, Binomial, AllBounded, TupleVector;
    BasisSize(m, d);
    var basis := MonomialExponents(m, d);
    var dimension := m * |basis|;
    var vectors := seq(dimension + 1, k requires 0 <= k < dimension + 1 => TupleVector(Iterate(f, m, k + 1), basis));
    var c := MoreVectorsThanDimensions(vectors, dimension);
    DependencyRelates(f, m, d, vectors, c);
    var last := LastNonzero(c);
    RelationBounds(f, m, d, c, last, n);
  }

  /** Every iterate keeps the degree bound. */
  ghost predicate Keeps(f: seq<Poly>, m: nat, d: nat)
    requires IsMap(f, m)
  {
    forall n: nat | n >= 1 :: IterateBounded(f, m, n, d)
  }

  ghost predicate IterateBounded(f: seq<Poly>, m: nat, n: nat, d: nat)
    requires IsMap(f, m)
  {
    AllBounded(Iterate(f, m, n), d)
  }

  /** is_bounded_degree_map: looking at finitely many iterates decides the degree of all. */
  method IsBoundedDegreeMap(f: seq<Poly>, m: nat, d: nat) returns (bounded: bool)
    requires IsMap(f, m)
    ensures bounded <==> Keeps(f, m, d)
  {
    hide Iterate, AllBounded, Binomial, ComposeMap;
    var cutoff := m * Binomial(m + d, m) + 1;
    var q := f;
    FirstIterate(f, m);
    var step := 1;
    while step <= cutoff
      invariant 1 <= step <= cutoff + 1 && q == Iterate(f, m, step)
      invariant forall k | 1 <= k < step :: AllBounded(Iterate(f, m, k), d)
    {
      var degree := MapDegree(q);
      if degree > d {
        assert !IterateBounded(f, m, step, d);
        return false;
      }
      NextIterate(f, m, step);
      q := ComposeMap(q, f, m);
      step := step + 1;
    }
    bounded := true;
    forall n: nat | n >= 1 ensures IterateBounded(f, m, n, d) { CutoffIsComplete(f, m, d, n); }
  }

  lemma NextIterate(f: seq<Poly>, m: nat, n: nat)
    requires IsMap(f, m)
    ensures Iterate(f, m, n + 1) == ComposeMap(Iterate(f, m, n), f, m)
  {
  }

  /* ---- closed forms ---- */

  /** _truncate: the terms of degree at most d. */
  function Truncate(p: Poly, d: nat): Poly {
    if p == [] then [] else if Degree(p[0].exps) <= d then [p[0]] + Truncate(p[1..], d) else Truncate(p[1..], d)
  }

  lemma {:induction false} TruncateCoeff(p: Poly, d: nat, e: Exponents)
    ensures Coeff(Truncate(p, d), e) == if Degree(e) <= d then Coeff(p, e) else 0.0
  {
    hide Times, Degree;
    if p != [] {
      TruncateCoeff(p[1..], d, e);
      var rest := Truncate(p[1..], d);
      assert ([p[0]] + rest)[1..] == rest;
      TimesLaws(p[0].coeff, 0.0, 0.0);
      TimesLaws(0.0, p[0].coeff, 0.0);
    }
  }

  /** _coordinate_vector */
  function Coordinates(p: Poly, basis: seq<Exponents>): (v: Vector)
    ensures |v| == |basis| && forall r | 0 <= r < |basis| :: v[r] == Coeff(p, basis[r])
  {
    seq(|basis|, r requires 0 <= r < |basis| => Coeff(p, basis[r]))
  }

  /** _polynomial_from_vector */
  function FromVector(v: Vector, basis: seq<Exponents>): (p: Poly)
    requires |v| == |basis|
    ensures |p| == |v| && forall i | 0 <= i < |v| :: p[i] == Monomial(v[i], basis[i])
  {
    seq(|v|, i requires 0 <= i < |v| => Monomial(v[i], basis[i]))
  }

  function WeightsOf(basis: seq<Exponents>, g: Exponents -> real): (vs: Vector)
    ensures |vs| == |basis|
  {
    seq(|basis|, i requires 0 <= i < |basis| => g(basis[i]))
  }

  lemma {:induction false} WeighFromVector(v: Vector, basis: seq<Exponents>, g: Exponents -> real)
    requires |v| == |basis|
    ensures Weigh(FromVector(v, basis), g) == Comb(v, WeightsOf(basis, g))
  {
    hide Times;
    if v != [] {
      assert FromVector(v, basis)[1..] == FromVector(v[1..], basis[1..]);
      assert WeightsOf(basis, g)[1..] == WeightsOf(basis[1..], g);
      WeighFromVector(v[1..], basis[1..], g);
    }
  }

  /** A vector's polynomial has the vector's entries as coefficients. */
  lemma FromVectorCoeff(v: Vector, basis: seq<Exponents>, e: Exponents)
    requires |v| == |basis| && Distinct(basis)
    ensures forall r | 0 <= r < |basis| && basis[r] == e :: Coeff(FromVector(v, basis), e) == v[r]
    ensures e !in basis ==> Coeff(FromVector(v, basis), e) == 0.0
  {
    hide Times, Comb;
    WeighFromVector(v, basis, Indicator(e));
    var vs := WeightsOf(basis, Indicator(e));
    forall r | 0 <= r < |basis| && basis[r] == e ensures Coeff(FromVector(v, basis), e) == v[r] {
      forall i | 0 <= i < |basis| && i != r ensures vs[i] == 0.0 { assert basis[i] != basis[r]; }
      CombOnly(v, vs, r);
      TimesLaws(1.0, v[r], 0.0);
      TimesLaws(v[r], 1.0, 0.0);
    }
    if e !in basis {
      forall i | 0 <= i < |basis| ensures vs[i] == 0.0 { assert basis[i] in basis; }
      CombZeros(v, vs);
    }
  }

  /** A bounded polynomial is recovered from its coordinates. */
  lemma CoordinatesRoundTrip(p: Poly, m: nat, d: nat)
    requires InVariables(p, m) && BoundedBy(p, d)
    ensures SamePoly(FromVector(Coordinates(p, MonomialExponents(m, d)), MonomialExponents(m, d)), p)
  {
    hide Coeff, Degree, MonomialExponents, Distinct;
    var basis := MonomialExponents(m, d);
    var v := Coordinates(p, basis);
    BasisIsDistinct(m, d);
    forall e ensures Coeff(FromVector(v, basis), e) == Coeff(p, e) {
      FromVectorCoeff(v, basis, e);
      BasisIsAll(m, d, e);
      if e in basis { var r :| 0 <= r < |basis| && basis[r] == e; }
      else if |e| != m { OtherVariables(p, m, e); }
    }
  }

  /** The composition matrix, column by column: the images of the basis monomials, truncated. */
  method CompositionMatrix(f: seq<Poly>, m: nat, d: nat) returns (columns: seq<Vector>)
    requires IsMap(f, m)
    ensures IsMatrix(columns, f, m, d)
  {
    hide MonomialExponents, Image, Truncate;
    var basis := MonomialExponents(m, d);
    BasisWidth(m, d);
    columns := [];
    var j := 0;
    while j < |basis|
      invariant 0 <= j <= |basis| && |columns| == j
      invariant forall k | 0 <= k < j :: columns[k] == MatrixColumn(f, m, d, basis, k)
    {
      var image := Truncate(Image(basis[j], f, m), d);
      columns := columns + [Coordinates(image, basis)];
      j := j + 1;
    }
  }

  function MatrixColumn(f: seq<Poly>, m: nat, d: nat, basis: seq<Exponents>, k: nat): (v: Vector)
    requires IsMap(f, m) && k < |basis| && |basis[k]| == m
    ensures |v| == |basis|
  {
    Coordinates(Truncate(Image(basis[k], f, m), d), basis)
  }

  ghost predicate IsMatrix(columns: seq<Vector>, f: seq<Poly>, m: nat, d: nat)
    requires IsMap(f, m)
  {
    var basis := MonomialExponents(m, d);
    && |columns| == |basis|
    && forall k | 0 <= k < |basis| :: |basis[k]| == m && columns[k] == MatrixColumn(f, m, d, basis, k)
  }

  /** A matrix, given by its columns, applied to a vector. */
  function Apply(columns: seq<Vector>, size: nat, v: Vector): (w: Vector)
    requires |columns| == |v| == size && HaveDimension(columns, size)
    ensures |w| == size
  {
    seq(size, r requires 0 <= r < size => Comb(v, Column(columns, size, r)))
  }

  function PowerApply(columns: seq<Vector>, size: nat, v: Vector, n: nat): (w: Vector)
    requires |columns| == |v| == size && HaveDimension(columns, size)
    ensures |w| == size
  {
    if n == 0 then v else Apply(columns, size, PowerApply(columns, size, v, n - 1))
  }

  lemma MatrixDimension(columns: seq<Vector>, f: seq<Poly>, m: nat, d: nat)
    requires IsMap(f, m) && IsMatrix(columns, f, m, d)
    ensures HaveDimension(columns, |columns|) && |columns| == |MonomialExponents(m, d)|
  {
  }

  lemma FromVectorVariables(v: Vector, m: nat, d: nat)
    requires |v| == |MonomialExponents(m, d)|
    ensures InVariables(FromVector(v, MonomialExponents(m, d)), m)
  {
    BasisWidth(m, d);
  }

  /** The matrix is the truncated composition operator. */
  lemma ApplyComposes(columns: seq<Vector>, f: seq<Poly>, m: nat, d: nat, v: Vector)
    requires IsMap(f, m) && IsMatrix(columns, f, m, d) && |v| == |columns|
    ensures HaveDimension(columns, |columns|) && |columns| == |MonomialExponents(m, d)|
    ensures InVariables(FromVector(v, MonomialExponents(m, d)), m)
    ensures SamePoly(FromVector(Apply(columns, |columns|, v), MonomialExponents(m, d)),
                     Truncate(Compose(FromVector(v, MonomialExponents(m, d)), f, m), d))
  {
    hide MonomialExponents, Compose, Truncate, Degree, Coeff, Comb, Distinct, IsMatrix;
    var basis := MonomialExponents(m, d);
    MatrixDimension(columns, f, m, d);
    FromVectorVariables(v, m, d);
    BasisIsDistinct(m, d);
    var w := Apply(columns, |columns|, v);
    var composed := Compose(FromVector(v, basis), f, m);
    forall e ensures Coeff(FromVector(w, basis), e) == Coeff(Truncate(composed, d), e) {
      FromVectorCoeff(w, basis, e);
      TruncateCoeff(composed, d, e);
      BasisIsAll(m, d, e);
      if e in basis {
        var r :| 0 <= r < |basis| && basis[r] == e;
        ApplyEntry(columns, f, m, d, v, r);
      } else if |e| != m {
        OtherVariables(composed, m, e);
      }
    }
  }

  lemma ApplyEntry(columns: seq<Vector>, f: seq<Poly>, m: nat, d: nat, v: Vector, r: nat)
    requires IsMap(f, m) && IsMatrix(columns, f, m, d) && |v| == |columns| && HaveDimension(columns, |columns|)
    requires |columns| == |MonomialExponents(m, d)| && r < |columns|
    requires InVariables(FromVector(v, MonomialExponents(m, d)), m)
    ensures Apply(columns, |columns|, v)[r] ==
        Coeff(Compose(FromVector(v, MonomialExponents(m, d)), f, m), MonomialExponents(m, d)[r])
  {
    hide MonomialExponents, Compose, Truncate, Comb, Weigh, Image;
    var basis := MonomialExponents(m, d);
    var e := basis[r];
    var g := ImageWeight(f, m, Indicator(e));
    WeighCompose(FromVector(v, basis), f, m, Indicator(e));
    WeighFromVector(v, basis, g);
    forall k | 0 <= k < |basis| ensures Column(columns, |columns|, r)[k] == WeightsOf(basis, g)[k] {
      MatrixEntry(columns, f, m, d, k, r);
    }
    assert Column(columns, |columns|, r) == WeightsOf(basis, g);
  }

  lemma MatrixEntry(columns: seq<Vector>, f: seq<Poly>, m: nat, d: nat, k: nat, r: nat)
    requires IsMap(f, m) && IsMatrix(columns, f, m, d) && k < |columns| && r < |columns|
    ensures |columns| == |MonomialExponents(m, d)| && |columns[k]| == |columns| && |MonomialExponents(m, d)[k]| == m
    ensures columns[k][r] == Weigh(Image(MonomialExponents(m, d)[k], f, m), Indicator(MonomialExponents(m, d)[r]))
  {
    hide MonomialExponents, Truncate, Weigh, Image, Degree;
    var basis := MonomialExponents(m, d);
    BasisIsAll(m, d, basis[r]);
    TruncateCoeff(Image(basis[k], f, m), d, basis[r]);
  }

  /** The closed form of a component: the n-th power of the matrix applied to its coordinates. */
  function ClosedForm(columns: seq<Vector>, m: nat, d: nat, i: nat, n: nat): Poly
    requires |columns| == |MonomialExponents(m, d)| && HaveDimension(columns, |columns|)
  {
    FromVector(PowerApply(columns, |columns|, Coordinates(Variable(m, i), MonomialExponents(m, d)), n),
        MonomialExponents(m, d))
  }

  lemma VariableBounded(m: nat, i: nat, d: nat)
    requires i < m && d >= 1
    ensures BoundedBy(Variable(m, i), d)
  {
    UnitDegree(m, i);
    forall e | Degree(e) > d ensures Coeff(Variable(m, i), e) == 0.0 { AbsentMonomial(Variable(m, i), e); }
  }

  lemma {:induction false} UnitDegree(m: nat, i: nat)
    ensures Degree(UnitExponents(m, i)) == if i < m then 1 else 0
    decreases m
  {
    if m > 0 {
      var e := UnitExponents(m, i);
      if i == 0 {
        assert e[1..] == UnitExponents(m - 1, m);
        UnitDegree(m - 1, m);
      } else {
        assert e[1..] == UnitExponents(m - 1, i - 1);
        UnitDegree(m - 1, i - 1);
      }
    }
  }

  /** The powers of the truncated operator are the coordinates of the iterates. */
  lemma {:induction false} ClosedFormIsIterate(columns: seq<Vector>, f: seq<Poly>, m: nat, d: nat, i: nat, n: nat)
    requires IsMap(f, m) && IsMatrix(columns, f, m, d) && i < m && d >= 1
    requires Keeps(f, m, d)
    ensures |columns| == |MonomialExponents(m, d)| && HaveDimension(columns, |columns|)
    ensures SamePoly(ClosedForm(columns, m, d, i, n), Iterate(f, m, n)[i])
  {
    hide MonomialExponents, Coordinates, FromVector, Apply, IsMatrix, BoundedBy, SamePoly, Compose, Truncate;
    MatrixDimension(columns, f, m, d);
    var basis := MonomialExponents(m, d);
    if n == 0 {
      VariableBounded(m, i, d);
      CoordinatesRoundTrip(Variable(m, i), m, d);
    } else {
      ClosedFormIsIterate(columns, f, m, d, i, n - 1);
      var v := PowerApply(columns, |columns|, Coordinates(Variable(m, i), basis), n - 1);
      ApplyComposes(columns, f, m, d, v);
      ComposeTruncated(FromVector(v, basis), Iterate(f, m, n - 1)[i], f, m, d);
      assert IterateBounded(f, m, n, d);
      assert BoundedBy(Iterate(f, m, n)[i], d);
      SameTransitive(FromVector(Apply(columns, |columns|, v), basis), Truncate(Compose(FromVector(v, basis), f, m), d),
          Iterate(f, m, n)[i]);
    }
  }

  lemma SameTransitive(p: Poly, q: Poly, r: Poly)
    requires SamePoly(p, q) && SamePoly(q, r)
    ensures SamePoly(p, r)
  {
    hide Coeff;
  }

  /** Composing equal polynomials, when the result is bounded, truncation changes nothing. */
  lemma ComposeTruncated(p: Poly, q: Poly, f: seq<Poly>, m: nat, d: nat)
    requires IsMap(f, m) && InVariables(p, m) && InVariables(q, m) && SamePoly(p, q)
    ensures BoundedBy(Compose(q, f, m), d) ==> SamePoly(Truncate(Compose(p, f, m), d), Compose(q, f, m))
  {
    hide Weigh, Compose, Truncate, Degree;
    if BoundedBy(Compose(q, f, m), d) {
      forall e ensures Coeff(Truncate(Compose(p, f, m), d), e) == Coeff(Compose(q, f, m), e) {
        TruncateCoeff(Compose(p, f, m), d, e);
        WeighCompose(p, f, m, Indicator(e));
        WeighCompose(q, f, m, Indicator(e));
        SameWeight(p, q, ImageWeight(f, m, Indicator(e)));
      }
    }
  }

  /** The closed forms compute the loop: read at the initial values, the n-th closed form of a
      component is its value after n iterations. */
  lemma ClosedFormIsLoopValue(columns: seq<Vector>, f: seq<Poly>, m: nat, d: nat, i: nat, n: nat, x: Point)
    requires IsMap(f, m) && IsMatrix(columns, f, m, d) && i < m && d >= 1 && |x| == m
    requires Keeps(f, m, d)
    ensures |columns| == |MonomialExponents(m, d)| && HaveDimension(columns, |columns|)
    ensures Value(ClosedForm(columns, m, d, i, n), x) == Orbit(f, x, n)[i]
  {
    hide MonomialExponents, IsMatrix, ClosedForm, Iterate, Weigh;
    ClosedFormIsIterate(columns, f, m, d, i, n);
    SameWeight(ClosedForm(columns, m, d, i, n), Iterate(f, m, n)[i], At(x));
    IterateValue(f, m, n, i, x);
  }

  /* ---- the search for a bound ---- */

  function IntPower(b: nat, k: nat): nat { if k == 0 then 1 else b * IntPower(b, k - 1) }

  /** All closed forms from the matrix are right. */
  ghost predicate SolvesLoop(columns: seq<Vector>, f: seq<Poly>, m: nat, d: nat)
    requires IsMap(f, m)
  {
    && |columns| == |MonomialExponents(m, d)| && HaveDimension(columns, |columns|)
    && forall i, n: nat, x: Point | 0 <= i < m && |x| == m ::
        Value(ClosedForm(columns, m, d, i, n), x) == Orbit(f, x, n)[i]
  }

  /** The largest bound tried: the given one, unless it is missing or zero. */
  function LargestBound(degree: nat, m: nat, maxDegree: Option<nat>): nat {
    var upper := if maxDegree.Some? && maxDegree.value > 0 then maxDegree.value
        else IntPower(degree, if m >= 1 then m - 1 else 0);
    if upper < degree then degree else upper
  }

  /** Its value: a given positive bound, unless the degree is larger; otherwise the degree for up to two
      variables, and as many times the degree again as there are more. */
  lemma LargestBoundIs(degree: nat, m: nat, maxDegree: Option<nat>)
    requires degree >= 1
    ensures maxDegree.Some? && maxDegree.value > 0 ==>
      LargestBound(degree, m, maxDegree) == if maxDegree.value >= degree then maxDegree.value else degree
    ensures maxDegree.None? || maxDegree.value == 0 ==>
      && (m <= 2 ==> LargestBound(degree, m, maxDegree) == degree)
      && (m >= 2 ==> LargestBound(degree, m + 1, maxDegree) == degree * LargestBound(degree, m, maxDegree))
    ensures LargestBound(2, 3, None) == 4
  {
    if m >= 2 { PowerAtLeast(degree, m - 1); }
    if m >= 2 { PowerAtLeast(degree, m); }
    assert IntPower(degree, 1) == degree * IntPower(degree, 0) == degree;
    assert IntPower(2, 2) == 2 * IntPower(2, 1) == 2 * (2 * IntPower(2, 0));
  }

  lemma {:induction false} PowerAtLeast(b: nat, k: nat)
    requires b >= 1 && k >= 1
    ensures IntPower(b, k) >= b
  {
    if k > 1 {
      PowerAtLeast(b, k - 1);
      MulAtLeast(b, IntPower(b, k - 1));
    }
  }

  /** solve_bounded_cfinite_map: the least degree bound in range that the iterates keep, with the
      matrix whose closed forms compute the loop; nothing only if no bound in range is kept. The range
      starts at the degree of the map, or at one. */
  method SolveBoundedMap(f: seq<Poly>, m: nat, maxDegree: Option<nat>)
      returns (r: Option<(nat, seq<Vector>)>, ghost degree: nat)
    requires IsMap(f, m)
    ensures forall d: nat :: degree <= d <==> d >= 1 && AllBounded(f, d)
    ensures r.Some? ==> degree <= r.value.0 <= LargestBound(degree, m, maxDegree)
    ensures r.Some? ==> Keeps(f, m, r.value.0) && SolvesLoop(r.value.1, f, m, r.value.0)
    ensures r.Some? ==> forall d: nat | degree <= d < r.value.0 :: !Keeps(f, m, d)
    ensures r.None? ==> forall d: nat | degree <= d <= LargestBound(degree, m, maxDegree) :: !Keeps(f, m, d)
  {
    hide AllBounded, MonomialExponents, SolvesLoop, Keeps, LargestBound;
    var lowest := MapDegree(f);
    if lowest < 1 { lowest := 1; }
    degree := lowest;
    var upper := LargestBound(lowest, m, maxDegree);
    var bound := lowest;
    RangeNonempty(lowest, m, maxDegree);
    while bound <= upper
      invariant degree <= bound <= upper + 1
      invariant forall d: nat | degree <= d < bound :: !Keeps(f, m, d)
    {
      var bounded := IsBoundedDegreeMap(f, m, bound);
      if bounded {
        var columns := CompositionMatrix(f, m, bound);
        MatrixSolves(columns, f, m, bound);
        return Some((bound, columns)), degree;
      }
      bound := bound + 1;
    }
    r := None;
  }

  lemma RangeNonempty(degree: nat, m: nat, maxDegree: Option<nat>)
    ensures degree <= LargestBound(degree, m, maxDegree)
  {
  }

  lemma MatrixSolves(columns: seq<Vector>, f: seq<Poly>, m: nat, d: nat)
    requires IsMap(f, m) && IsMatrix(columns, f, m, d) && d >= 1
    requires Keeps(f, m, d)
    ensures SolvesLoop(columns, f, m, d)
  {
    hide IsMatrix, MonomialExponents, ClosedForm, Orbit, Iterate, AllBounded;
    MatrixDimension(columns, f, m, d);
    forall i, n: nat, x: Point | 0 <= i < m && |x| == m
        ensures Value(ClosedForm(columns, m, d, i, n), x) == Orbit(f, x, n)[i] {
      ClosedFormIsLoopValue(columns, f, m, d, i, n, x);
    }
  }
}
