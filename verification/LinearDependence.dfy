/** More vectors than dimensions are linearly dependent, by clearing one component of all vectors with
    a vector that has it. */
module LinearDependence {
  import opened Polynomials

  type Vector = seq<real>

  /** A linear combination of numbers. */
  function Comb(c: Vector, vs: Vector): real
    requires |c| == |vs|
  {
    if c == [] then 0.0 else Times(c[0], vs[0]) + Comb(c[1..], vs[1..])
  }

  predicate HaveDimension(vectors: seq<Vector>, d: nat) { forall i | 0 <= i < |vectors| :: |vectors[i]| == d }

  /** The r-th components. */
  function Column(vectors: seq<Vector>, d: nat, r: nat): (vs: Vector)
    requires HaveDimension(vectors, d) && r < d
    ensures |vs| == |vectors|
  {
    seq(|vectors|, i requires 0 <= i < |vectors| => vectors[i][r])
  }

  ghost predicate Nonzero(c: Vector) { exists i :: 0 <= i < |c| && c[i] != 0.0 }

  /** A nontrivial combination of the vectors is zero. */
  ghost predicate Dependency(vectors: seq<Vector>, d: nat, c: Vector)
    requires HaveDimension(vectors, d)
  {
    |c| == |vectors| && Nonzero(c) && forall r | 0 <= r < d :: Comb(c, Column(vectors, d, r)) == 0.0
  }

  lemma {:induction false} CombConcat(a: Vector, b: Vector, x: Vector, y: Vector)
    requires |a| == |x| && |b| == |y|
    ensures Comb(a + b, x + y) == Comb(a, x) + Comb(b, y)
  {
    hide Times;
    if a == [] {
      assert a + b == b && x + y == y;
    } else {
      assert (a + b)[1..] == a[1..] + b && (x + y)[1..] == x[1..] + y;
      CombConcat(a[1..], b, x[1..], y);
    }
  }

  /** A combination with one more term, put in at a position. */
  lemma CombInserted(c: Vector, vs: Vector, p: nat, a: real, v: real)
    requires |c| == |vs| && p <= |c|
    ensures Comb(c[..p] + [a] + c[p..], vs[..p] + [v] + vs[p..]) == Comb(c, vs) + Times(a, v)
  {
    hide Times, Comb;
    var c1, c2, v1, v2 := c[..p], c[p..], vs[..p], vs[p..];
    CombConcat(c1 + [a], c2, v1 + [v], v2);
    CombConcat(c1, [a], v1, [v]);
    CombConcat(c1, c2, v1, v2);
    assert c1 + c2 == c && v1 + v2 == vs;
    CombSingle(a, v);
  }

  lemma CombSingle(a: real, v: real)
    ensures Comb([a], [v]) == Times(a, v)
  {
    hide Times;
  }

  lemma {:induction false} CombZeros(c: Vector, vs: Vector)
    requires |c| == |vs| && forall i | 0 <= i < |vs| :: c[i] == 0.0 || vs[i] == 0.0
    ensures Comb(c, vs) == 0.0
  {
    hide Times;
    if c != [] {
      CombZeros(c[1..], vs[1..]);
      TimesLaws(c[0], 0.0, 0.0);
      TimesLaws(vs[0], 0.0, 0.0);
      TimesLaws(0.0, vs[0], 0.0);
    }
  }

  /** All other terms zero, the combination is the one term. */
  lemma {:induction false} CombOnly(c: Vector, vs: Vector, i: nat)
    requires |c| == |vs| && i < |c| && forall j | 0 <= j < |vs| && j != i :: c[j] == 0.0 || vs[j] == 0.0
    ensures Comb(c, vs) == Times(c[i], vs[i])
  {
    hide Times;
    if i == 0 {
      CombZeros(c[1..], vs[1..]);
    } else {
      CombOnly(c[1..], vs[1..], i - 1);
      TimesLaws(c[0], 0.0, 0.0);
      TimesLaws(vs[0], 0.0, 0.0);
      TimesLaws(0.0, vs[0], 0.0);
    }
  }

  /** Subtracting multiples of one number from each. */
  lemma {:induction false} CombSubtract(c: Vector, vs: Vector, fs: Vector, v: real, ws: Vector)
    requires |c| == |vs| == |fs| == |ws| && forall i | 0 <= i < |c| :: ws[i] == vs[i] - Times(fs[i], v)
    ensures Comb(c, ws) == Comb(c, vs) - Times(Comb(c, fs), v)
  {
    hide Times;
    if c == [] {
      TimesLaws(v, 0.0, 0.0);
    } else {
      CombSubtract(c[1..], vs[1..], fs[1..], v, ws[1..]);
      SubtractLaw(c[0], vs[0], fs[0], v, Comb(c[1..], fs[1..]));
    }
  }

  lemma SubtractLaw(c: real, x: real, f: real, v: real, g: real)
    ensures Times(c, x - Times(f, v)) - Times(g, v) == Times(c, x) - Times(Times(c, f) + g, v)
  {
    TimesLaws(c, f, v);
  }

  function Dropped(v: Vector): (w: Vector)
    requires v != []
    ensures |w| == |v| - 1
  {
    v[..|v| - 1]
  }

  function WithoutAt<T>(vs: seq<T>, p: nat): (r: seq<T>)
    requires p < |vs|
    ensures |r| == |vs| - 1
  {
    vs[..p] + vs[p + 1..]
  }

  function Ratio(x: real, y: real): real
    requires y != 0.0
  {
    x / y
  }

  lemma RatioLaw(x: real, y: real)
    requires y != 0.0
    ensures Times(Ratio(x, y), y) == x
  {
  }

  /** One vector with a nonzero last component clears the last component of the others. */
  function Cleared(others: seq<Vector>, pivot: Vector, d: nat): (ws: seq<Vector>)
    requires d > 0 && HaveDimension(others, d) && |pivot| == d && pivot[d - 1] != 0.0
    ensures HaveDimension(ws, d - 1) && |ws| == |others|
  {
    seq(|others|, i requires 0 <= i < |others| =>
      seq(d - 1, r requires 0 <= r < d - 1 => others[i][r] - Times(Ratio(others[i][d - 1], pivot[d - 1]), pivot[r])))
  }

  /** Gaussian elimination of one dimension. */
  lemma {:induction false} MoreVectorsThanDimensions(vectors: seq<Vector>, d: nat) returns (c: Vector)
    requires HaveDimension(vectors, d) && |vectors| > d
    ensures Dependency(vectors, d, c)
    decreases d
  {
    hide Times, Ratio, Comb;
    if d == 0 {
      c := seq(|vectors|, i => 1.0);
      assert c[0] != 0.0;
    } else if forall i | 0 <= i < |vectors| :: vectors[i][d - 1] == 0.0 {
      var shorter := seq(|vectors|, i requires 0 <= i < |vectors| => Dropped(vectors[i]));
      c := MoreVectorsThanDimensions(shorter, d - 1);
      forall r | 0 <= r < d ensures Comb(c, Column(vectors, d, r)) == 0.0 {
        if r < d - 1 { assert Column(vectors, d, r) == Column(shorter, d - 1, r); }
        else { CombZeros(c, Column(vectors, d, r)); }
      }
    } else {
      var p: nat :| p < |vectors| && vectors[p][d - 1] != 0.0;
      var others, pivot := WithoutAt(vectors, p), vectors[p];
      var c' := MoreVectorsThanDimensions(Cleared(others, pivot, d), d - 1);
      c := ExtendDependency(vectors, d, p, c');
    }
  }

  /** A dependency of the cleared vectors extends to the pivot. */
  lemma ExtendDependency(vectors: seq<Vector>, d: nat, p: nat, c': Vector) returns (c: Vector)
    requires d > 0 && HaveDimension(vectors, d) && p < |vectors| && vectors[p][d - 1] != 0.0
    requires HaveDimension(WithoutAt(vectors, p), d)
    requires Dependency(Cleared(WithoutAt(vectors, p), vectors[p], d), d - 1, c')
    ensures Dependency(vectors, d, c)
  {
    hide Times, Ratio, Comb;
    var others, pivot := WithoutAt(vectors, p), vectors[p];
    var cleared := Cleared(others, pivot, d);
    var fs := seq(|others|, i requires 0 <= i < |others| => Ratio(others[i][d - 1], pivot[d - 1]));
    var a := -Comb(c', fs);
    c := c'[..p] + [a] + c'[p..];
    var j :| 0 <= j < |c'| && c'[j] != 0.0;
    assert c[if j < p then j else j + 1] == c'[j];
    forall r | 0 <= r < d ensures Comb(c, Column(vectors, d, r)) == 0.0 {
      var vs := Column(others, d, r);
      assert Column(vectors, d, r) == vs[..p] + [pivot[r]] + vs[p..];
      CombInserted(c', vs, p, a, pivot[r]);
      var ws := if r < d - 1 then Column(cleared, d - 1, r) else seq(|others|, i => 0.0);
      forall i | 0 <= i < |others| ensures ws[i] == vs[i] - Times(fs[i], pivot[r]) {
        RatioLaw(others[i][d - 1], pivot[d - 1]);
      }
      CombSubtract(c', vs, fs, pivot[r], ws);
      if r == d - 1 { CombZeros(c', ws); }
      OppositeLaw(Comb(c', fs), pivot[r]);
    }
  }

  lemma OppositeLaw(x: real, v: real)
    ensures Times(-x, v) == -Times(x, v)
  {
  }
}
