/** The synthesised trip count of a counted loop: a ceiling division read off the header test, which is
    the first point of the trajectory where the test leaves. */
module CountTemplate {
  import opened Terms
  import opened Arith
  import opened ClosedForms
  import opened LoopNests
  import opened Wrappers

  function Inverse(p: Predicate): Predicate {
    match p
    case EQ => NE
    case NE => EQ
    case LT => GE
    case LE => GT
    case GT => LE
    case GE => LT
  }

  function Swapped(p: Predicate): Predicate {
    match p
    case EQ => EQ
    case NE => NE
    case LT => GT
    case LE => GE
    case GT => LT
    case GE => LE
  }

  lemma PredicateAlgebra(p: Predicate, a: int, b: int)
    ensures Compare(Inverse(p), a, b) <==> !Compare(p, a, b)
    ensures Compare(Swapped(p), b, a) <==> Compare(p, a, b)
  {
  }

  predicate Less_(p: Predicate) { p == LT || p == LE }
  predicate Greater_(p: Predicate) { p == GT || p == GE }
  predicate Inclusive(p: Predicate) { p == LE || p == GE }

  /** How far the counter is from its bound, in the direction of the test. */
  function Distance(p: Predicate, counter: int, bound: int): int {
    (if Less_(p) then bound - counter else counter - bound) + (if Inclusive(p) then 1 else 0)
  }

  function CeilingCount(distance: int, magnitude: int): int
    requires magnitude > 0
  {
    if distance > 0 then (distance + magnitude - 1) / magnitude else 0
  }

  /** The ceiling is the least count whose multiples cover the distance. */
  lemma CeilingIsLeast(distance: int, magnitude: int, t: nat)
    requires magnitude > 0
    ensures CeilingCount(distance, magnitude) >= 0
    ensures t * magnitude < distance <==> t < CeilingCount(distance, magnitude)
  {
    if distance > 0 {
      var q, r := (distance + magnitude - 1) / magnitude, (distance + magnitude - 1) % magnitude;
      DivModIdentity(distance + magnitude - 1, magnitude);
      if t < q {
        MulAtLeast(magnitude, q - t);
        Distribute(magnitude, q, t);
      } else if t > q {
        MulAtLeast(magnitude, t - q);
        Distribute(magnitude, t, q);
      }
      if q < 0 { MulAtLeast(magnitude, -q); Distribute(magnitude, 0, q); }
    } else {
      MulNonNegative(t, magnitude);
    }
  }

  /** For a strict or inclusive test in either direction, with a stride towards the bound, the
      counter passes the test before the count and fails it at the count. */
  lemma TemplateIsLeastBreak(p: Predicate, counter: int, bound: int, stride: int, t: nat)
    requires (Less_(p) && stride > 0) || (Greater_(p) && stride < 0)
    ensures var magnitude := if stride > 0 then stride else -stride;
      CeilingCount(Distance(p, counter, bound), magnitude) >= 0
      && (Compare(p, counter + t * stride, bound) <==> t < CeilingCount(Distance(p, counter, bound), magnitude))
  {
    var magnitude := if stride > 0 then stride else -stride;
    CeilingIsLeast(Distance(p, counter, bound), magnitude, t);
    assert stride < 0 ==> t * stride == -(t * magnitude);
  }

  /* ---- the template as a term ---- */

  const MIN_STRIDE: int := -0x8000_0000_0000_0000
  const MAX_STRIDE: int := 0x7fff_ffff_ffff_ffff

  /** The scalar is carried around the loop: it is a PHI of the header. */
  predicate HeaderPhi(t: Term, body: Code, m: nat) {
    t.Var? && t.id < m && Modifies(body, t.id)
  }

  predicate DependsOnPhi(t: Term, body: Code, m: nat) {
    exists x | 0 <= x < m :: Modifies(body, x) && Occurs(x, t)
  }

  function DistanceTerm(p: Predicate, counter: Term, bound: Term): Term {
    var d := if Less_(p) then Minus(bound, counter) else Minus(counter, bound);
    if Inclusive(p) then Plus(d, Num(1)) else d
  }

  function CountTerm(distance: Term, magnitude: int): Term {
    Ite(Less(Num(0), distance),
        Binary(Div, Minus(Plus(distance, Num(magnitude)), Num(1)), Num(magnitude)),
        Num(0))
  }

  lemma CountTermMeans(p: Predicate, counter: Term, bound: Term, magnitude: int, e: Env)
    requires magnitude > 0
    ensures Eval(CountTerm(DistanceTerm(p, counter, bound), magnitude), e)
         == CeilingCount(Distance(p, Eval(counter, e), Eval(bound, e)), magnitude)
  {
    hide Eval;
    DistanceMeans(p, counter, bound, e);
    CountOf(DistanceTerm(p, counter, bound), magnitude, e);
  }

  lemma DistanceMeans(p: Predicate, counter: Term, bound: Term, e: Env)
    ensures Eval(DistanceTerm(p, counter, bound), e) == Distance(p, Eval(counter, e), Eval(bound, e))
  {
    hide Eval, Minus, Plus;
    NumMeans(1, e);
  }

  lemma CountOf(d: Term, magnitude: int, e: Env)
    requires magnitude > 0
    ensures Eval(CountTerm(d, magnitude), e) == CeilingCount(Eval(d, e), magnitude)
  {
    var test, top := Less(Num(0), d), Minus(Plus(d, Num(magnitude)), Num(1));
    var quotient := Binary(Div, top, Num(magnitude));
    assert Eval(top, e) == Eval(d, e) + magnitude - 1 by {
      assert Eval(Num(magnitude), e) == magnitude && Eval(Num(1), e) == 1;
    }
    assert Eval(quotient, e) == Eval(top, e) / magnitude by {
      assert Eval(Num(magnitude), e) == magnitude;
      assert Eval(quotient, e) == Apply(Div, [Eval(top, e), magnitude], e);
    }
    assert Holds(test, e) <==> 0 < Eval(d, e) by { assert Eval(Num(0), e) == 0; }
    assert Eval(Ite(test, quotient, Num(0)), e) == if Eval(test, e) != 0 then Eval(quotient, e) else Eval(Num(0), e);
  }

  lemma BinaryScalar(op: Op, a: Term, b: Term, m: nat)
    requires Scalar(a, m) && Scalar(b, m)
    ensures Scalar(App(op, [a, b]), m)
  {
    BinaryPlain(op, a, b);
  }

  lemma CountScalar(p: Predicate, counter: Term, bound: Term, magnitude: int, m: nat)
    requires Scalar(counter, m) && Scalar(bound, m)
    ensures Scalar(CountTerm(DistanceTerm(p, counter, bound), magnitude), m)
  {
    var d := DistanceTerm(p, counter, bound);
    BinaryScalar(Sub, counter, bound, m);
    BinaryScalar(Sub, bound, counter, m);
    assert Scalar(d, m) by {
      if Less_(p) { BinaryScalar(Add, Minus(bound, counter), Num(1), m); }
      else { BinaryScalar(Add, Minus(counter, bound), Num(1), m); }
    }
    BinaryScalar(Lt, Num(0), d, m);
    BinaryScalar(Add, d, Num(magnitude), m);
    BinaryScalar(Sub, Plus(d, Num(magnitude)), Num(1), m);
    BinaryScalar(Div, Minus(Plus(d, Num(magnitude)), Num(1)), Num(magnitude), m);
  }

  /** The map of one iteration keeps the scalars the body does not assign. */
  ghost predicate KeepsOthers(oneStep: seq<Term>, body: Code, m: nat) {
    |oneStep| == m && forall e: Env, s: State, x | |s| == m && 0 <= x < m && !Modifies(body, x) ::
      Eval(oneStep[x], Store(e, m, s)) == s[x]
  }

  /** The trajectory of the map from a store. */
  ghost function Trajectory(oneStep: seq<Term>, m: nat, e: Env, s: State, t: nat): (u: State)
    requires |s| == m == |oneStep|
    ensures |u| == m
  {
    Iterate(oneStep, Params(m), e, s, t)
  }

  /** The count is the first point of the trajectory where the header test leaves the loop. */
  ghost predicate LeastBreak(count: Term, test: Test, oneStep: seq<Term>, m: nat, e: Env, s: State)
    requires |s| == m == |oneStep|
  {
    var n := Eval(count, Store(e, m, s));
    n >= 0 && forall t: nat :: t <= n ==> (Continues(test, e, Trajectory(oneStep, m, e, s, t)) <==> t < n)
  }

  /** The header tests that have a template: a scalar carried around the loop, with a constant stride
      of 64 bits, moves towards a bound the loop does not change, and the test is an order. */
  ghost predicate TemplateApplies(test: Test, body: Code, m: nat, oneStep: seq<Term>, simplify: Rewriter)
    requires |oneStep| == m
  {
    var swapped := !HeaderPhi(test.left, body, m);
    var counter, bound := if swapped then test.right else test.left, if swapped then test.left else test.right;
    && HeaderPhi(counter, body, m) && !DependsOnPhi(bound, body, m)
    && var delta := simplify(Minus(oneStep[counter.id], counter));
       delta.Num? && MIN_STRIDE < delta.value <= MAX_STRIDE
       && ((Less_(Stays(test, swapped)) && delta.value > 0) || (Greater_(Stays(test, swapped)) && delta.value < 0))
  }

  /** What nested_count_template returns, as a function of its arguments. */
  ghost function TemplateOf(test: Test, body: Code, m: nat, oneStep: seq<Term>, simplify: Rewriter): Option<Term>
    requires |oneStep| == m
  {
    if !TemplateApplies(test, body, m, oneStep, simplify) then None
    else
      var swapped := !HeaderPhi(test.left, body, m);
      var counter, bound := if swapped then test.right else test.left, if swapped then test.left else test.right;
      var stride := simplify(Minus(oneStep[counter.id], counter)).value;
      Some(simplify(CountTerm(DistanceTerm(Stays(test, swapped), counter, bound), if stride > 0 then stride
          else -stride)))
  }

  /** The scalar is a PHI of the header. */
  ghost predicate Carried(t: Term, body: Code, m: nat) { t.Var? && t.id < m && Modifies(body, t.id) }

  /** The test keeps the loop going where the counter has one value and the bound another. */
  function GoesOn(test: Test, onLeft: bool, counter: int, bound: int): bool {
    (if onLeft then Compare(test.predicate_, counter, bound) else Compare(test.predicate_, bound, counter))
    == test.continueOnTrue
  }

  /** The same in other words: of the two sides of the test the first that is carried around the loop is
      the counter, the other does not change, the stride is a nonzero number of 64 bits other than the
      least, and the loop goes on while the counter is on the side of the bound that it comes from. */
  ghost predicate HasTemplate(test: Test, body: Code, m: nat, oneStep: seq<Term>, simplify: Rewriter)
    requires |oneStep| == m
  {
    var onLeft := Carried(test.left, body, m);
    var counter, bound := if onLeft then test.left else test.right, if onLeft then test.right else test.left;
    && Carried(counter, body, m) && (forall x | 0 <= x < m && Modifies(body, x) :: !Occurs(x, bound))
    && var stride := simplify(Minus(oneStep[counter.id], counter));
       && stride.Num? && -0x8000_0000_0000_0000 < stride.value <= 0x7fff_ffff_ffff_ffff && stride.value != 0
       && if stride.value > 0 then GoesOn(test, onLeft, 0, 1) && !GoesOn(test, onLeft, 1, 0)
          else GoesOn(test, onLeft, 1, 0) && !GoesOn(test, onLeft, 0, 1)
  }

  lemma TemplateExactly(test: Test, body: Code, m: nat, oneStep: seq<Term>, simplify: Rewriter)
    requires |oneStep| == m
    ensures TemplateApplies(test, body, m, oneStep, simplify) <==> HasTemplate(test, body, m, oneStep, simplify)
  {
    hide Occurs, Modifies, Minus;
    var swapped := !HeaderPhi(test.left, body, m);
    StaysGoesOn(test, swapped, 0, 1);
    StaysGoesOn(test, swapped, 1, 0);
    var p := Stays(test, swapped);
    assert Less_(p) <==> Compare(p, 0, 1) && !Compare(p, 1, 0);
    assert Greater_(p) <==> Compare(p, 1, 0) && !Compare(p, 0, 1);
  }

  lemma StaysGoesOn(test: Test, swapped: bool, a: int, b: int)
    ensures Compare(Stays(test, swapped), a, b) <==> GoesOn(test, !swapped, a, b)
  {
    PredicateAlgebra(test.predicate_, a, b);
    PredicateAlgebra(test.predicate_, b, a);
    PredicateAlgebra(Inverse(test.predicate_), b, a);
  }

  /** nested_count_template. */
  method NestedCountTemplate(test: Test, body: Code, m: nat, oneStep: seq<Term>, simplify: Rewriter)
    returns (count: Option<Term>)
    requires Scalar(test.left, m) && Scalar(test.right, m) && KeepsOthers(oneStep, body, m) && Simplifies(simplify)
    ensures |oneStep| == m && (count.Some? <==> HasTemplate(test, body, m, oneStep, simplify))
    ensures count == TemplateOf(test, body, m, oneStep, simplify)
    ensures count.Some? ==> Scalar(count.value, m)
    ensures count.Some? ==> forall e: Env, s: State | |s| == m :: LeastBreak(count.value, test, oneStep, m, e, s)
  {
    hide Occurs, QuantifierFree, DistanceTerm, CountTerm, Continues, Simplifies, Scalar, LeastBreak, HasTemplate;
    WidthOf(oneStep, body, m);
    TemplateExactly(test, body, m, oneStep, simplify);
    var p := if test.continueOnTrue then test.predicate_ else Inverse(test.predicate_);
    var counter, bound := test.left, test.right;
    var swapped := !HeaderPhi(counter, body, m);
    if swapped {
      counter, bound := bound, counter;
      p := Swapped(p);
    }
    if !HeaderPhi(counter, body, m) { return None; }
    var delta := simplify(Minus(oneStep[counter.id], counter));
    if !delta.Num? { return None; }
    var stride := delta.value;
    if stride == 0 || stride <= MIN_STRIDE || stride > MAX_STRIDE { return None; }
    if DependsOnPhi(bound, body, m) { return None; }
    if (!Less_(p) && !Greater_(p)) || (Less_(p) && stride < 0) || (Greater_(p) && stride > 0) { return None; }
    var magnitude := if stride > 0 then stride else -stride;
    var term := CountTerm(DistanceTerm(p, counter, bound), magnitude);
    CountScalar(p, counter, bound, magnitude, m);
    count := Some(simplify(term));
    SimplifiedScalar(simplify, term, m);
    hide KeepsOthers;
    forall e: Env, s: State | |s| == m ensures LeastBreak(count.value, test, oneStep, m, e, s) {
      TemplateBreaks(test, body, m, oneStep, simplify, p, swapped, counter.id, bound, stride, e, s);
      SimplifiedBreak(simplify, term, test, oneStep, m, e, s);
    }
  }

  lemma SimplifiedScalar(simplify: Rewriter, t: Term, m: nat)
    requires Simplifies(simplify) && Scalar(t, m)
    ensures Scalar(simplify(t), m)
  {
    hide QuantifierFree, Eval;
  }

  lemma SimplifiedBreak(simplify: Rewriter, count: Term, test: Test, oneStep: seq<Term>, m: nat, e: Env, s: State)
    requires Simplifies(simplify) && |s| == m == |oneStep| && LeastBreak(count, test, oneStep, m, e, s)
    ensures LeastBreak(simplify(count), test, oneStep, m, e, s)
  {
    hide QuantifierFree, Eval, Occurs, Continues;
    SimplifiedValue(simplify, count, Store(e, m, s));
  }

  /** The predicate between counter and bound that keeps the loop going. */
  function Stays(test: Test, swapped: bool): Predicate {
    var p := if test.continueOnTrue then test.predicate_ else Inverse(test.predicate_);
    if swapped then Swapped(p) else p
  }

  lemma StaysMeans(test: Test, swapped: bool, e: Env, u: State)
    ensures var b := Store(e, |u|, u);
      Continues(test, e, u) <==>
        Compare(Stays(test, swapped), Eval(if swapped then test.right else test.left, b),
            Eval(if swapped then test.left else test.right, b))
  {
    var b := Store(e, |u|, u);
    var x, y := Eval(test.left, b), Eval(test.right, b);
    PredicateAlgebra(test.predicate_, x, y);
    PredicateAlgebra(if test.continueOnTrue then test.predicate_ else Inverse(test.predicate_), x, y);
  }

  lemma {:induction false} OthersStay(oneStep: seq<Term>, body: Code, m: nat, e: Env, s: State, t: nat, x: nat)
    requires KeepsOthers(oneStep, body, m) && |s| == m && x < m && !Modifies(body, x)
    ensures Trajectory(oneStep, m, e, s, t)[x] == s[x]
  {
    if t > 0 {
      OthersStay(oneStep, body, m, e, s, t - 1, x);
      var u := Trajectory(oneStep, m, e, s, t - 1);
      assert Eval(oneStep[x], Store(e, m, u)) == u[x];
    }
  }

  lemma {:induction false} CounterMoves(oneStep: seq<Term>, m: nat, simplify: Rewriter, c: nat, stride: int, e: Env,
      s: State, t: nat)
    requires |oneStep| == m == |s| && c < m && Simplifies(simplify)
    requires simplify(Minus(oneStep[c], Var(c))) == Num(stride)
    ensures Trajectory(oneStep, m, e, s, t)[c] == s[c] + t * stride
  {
    hide Simplifies, Occurs, QuantifierFree;
    if t > 0 {
      CounterMoves(oneStep, m, simplify, c, stride, e, s, t - 1);
      var b := Store(e, m, Trajectory(oneStep, m, e, s, t - 1));
      SimplifiedValue(simplify, Minus(oneStep[c], Var(c)), b);
      assert Eval(Minus(oneStep[c], Var(c)), b) == Eval(oneStep[c], b) - Eval(Var(c), b);
      assert Eval(Num(stride), b) == stride && Eval(Var(c), b) == Lookup(b, c);
      assert t * stride == (t - 1) * stride + stride;
    }
  }

  lemma SimplifiedValue(simplify: Rewriter, t: Term, e: Env)
    requires Simplifies(simplify)
    ensures Eval(simplify(t), e) == Eval(t, e)
  {
  }

  lemma BoundStays(oneStep: seq<Term>, body: Code, m: nat, bound: Term, e: Env, s: State, t: nat)
    requires KeepsOthers(oneStep, body, m) && |s| == m && Scalar(bound, m) && !DependsOnPhi(bound, body, m)
    ensures Eval(bound, Store(e, m, Trajectory(oneStep, m, e, s, t))) == Eval(bound, Store(e, m, s))
  {
    hide KeepsOthers, QuantifierFree, Eval, Modifies, Trajectory;
    WidthOf(oneStep, body, m);
    var b, b' := Store(e, m, Trajectory(oneStep, m, e, s, t)), Store(e, m, s);
    forall id | Occurs(id, bound) ensures Lookup(b, id) == Lookup(b', id) {
      OthersStay(oneStep, body, m, e, s, t, id);
    }
    EvalAgree(bound, b, b');
  }

  lemma TemplateBreaks(test: Test, body: Code, m: nat, oneStep: seq<Term>, simplify: Rewriter, p: Predicate,
      swapped: bool,
                       c: nat, bound: Term, stride: int, e: Env, s: State)
    requires KeepsOthers(oneStep, body, m) && Simplifies(simplify) && |s| == m && c < m
    requires p == Stays(test, swapped) && stride != 0
    requires (if swapped then test.right else test.left) == Var(c)
        && (if swapped then test.left else test.right) == bound
    requires simplify(Minus(oneStep[c], Var(c))) == Num(stride)
    requires Scalar(bound, m) && !DependsOnPhi(bound, body, m)
    requires (Less_(p) && stride > 0) || (Greater_(p) && stride < 0)
    ensures |oneStep| == m
    ensures LeastBreak(CountTerm(DistanceTerm(p, Var(c), bound), if stride > 0 then stride else -stride), test,
        oneStep, m, e, s)
  {
    hide KeepsOthers, Simplifies, Scalar, DependsOnPhi, Stays, Less_, Greater_, DistanceTerm, CountTerm, Continues,
        Distance, CeilingCount;
    var magnitude := if stride > 0 then stride else -stride;
    var b := Store(e, m, s);
    CountTermMeans(p, Var(c), bound, magnitude, b);
    assert Eval(Var(c), b) == s[c];
    TemplateIsLeastBreak(p, s[c], Eval(bound, b), stride, 0);
    WidthOf(oneStep, body, m);
    forall t: nat
      ensures Continues(test, e, Trajectory(oneStep, m, e, s, t)) <==>
          t < CeilingCount(Distance(p, s[c], Eval(bound, b)), magnitude)
    {
      var u := Trajectory(oneStep, m, e, s, t);
      StaysMeans(test, swapped, e, u);
      CounterMoves(oneStep, m, simplify, c, stride, e, s, t);
      BoundStays(oneStep, body, m, bound, e, s, t);
      assert Eval(Var(c), Store(e, m, u)) == u[c];
      TemplateIsLeastBreak(p, s[c], Eval(bound, b), stride, t);
    }
  }

  lemma WidthOf(oneStep: seq<Term>, body: Code, m: nat)
    requires KeepsOthers(oneStep, body, m)
    ensures |oneStep| == m
  {
  }
}
