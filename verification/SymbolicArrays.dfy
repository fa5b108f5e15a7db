/** Conditional expressions with definedness, and memory objects that store an array as such an
    expression over its index symbols: a write pushes a guarded case in front, a read substitutes
    the index. */
module SymbolicArrays {
  import opened Terms
  import opened ClosedForms
  import opened Piecewise
  import opened Cnf
  import opened Wrappers

  /** Guarded cases: a condition, an expression and a definedness condition each. */
  datatype Cases = Cases(conds: seq<Term>, exprs: seq<Term>, defs: seq<Term>)

  /** In every environment exactly one case applies. */
  ghost predicate Total(c: Cases) {
    |c.conds| == |c.exprs| == |c.defs| && forall e :: Applies(c, e)
  }

  ghost predicate Applies(c: Cases, e: Env) { exists i: nat :: Picks(c.conds, e, i) }

  ghost function PickOf(c: Cases, e: Env): (i: nat)
    requires Total(c)
    ensures Picks(c.conds, e, i)
  {
    assert Applies(c, e);
    var i: nat :| Picks(c.conds, e, i);
    i
  }

  ghost function ValueOf(c: Cases, e: Env): int
    requires Total(c)
  {
    Eval(c.exprs[PickOf(c, e)], e)
  }

  ghost predicate DefinedIn(c: Cases, e: Env)
    requires Total(c)
  {
    Holds(c.defs[PickOf(c, e)], e)
  }

  ghost predicate PlainCases(c: Cases) { Plain(c.conds) && Plain(c.exprs) && Plain(c.defs) }

  lemma OnePick(conds: seq<Term>, e: Env, i: nat, j: nat)
    requires Picks(conds, e, i) && Picks(conds, e, j)
    ensures i == j
  {
  }

  /** The case that applies gives the value and the definedness. */
  lemma PickIs(c: Cases, e: Env, i: nat)
    requires Total(c) && Picks(c.conds, e, i)
    ensures PickOf(c, e) == i && ValueOf(c, e) == Eval(c.exprs[i], e) && (DefinedIn(c, e) <==> Holds(c.defs[i], e))
  {
    OnePick(c.conds, e, i, PickOf(c, e));
  }

  lemma YieldsValue(c: Cases, e: Env)
    requires Total(c)
    ensures Yields(c.conds, c.exprs, e, ValueOf(c, e))
    ensures Yields(c.conds, c.defs, e, Eval(c.defs[PickOf(c, e)], e))
  {
  }

  /** The kept pairs of cases of a binary operation. */
  ghost predicate Paired(l: Cases, r: Cases, op: (Term, Term) -> Term, kept: seq<(nat, nat)>, c: Cases) {
    && |kept| == |c.conds| == |c.exprs| == |c.defs|
    && (forall k | 0 <= k < |kept| :: PairAt(l, r, op, kept[k], c, k))
    && (forall j, k | 0 <= j < k < |kept| :: kept[j] != kept[k])
  }

  ghost predicate PairAt(l: Cases, r: Cases, op: (Term, Term) -> Term, p: (nat, nat), c: Cases, k: nat)
    requires k < |c.conds| && |c.conds| == |c.exprs| == |c.defs|
  {
    && |l.conds| == |l.exprs| == |l.defs| && |r.conds| == |r.exprs| == |r.defs|
    && p.0 < |l.conds| && p.1 < |r.conds|
    && c.conds[k] == Conj(l.conds[p.0], r.conds[p.1])
    && c.exprs[k] == op(l.exprs[p.0], r.exprs[p.1])
    && c.defs[k] == Conj(l.defs[p.0], r.defs[p.1])
  }

  /** Where a kept pair applies, it is the pair of the cases that apply, and no other applies. */
  lemma PairApplies(l: Cases, r: Cases, op: (Term, Term) -> Term, kept: seq<(nat, nat)>, c: Cases, e: Env, k: nat)
    requires Total(l) && Total(r) && Paired(l, r, op, kept, c) && k < |kept| && Holds(c.conds[k], e)
    ensures kept[k] == (PickOf(l, e), PickOf(r, e)) && Picks(c.conds, e, k)
  {
    hide Eval;
    assert PairAt(l, r, op, kept[k], c, k);
    var a, b := PickOf(l, e), PickOf(r, e);
    forall j | 0 <= j < |kept| && j != k ensures !Holds(c.conds[j], e) {
      assert PairAt(l, r, op, kept[j], c, j);
      assert kept[j] != kept[k];
    }
  }

  lemma PairKept(l: Cases, r: Cases, op: (Term, Term) -> Term, kept: seq<(nat, nat)>, c: Cases, e: Env)
    requires Total(l) && Total(r) && Paired(l, r, op, kept, c) && (PickOf(l, e), PickOf(r, e)) in kept
    ensures exists k: nat :: k < |kept| && Picks(c.conds, e, k)
  {
    hide Eval;
    var k :| 0 <= k < |kept| && kept[k] == (PickOf(l, e), PickOf(r, e));
    assert PairAt(l, r, op, kept[k], c, k);
    PairApplies(l, r, op, kept, c, e, k);
  }

  /** The operation on terms computes the operation on values. */
  ghost predicate Lifts(op: (Term, Term) -> Term, f: (int, int, Env) -> int) {
    forall a, b, e :: Eval(op(a, b), e) == f(Eval(a, e), Eval(b, e), e)
  }

  ghost predicate Combines(l: Cases, r: Cases, c: Cases, f: (int, int, Env) -> int)
    requires Total(l) && Total(r)
  {
    && |c.conds| == |c.exprs| == |c.defs|
    && forall e, k: nat | k < |c.conds| && Holds(c.conds[k], e) ::
         && Picks(c.conds, e, k)
         && Eval(c.exprs[k], e) == f(ValueOf(l, e), ValueOf(r, e), e)
         && (Holds(c.defs[k], e) <==> DefinedIn(l, e) && DefinedIn(r, e))
  }

  lemma PairsCombine(l: Cases, r: Cases, op: (Term, Term) -> Term, f: (int, int, Env) -> int, kept: seq<(nat, nat)>,
      c: Cases)
    requires Total(l) && Total(r) && Paired(l, r, op, kept, c) && Lifts(op, f)
    ensures Combines(l, r, c, f)
  {
    hide Eval;
    forall e, k: nat | k < |c.conds| && Holds(c.conds[k], e)
      ensures Picks(c.conds, e, k)
      ensures Eval(c.exprs[k], e) == f(ValueOf(l, e), ValueOf(r, e), e)
      ensures Holds(c.defs[k], e) <==> DefinedIn(l, e) && DefinedIn(r, e)
    {
      PairApplies(l, r, op, kept, c, e, k);
      assert PairAt(l, r, op, kept[k], c, k);
    }
  }

  /* ---- pushing a case in front ---- */

  /** The new case where its condition holds, the old cases elsewhere. */
  ghost predicate InFront(condition: Term, front: Cases, old_: Cases, new_: Cases)
    requires Total(front) && Total(old_)
  {
    Total(new_) && forall e ::
      && ValueOf(new_, e) == (if Holds(condition, e) then ValueOf(front, e) else ValueOf(old_, e))
      && (DefinedIn(new_, e) <==> if Holds(condition, e) then DefinedIn(front, e) else DefinedIn(old_, e))
  }

  /** The new condition or one of the first n old ones. */
  function AccOf(condition: Term, conds: seq<Term>, n: nat): Term
    requires n <= |conds|
  {
    if n == 0 then condition else Disj(AccOf(condition, conds, n - 1), conds[n - 1])
  }

  lemma {:induction false} AccMeans(condition: Term, conds: seq<Term>, n: nat, e: Env)
    requires n <= |conds|
    ensures Holds(AccOf(condition, conds, n), e) <==> Holds(condition, e) || exists j | 0 <= j < n :: Holds(conds[j], e)
  {
    if n > 0 {
      AccMeans(condition, conds, n - 1, e);
      hide Eval;
      if j :| 0 <= j < n - 1 && Holds(conds[j], e) { assert j < n; }
    }
  }

  /** What an old condition becomes before it is simplified: the earlier ones excluded. */
  function FrontQuery(condition: Term, conds: seq<Term>, i: nat): Term
    requires i < |conds|
  {
    Conj(Negate(AccOf(condition, conds, i)), conds[i])
  }

  /** The new condition, and the first old cases with their conditions simplified. */
  ghost predicate Shadowed(condition: Term, old_: Cases, new_: Cases, runs: seq<Enumeration>, o: Oracles) {
    && |new_.conds| == |new_.exprs| == |new_.defs| == |runs| + 1
    && |runs| <= |old_.conds| == |old_.exprs| == |old_.defs| && new_.conds[0] == condition
    && (forall k | 1 <= k < |new_.conds| ::
        SimplifiedTo(FrontQuery(condition, old_.conds, k - 1), Flag(true), runs[k - 1], o, new_.conds[k]))
    && (forall k | 1 <= k < |new_.conds| :: new_.exprs[k] == old_.exprs[k - 1] && new_.defs[k] == old_.defs[k - 1])
  }

  lemma ShadowStep(condition: Term, old_: Cases, new_: Cases, runs: seq<Enumeration>, o: Oracles, run: Enumeration,
      t: Term)
    requires Shadowed(condition, old_, new_, runs, o) && |runs| < |old_.conds|
    requires SimplifiedTo(FrontQuery(condition, old_.conds, |runs|), Flag(true), run, o, t)
    ensures
      var i := |runs|;
      Shadowed(condition, old_, Cases(new_.conds + [t], new_.exprs + [old_.exprs[i]], new_.defs + [old_.defs[i]]),
          runs + [run], o)
  {
    hide SimplifiedTo, FrontQuery;
  }

  /** The new case, and all the old ones. */
  ghost predicate Fronted(condition: Term, front: Cases, old_: Cases, new_: Cases, runs: seq<Enumeration>, o: Oracles)
    requires Total(front) && Total(old_)
  {
    && Shadowed(condition, old_, new_, runs, o) && |runs| == |old_.conds|
    && (forall e :: Eval(new_.exprs[0], e) == ValueOf(front, e))
    && (forall e :: Holds(new_.defs[0], e) <==> DefinedIn(front, e))
  }

  /** An old case still applies because of a query that the solver did not answer. */
  ghost predicate Leaks(condition: Term, old_: Cases, new_: Cases, runs: seq<Enumeration>, o: Oracles, e: Env)
    requires |runs| <= |old_.conds| && |new_.conds| == |runs| + 1
  {
    exists k | 1 <= k < |new_.conds| :: Holds(new_.conds[k], e) && DoubtAt(condition, old_, runs, o, e, k - 1)
  }

  ghost predicate DoubtAt(condition: Term, old_: Cases, runs: seq<Enumeration>, o: Oracles, e: Env, i: nat)
    requires i < |runs| <= |old_.conds|
  {
    Doubtful(o.solver, Queries(FrontQuery(condition, old_.conds, i), Flag(true), runs[i], o), e)
  }

  /** The solver answered every query behind the new conditions. */
  ghost predicate FrontAnswered(condition: Term, old_: Cases, runs: seq<Enumeration>, o: Oracles)
    requires |runs| <= |old_.conds|
  {
    forall i | 0 <= i < |runs| ::
        Answered(o.solver, Queries(FrontQuery(condition, old_.conds, i), Flag(true), runs[i], o))
  }

  lemma AnsweredNeverLeaks(condition: Term, old_: Cases, new_: Cases, runs: seq<Enumeration>, o: Oracles, e: Env)
    requires |runs| <= |old_.conds| && |new_.conds| == |runs| + 1
    ensures FrontAnswered(condition, old_, runs, o) ==> !Leaks(condition, old_, new_, runs, o, e)
    ensures Decides(o.solver) ==> FrontAnswered(condition, old_, runs, o)
  {
    hide Eval, Doubtful, Queries, Answered, FrontQuery;
    forall i | 0 <= i < |runs|
      ensures Decides(o.solver) ==>
          Answered(o.solver, Queries(FrontQuery(condition, old_.conds, i), Flag(true), runs[i], o))
      ensures FrontAnswered(condition, old_, runs, o) ==> !DoubtAt(condition, old_, runs, o, e, i)
    {
      var qs := Queries(FrontQuery(condition, old_.conds, i), Flag(true), runs[i], o);
      if Decides(o.solver) { DecidesAnswers(o.solver, qs); }
      if FrontAnswered(condition, old_, runs, o) { AnsweredLeavesNoDoubt(o.solver, qs, e); }
    }
  }

  /** The position of the case that should apply. */
  ghost function FrontPick(condition: Term, old_: Cases, e: Env): (k: nat)
    requires Total(old_)
  {
    if Holds(condition, e) then 0 else PickOf(old_, e) + 1
  }

  lemma FrontQueryMeans(condition: Term, old_: Cases, i: nat, e: Env)
    requires Total(old_) && i < |old_.conds|
    ensures Holds(FrontQuery(condition, old_.conds, i), e) <==> FrontPick(condition, old_, e) == i + 1
  {
    AccMeans(condition, old_.conds, i, e);
    hide Eval;
  }

  /** The case that should apply always does; it does so alone if and only if no old case leaks. */
  lemma FrontPicks(condition: Term, front: Cases, old_: Cases, new_: Cases, runs: seq<Enumeration>, o: Oracles, e: Env)
    requires Total(front) && Total(old_) && Fronted(condition, front, old_, new_, runs, o)
    ensures var k := FrontPick(condition, old_, e);
      k < |new_.conds| && Holds(new_.conds[k], e)
          && (Picks(new_.conds, e, k) <==> !Leaks(condition, old_, new_, runs, o, e))
  {
    hide Eval, Doubtful, Queries, FrontQuery, Ends, AtomsOf, ValueOf, DefinedIn, FrontPick;
    var k := FrontPick(condition, old_, e);
    FrontPickBound(condition, old_, e);
    TrueHolds(e);
    forall j | 1 <= j < |new_.conds|
      ensures k == j ==> Holds(new_.conds[j], e)
      ensures Holds(new_.conds[j], e) ==> (k == j <==> !DoubtAt(condition, old_, runs, o, e, j - 1))
    {
      assert SimplifiedTo(FrontQuery(condition, old_.conds, j - 1), Flag(true), runs[j - 1], o, new_.conds[j]);
      FrontQueryMeans(condition, old_, j - 1, e);
    }
  }

  lemma FrontPickBound(condition: Term, old_: Cases, e: Env)
    requires Total(old_)
    ensures FrontPick(condition, old_, e) <= |old_.conds|
        && (FrontPick(condition, old_, e) == 0 <==> Holds(condition, e))
  {
  }

  /** Exactly when pushing a case in front does what it should: if and only if no old case leaks
      anywhere. The new cases are then still disjoint and exhaustive; otherwise they overlap. */
  lemma FrontExactly(condition: Term, front: Cases, old_: Cases, new_: Cases, runs: seq<Enumeration>, o: Oracles)
    requires Total(front) && Total(old_) && Fronted(condition, front, old_, new_, runs, o)
    ensures InFront(condition, front, old_, new_) <==> forall e :: !Leaks(condition, old_, new_, runs, o, e)
    ensures Total(new_) <==> forall e :: !Leaks(condition, old_, new_, runs, o, e)
  {
    hide Eval, Leaks, FrontPick;
    forall e ensures Applies(new_, e) <==> !Leaks(condition, old_, new_, runs, o, e) {
      FrontPicks(condition, front, old_, new_, runs, o, e);
      if k: nat :| Picks(new_.conds, e, k) { assert k == FrontPick(condition, old_, e); }
    }
    if forall e :: !Leaks(condition, old_, new_, runs, o, e) {
      assert Total(new_);
      forall e
        ensures ValueOf(new_, e) == (if Holds(condition, e) then ValueOf(front, e) else ValueOf(old_, e))
        ensures DefinedIn(new_, e) <==> if Holds(condition, e) then DefinedIn(front, e) else DefinedIn(old_, e)
      {
        FrontPicks(condition, front, old_, new_, runs, o, e);
        FrontedValue(condition, front, old_, new_, runs, o, e);
      }
    }
  }

  lemma FrontedValue(condition: Term, front: Cases, old_: Cases, new_: Cases, runs: seq<Enumeration>, o: Oracles,
      e: Env)
    requires Total(front) && Total(old_) && Total(new_) && Fronted(condition, front, old_, new_, runs, o)
    requires Picks(new_.conds, e, FrontPick(condition, old_, e))
    ensures ValueOf(new_, e) == (if Holds(condition, e) then ValueOf(front, e) else ValueOf(old_, e))
    ensures DefinedIn(new_, e) <==> if Holds(condition, e) then DefinedIn(front, e) else DefinedIn(old_, e)
  {
    hide SimplifiedTo;
    var k := FrontPick(condition, old_, e);
    PickIs(new_, e, k);
  }

  /* ---- substitution ---- */

  function ReplaceCases(c: Cases, m: map<Term, Term>, simplify: Rewriter): Cases {
    Cases(ReplaceAll(c.conds, m), SimplifyAll(ReplaceAll(c.exprs, m), simplify),
        SimplifyAll(ReplaceAll(c.defs, m), simplify))
  }

  function SimplifyAll(ts: seq<Term>, simplify: Rewriter): (us: seq<Term>)
    ensures |us| == |ts|
  {
    seq(|ts|, i requires 0 <= i < |ts| => simplify(ts[i]))
  }

  lemma ReplacePlain(t: Term, params: seq<nat>, images: seq<Term>, e: Env)
    requires QuantifierFree(t) && |params| == |images| && Distinct(params)
    ensures Eval(Replace(t, ParamMap(params, images)), e) == Eval(t, Bind(e, params, EvalAll(images, e)))
  {
    hide QuantifierFree, Eval, Replace, Occurs;
    NoCapture(t, ParamMap(params, images));
    EvalParams(t, params, images, e, Bind(e, params, EvalAll(images, e)));
  }

  /** Substituting for the index symbols reads the cases where the symbols have the new values. */
  lemma ReplacedCases(c: Cases, params: seq<nat>, images: seq<Term>, simplify: Rewriter)
    requires Total(c) && PlainCases(c) && Plain(images) && |params| == |images| && Distinct(params)
        && Simplifies(simplify)
    ensures
      var r := ReplaceCases(c, ParamMap(params, images), simplify);
      && Total(r) && PlainCases(r)
      && forall e :: var there := Bind(e, params, EvalAll(images, e));
           ValueOf(r, e) == ValueOf(c, there) && (DefinedIn(r, e) <==> DefinedIn(c, there))
  {
    hide QuantifierFree, Eval, Replace, Occurs;
    var m := ParamMap(params, images);
    var r := ReplaceCases(c, m, simplify);
    forall e ensures Applies(r, e) && Picks(r.conds, e, PickOf(c, Bind(e, params, EvalAll(images, e)))) {
      var there := Bind(e, params, EvalAll(images, e));
      forall i | 0 <= i < |c.conds| ensures Holds(r.conds[i], e) <==> Holds(c.conds[i], there) {
        ReplacePlain(c.conds[i], params, images, e);
      }
      assert Picks(r.conds, e, PickOf(c, there));
    }
    forall e ensures var there := Bind(e, params, EvalAll(images, e));
      ValueOf(r, e) == ValueOf(c, there) && (DefinedIn(r, e) <==> DefinedIn(c, there))
    {
      var there := Bind(e, params, EvalAll(images, e));
      var i := PickOf(c, there);
      PickIs(r, e, i);
      ReplacePlain(c.exprs[i], params, images, e);
      ReplacePlain(c.defs[i], params, images, e);
      Same(simplify, Replace(c.exprs[i], m), e);
      Same(simplify, Replace(c.defs[i], m), e);
    }
    ReplacedPlain(c, params, images, simplify);
  }

  lemma Same(simplify: Rewriter, t: Term, e: Env)
    requires Simplifies(simplify)
    ensures Eval(simplify(t), e) == Eval(t, e)
    ensures QuantifierFree(t) ==> QuantifierFree(simplify(t))
  {
  }

  lemma ReplacedPlain(c: Cases, params: seq<nat>, images: seq<Term>, simplify: Rewriter)
    requires PlainCases(c) && Plain(images) && |params| == |images| && Distinct(params) && Simplifies(simplify)
    ensures PlainCases(ReplaceCases(c, ParamMap(params, images), simplify))
  {
    hide QuantifierFree, Eval, Replace, Simplifies, ParamMap;
    forall i | 0 <= i < |c.conds| ensures QuantifierFree(Replace(c.conds[i], ParamMap(params, images))) {
      PlainAfter(c.conds[i], params, images, simplify);
    }
    forall i | 0 <= i < |c.exprs| ensures QuantifierFree(simplify(Replace(c.exprs[i], ParamMap(params, images)))) {
      PlainAfter(c.exprs[i], params, images, simplify);
    }
    forall i | 0 <= i < |c.defs| ensures QuantifierFree(simplify(Replace(c.defs[i], ParamMap(params, images)))) {
      PlainAfter(c.defs[i], params, images, simplify);
    }
  }

  lemma PlainAfter(t: Term, params: seq<nat>, images: seq<Term>, simplify: Rewriter)
    requires QuantifierFree(t) && Plain(images) && |params| == |images| && Distinct(params) && Simplifies(simplify)
    ensures QuantifierFree(Replace(t, ParamMap(params, images)))
    ensures QuantifierFree(simplify(Replace(t, ParamMap(params, images))))
  {
    hide QuantifierFree, Eval, Replace, Occurs;
    var m := ParamMap(params, images);
    assert forall u | u in m :: QuantifierFree(m[u]);
    ReplaceQuantifierFree(t, m);
  }

  /* ---- conditional expressions ---- */

  class Expression {
    var conditions: seq<Term>
    var expressions: seq<Term>
    var definitions: seq<Term>

    function AsCases(): Cases
      reads this
    {
      Cases(conditions, expressions, definitions)
    }

    constructor FromCases(c: Cases)
      ensures AsCases() == c
    {
      conditions, expressions, definitions := c.conds, c.exprs, c.defs;
    }

    /** operator= */
    method Assign(other: Expression)
      modifies this
      ensures AsCases() == old(other.AsCases())
    {
      conditions, expressions, definitions := other.conditions, other.expressions, other.definitions;
    }

    /** as_expr: one term with the value of the case that applies. */
    method AsExpr(solver: Solver) returns (t: Term)
      requires Sound(solver) && Total(AsCases())
      ensures forall e :: Eval(t, e) == ValueOf(AsCases(), e)
      ensures PlainCases(AsCases()) ==> QuantifierFree(t)
    {
      hide Eval, QuantifierFree, Sound;
      var r := Piecewise2Ite(conditions, expressions, solver);
      SomeCase(AsCases());
      t := r.value;
      forall e ensures Eval(t, e) == ValueOf(AsCases(), e) { YieldsValue(AsCases(), e); }
    }

    /** defined: one condition for the definedness of the case that applies. */
    method Defined(solver: Solver) returns (t: Term)
      requires Sound(solver) && Total(AsCases())
      ensures forall e :: Holds(t, e) <==> DefinedIn(AsCases(), e)
      ensures PlainCases(AsCases()) ==> QuantifierFree(t)
    {
      hide Eval, QuantifierFree, Sound;
      SomeCase(AsCases());
      if definitions == [] { return Flag(true); }
      var r := Piecewise2Ite(conditions, definitions, solver);
      t := r.value;
      forall e ensures Holds(t, e) <==> DefinedIn(AsCases(), e) { YieldsValue(AsCases(), e); }
    }

    /** bin_operator: the cases are the feasible pairs. Wherever a case applies, it alone does, with
        the operation's value, and it is defined where both operands are. Some case always applies if
        and only if the solver answers every pair of cases that have an environment in common; with
        one that never answers, none is left. */
    static method BinOperator(lhs: Expression, rhs: Expression, op: (Term, Term) -> Term, solver: Solver,
        ghost f: (int, int, Env) -> int)
      returns (r: Expression)
      requires Sound(solver) && Total(lhs.AsCases()) && Total(rhs.AsCases()) && Lifts(op, f)
      ensures fresh(r)
      ensures Combines(lhs.AsCases(), rhs.AsCases(), r.AsCases(), f)
      ensures Total(r.AsCases()) <==> forall e :: PairFound(lhs.AsCases(), rhs.AsCases(), e, solver)
      ensures Total(r.AsCases()) <==> OverlapsAnswered(lhs.AsCases(), rhs.AsCases(), solver)
      ensures Decides(solver) ==> Total(r.AsCases())
      ensures (forall q :: solver(q).Unknown?) ==> r.conditions == []
    {
      hide Eval, Sound, Lifts, Total, Decides, PairFound, OverlapsAnswered, Combines;
      ghost var l, right := lhs.AsCases(), rhs.AsCases();
      TotalSizes(l);
      TotalSizes(right);
      var sizes := [|lhs.conditions|, |rhs.conditions|];
      var tuples := CartesianProduct(sizes, 0);
      assert sizes[0..] == sizes;
      var conds: seq<Term>, exprs: seq<Term>, defs: seq<Term> := [], [], [];
      ghost var kept: seq<(nat, nat)> := [];
      var k := 0;
      while k < |tuples|
        invariant k <= |tuples|
        invariant Paired(l, right, op, kept, Cases(conds, exprs, defs))
        invariant forall p | p in kept :: exists j | 0 <= j < k :: tuples[j] == [p.0, p.1]
        invariant forall j | 0 <= j < k :: KeptIfFound(l, right, tuples[j], kept, solver)
        invariant (forall q :: solver(q).Unknown?) ==> conds == []
      {
        var t := tuples[k];
        assert t in tuples && Fits(t, sizes);
        var condition := Conj(lhs.conditions[t[0]], rhs.conditions[t[1]]);
        if solver(condition).Sat? {
          ghost var before := Cases(conds, exprs, defs);
          conds := conds + [condition];
          exprs := exprs + [op(lhs.expressions[t[0]], rhs.expressions[t[1]])];
          defs := defs + [Conj(lhs.definitions[t[0]], rhs.definitions[t[1]])];
          NewPair(l, right, op, kept, before, Cases(conds, exprs, defs), tuples, k);
          kept := kept + [(t[0], t[1])];
        } else {
          NotKept(t, kept, tuples, k);
        }
        k := k + 1;
      }
      r := new Expression.FromCases(Cases(conds, exprs, defs));
      PairsCombine(l, right, op, f, kept, Cases(conds, exprs, defs));
      PairsCover(l, right, op, kept, Cases(conds, exprs, defs), tuples, solver);
      EveryPairAnswered(l, right, solver);
    }

    /** push_front: the new case first, every old case with the earlier ones excluded and simplified.
        The result is the new case in front of the old ones if and only if no old case leaks, and so
        if the solver answered every query. Nothing changes if a simplification fails its assertion,
        which a solver that decides rules out for Boolean conditions. */
    method PushFront(condition: Term, expr: Expression, o: Oracles) returns (ok: bool, ghost runs: seq<Enumeration>)
      requires Trusted(o) && Simplifies(o.simplify)
      requires Total(AsCases()) && Total(expr.AsCases())
      modifies this
      ensures ok ==> Fronted(condition, old(expr.AsCases()), old(AsCases()), AsCases(), runs, o)
      ensures ok ==> (InFront(condition, old(expr.AsCases()), old(AsCases()), AsCases()) <==>
        forall e :: !Leaks(condition, old(AsCases()), AsCases(), runs, o, e))
      ensures ok ==> (Total(AsCases()) <==> forall e :: !Leaks(condition, old(AsCases()), AsCases(), runs, o, e))
      ensures ok && FrontAnswered(condition, old(AsCases()), runs, o) ==>
          InFront(condition, old(expr.AsCases()), old(AsCases()), AsCases())
      ensures ok && Decides(o.solver) ==> InFront(condition, old(expr.AsCases()), old(AsCases()), AsCases())
      ensures !ok ==> AsCases() == old(AsCases()) && FrontFails(condition, AsCases(), runs, o)
      ensures ok && PlainCases(old(AsCases())) && PlainCases(old(expr.AsCases())) && QuantifierFree(condition) ==>
          PlainCases(AsCases())
      ensures ok && (forall q :: o.solver(q).Unknown?) ==>
          forall i | 1 <= i < |conditions| :: conditions[i] == ConjAll([])
      ensures Decides(o.solver) && KeepsBoolean(o.simplify) && Boolean(condition) && AllBoolean(old(conditions)) ==> ok
      ensures ok && KeepsBoolean(o.simplify) && Boolean(condition) ==> AllBoolean(conditions)
    {
      hide Eval, QuantifierFree, Total, Trusted, Simplifies, Decides, Boolean, Remaining, InFront, GivesUp,
           SimplifiedTo, FrontQuery, AtomsOf, Shadowed, Fronted, ValueOf, DefinedIn, Leaks, FrontAnswered, ConjAll,
           KeepsBoolean;
      ghost var before, front := AsCases(), expr.AsCases();
      TotalSizes(before);
      TrustedParts(o);
      var value := expr.AsExpr(o.solver);
      var defined := expr.Defined(o.solver);
      var new_ := Cases([condition], [value], [defined]);
      var acc := condition;
      var i := 0;
      runs := [];
      NothingShadowed(condition, value, defined, before, o);
      while i < |conditions|
        invariant 0 <= i <= |conditions| && AsCases() == before && |runs| == i
        invariant Shadowed(condition, before, new_, runs, o) && |new_.conds| == |new_.exprs| == |new_.defs| == i + 1
        invariant new_.conds[0] == condition && new_.exprs[0] == value && new_.defs[0] == defined
        invariant acc == AccOf(condition, conditions, i)
        invariant Boolean(condition) && AllBoolean(conditions) ==> Boolean(acc)
        invariant KeepsBoolean(o.simplify) && Boolean(condition) ==> AllBoolean(new_.conds)
        invariant Plain(conditions) && QuantifierFree(condition) ==> QuantifierFree(acc) && Plain(new_.conds)
        invariant (forall q :: o.solver(q).Unknown?) ==>
            forall k | 1 <= k < |new_.conds| :: new_.conds[k] == ConjAll([])
      {
        var query := Conj(Negate(acc), conditions[i]);
        assert query == FrontQuery(condition, conditions, i) by { QueryIs(condition, conditions, i); }
        var t;
        ghost var run;
        t, run := Cnf.Simplify(query, Flag(true), o);
        QueryBoolean(acc, conditions[i], o.simplify);
        if t.None? { return false, runs + [run]; }
        QueryPlain(acc, conditions[i]);
        ShadowStep(condition, before, new_, runs, o, run, t.value);
        runs := runs + [run];
        new_ := Cases(new_.conds + [t.value], new_.exprs + [expressions[i]], new_.defs + [definitions[i]]);
        acc := Disj(acc, conditions[i]);
        i := i + 1;
      }
      conditions, expressions, definitions := new_.conds, new_.exprs, new_.defs;
      IsFronted(condition, front, before, AsCases(), runs, o);
      FrontExactly(condition, front, before, AsCases(), runs, o);
      forall e
        ensures FrontAnswered(condition, before, runs, o) ==> !Leaks(condition, before, AsCases(), runs, o, e)
        ensures Decides(o.solver) ==> FrontAnswered(condition, before, runs, o)
      {
        AnsweredNeverLeaks(condition, before, AsCases(), runs, o, e);
      }
      FrontPlain(condition, before, AsCases(), runs, o);
      ok := true;
    }

    /** subs: the index symbols replaced by the values of other expressions; no result for different
        lengths, which fails an assertion. */
    method Subs(src: seq<nat>, dst: seq<Expression>, o: Oracles) returns (r: Option<Expression>)
      requires Sound(o.solver) && Simplifies(o.simplify) && Distinct(src)
      requires Total(AsCases()) && PlainCases(AsCases())
      requires forall i | 0 <= i < |dst| :: Total(dst[i].AsCases()) && PlainCases(dst[i].AsCases())
      ensures r.Some? <==> |src| == |dst|
      ensures r.Some? ==> fresh(r.value) && Total(r.value.AsCases()) && PlainCases(r.value.AsCases())
      ensures r.Some? ==> forall e :: var there := Bind(e, src, ValuesOf(dst, e));
        ValueOf(r.value.AsCases(), e) == ValueOf(AsCases(), there)
            && (DefinedIn(r.value.AsCases(), e) <==> DefinedIn(AsCases(), there))
    {
      hide Eval, QuantifierFree, Total, Sound, Evaluates, Explains, Simplifies, Replace, ValueOf;
      if |src| != |dst| { return None; }
      var images: seq<Term> := [];
      var i := 0;
      while i < |dst|
        invariant 0 <= i <= |dst| && |images| == i && Plain(images)
        invariant forall j, e | 0 <= j < i :: Eval(images[j], e) == ValueOf(dst[j].AsCases(), e)
      {
        var t := dst[i].AsExpr(o.solver);
        images := images + [t];
        i := i + 1;
      }
      var c := ReplaceCases(AsCases(), ParamMap(src, images), o.simplify);
      ReplacedCases(AsCases(), src, images, o.simplify);
      forall e ensures EvalAll(images, e) == ValuesOf(dst, e) { SameValues(images, dst, e); }
      var made := new Expression.FromCases(c);
      r := Some(made);
    }

    static ghost function ValuesOf(dst: seq<Expression>, e: Env): (vs: seq<int>)
      requires forall i | 0 <= i < |dst| :: Total(dst[i].AsCases())
      reads dst
      ensures |vs| == |dst|
    {
      seq(|dst|, i requires 0 <= i < |dst| reads dst requires Total(dst[i].AsCases()) => ValueOf(dst[i].AsCases(), e))
    }

    static lemma SameValues(images: seq<Term>, dst: seq<Expression>, e: Env)
      requires |images| == |dst| && forall i | 0 <= i < |dst| :: Total(dst[i].AsCases())
      requires forall j | 0 <= j < |images| :: Eval(images[j], e) == ValueOf(dst[j].AsCases(), e)
      ensures EvalAll(images, e) == ValuesOf(dst, e)
    {
      hide Eval, Total;
    }
  }

  lemma TotalSizes(c: Cases)
    requires Total(c)
    ensures |c.conds| == |c.exprs| == |c.defs|
  {
  }

  lemma SomeCase(c: Cases)
    requires Total(c)
    ensures c.conds != [] && |c.conds| == |c.exprs| == |c.defs|
  {
    assert Applies(c, Env(map[], (name: nat, vs: seq<int>) => 0));
  }

  /** The pair is kept exactly if the solver finds an environment for both conditions. */
  ghost predicate KeptIfFound(l: Cases, r: Cases, t: seq<nat>, kept: seq<(nat, nat)>, solver: Solver) {
    && |t| == 2 && t[0] < |l.conds| && t[1] < |r.conds|
    && ((t[0], t[1]) in kept <==> solver(Conj(l.conds[t[0]], r.conds[t[1]])).Sat?)
  }

  lemma NotKept(t: seq<nat>, kept: seq<(nat, nat)>, tuples: seq<seq<nat>>, k: nat)
    requires k < |tuples| && t == tuples[k] && |t| == 2
    requires forall p | p in kept :: exists j | 0 <= j < k :: tuples[j] == [p.0, p.1]
    requires forall a, b | 0 <= a < b < |tuples| :: tuples[a] != tuples[b]
    ensures (t[0], t[1]) !in kept
  {
    assert t == [t[0], t[1]];
    assert forall j | 0 <= j < k :: tuples[j] != t;
  }

  /** The solver finds the pair of cases that apply in an environment. */
  ghost predicate PairFound(l: Cases, r: Cases, e: Env, solver: Solver)
    requires Total(l) && Total(r)
  {
    solver(Conj(l.conds[PickOf(l, e)], r.conds[PickOf(r, e)])).Sat?
  }

  /** The solver answers every pair of cases that have an environment in common. */
  ghost predicate OverlapsAnswered(l: Cases, r: Cases, solver: Solver) {
    forall i, j | 0 <= i < |l.conds| && 0 <= j < |r.conds| && Meet(l.conds[i], r.conds[j]) ::
        !solver(Conj(l.conds[i], r.conds[j])).Unknown?
  }

  lemma EveryPairAnswered(l: Cases, r: Cases, solver: Solver)
    requires Sound(solver) && Total(l) && Total(r)
    ensures (forall e :: PairFound(l, r, e, solver)) <==> OverlapsAnswered(l, r, solver)
    ensures Decides(solver) ==> OverlapsAnswered(l, r, solver)
  {
    hide Eval;
    if OverlapsAnswered(l, r, solver) {
      forall e ensures PairFound(l, r, e, solver) {
        var i, j := PickOf(l, e), PickOf(r, e);
        assert Meet(l.conds[i], r.conds[j]) && Holds(Conj(l.conds[i], r.conds[j]), e);
      }
    }
    if forall e :: PairFound(l, r, e, solver) {
      forall i, j | 0 <= i < |l.conds| && 0 <= j < |r.conds| && Meet(l.conds[i], r.conds[j])
        ensures !solver(Conj(l.conds[i], r.conds[j])).Unknown?
      {
        var e :| Holds(l.conds[i], e) && Holds(r.conds[j], e);
        assert PairFound(l, r, e, solver) && i == PickOf(l, e) && j == PickOf(r, e);
      }
    }
  }

  lemma NewPair(l: Cases, r: Cases, op: (Term, Term) -> Term, kept: seq<(nat, nat)>, before: Cases, after: Cases,
                tuples: seq<seq<nat>>, k: nat)
    requires Paired(l, r, op, kept, before) && k < |tuples| && |tuples[k]| == 2
    requires |l.conds| == |l.exprs| == |l.defs| && |r.conds| == |r.exprs| == |r.defs|
    requires tuples[k][0] < |l.conds| && tuples[k][1] < |r.conds|
    requires forall p | p in kept :: exists j | 0 <= j < k :: tuples[j] == [p.0, p.1]
    requires forall a, b | 0 <= a < b < |tuples| :: tuples[a] != tuples[b]
    requires after == Cases(before.conds + [Conj(l.conds[tuples[k][0]], r.conds[tuples[k][1]])],
                            before.exprs + [op(l.exprs[tuples[k][0]], r.exprs[tuples[k][1]])],
                            before.defs + [Conj(l.defs[tuples[k][0]], r.defs[tuples[k][1]])])
    ensures Paired(l, r, op, kept + [(tuples[k][0], tuples[k][1])], after)
    ensures forall p | p in kept + [(tuples[k][0], tuples[k][1])] :: exists j | 0 <= j < k + 1 ::
        tuples[j] == [p.0, p.1]
  {
    hide Conj;
    var p := (tuples[k][0], tuples[k][1]);
    assert tuples[k] == [p.0, p.1];
    forall i | 0 <= i < |kept| ensures kept[i] != p {
      assert kept[i] in kept;
      var j :| 0 <= j < k && tuples[j] == [kept[i].0, kept[i].1];
    }
    forall i | 0 <= i < |kept| ensures PairAt(l, r, op, kept[i], after, i) {
      assert PairAt(l, r, op, kept[i], before, i);
    }
    assert PairAt(l, r, op, p, after, |kept|);
    forall q | q in kept + [p] ensures exists j | 0 <= j < k + 1 :: tuples[j] == [q.0, q.1] {
      if q in kept { var j :| 0 <= j < k && tuples[j] == [q.0, q.1]; }
    }
  }

  /** The kept pairs cover exactly the environments whose pair the solver finds. */
  lemma PairsCover(l: Cases, r: Cases, op: (Term, Term) -> Term, kept: seq<(nat, nat)>, c: Cases,
      tuples: seq<seq<nat>>, solver: Solver)
    requires Total(l) && Total(r) && Paired(l, r, op, kept, c)
    requires forall t :: t in tuples <==> Fits(t, [|l.conds|, |r.conds|])
    requires forall p | p in kept :: exists j | 0 <= j < |tuples| :: tuples[j] == [p.0, p.1]
    requires forall j | 0 <= j < |tuples| :: KeptIfFound(l, r, tuples[j], kept, solver)
    ensures Total(c) <==> forall e :: PairFound(l, r, e, solver)
  {
    hide Eval;
    forall e ensures Applies(c, e) <==> PairFound(l, r, e, solver) {
      var p := (PickOf(l, e), PickOf(r, e));
      var t := [p.0, p.1];
      assert Fits(t, [|l.conds|, |r.conds|]);
      var j :| 0 <= j < |tuples| && tuples[j] == t;
      assert KeptIfFound(l, r, tuples[j], kept, solver);
      if p in kept { PairKept(l, r, op, kept, c, e); }
      if k: nat :| Picks(c.conds, e, k) { PairApplies(l, r, op, kept, c, e, k); }
    }
  }

  lemma QueryIs(condition: Term, conds: seq<Term>, i: nat)
    requires i < |conds|
    ensures FrontQuery(condition, conds, i) == Conj(Negate(AccOf(condition, conds, i)), conds[i])
  {
  }

  /** The simplification of the next condition fails its assertion. */
  ghost predicate FrontFails(condition: Term, old_: Cases, runs: seq<Enumeration>, o: Oracles) {
    && 1 <= |runs| <= |old_.conds|
    && var query := o.simplify(FrontQuery(condition, old_.conds, |runs| - 1));
       GivesUp(query, runs[|runs| - 1], o) && AtomsOf(runs[|runs| - 1].atoms, query)
           && (Decides(o.solver) ==> !Boolean(query))
  }

  lemma NothingShadowed(condition: Term, value: Term, defined: Term, old_: Cases, o: Oracles)
    requires |old_.conds| == |old_.exprs| == |old_.defs|
    ensures Shadowed(condition, old_, Cases([condition], [value], [defined]), [], o)
  {
  }

  lemma IsFronted(condition: Term, front: Cases, old_: Cases, new_: Cases, runs: seq<Enumeration>, o: Oracles)
    requires Total(front) && Total(old_) && Shadowed(condition, old_, new_, runs, o) && |runs| == |old_.conds|
    requires forall e :: Eval(new_.exprs[0], e) == ValueOf(front, e)
    requires forall e :: Holds(new_.defs[0], e) <==> DefinedIn(front, e)
    ensures Fronted(condition, front, old_, new_, runs, o)
    ensures |new_.conds| == |runs| + 1
  {
    hide SimplifiedTo, FrontQuery, Eval;
  }

  /** Where unknown answers do harm: with a solver that refuses every question, pushing a case that never
      applies in front of two exclusive cases leaves them overlapping, and the first one wins. */
  method OverlapInFront(eval: Evaluator, simplify: Rewriter)
      returns (o: Oracles, ghost before: Cases, after: Expression, r: Option<Term>)
    requires Evaluates(eval) && Simplifies(simplify)
    ensures Trusted(o) && o.simplify == simplify
    ensures Total(before) && forall e :: ValueOf(before, e) == if Lookup(e, 0) < 0 then 1 else 2
    ensures fresh(after) && !Total(after.AsCases())
    ensures r.Some? && forall e :: Eval(r.value, e) == 1
  {
    hide Eval, FirstMatch, Fronted, Total, ValueOf, DefinedIn, Simplifies, Evaluates, Shadowed;
    var negative := App(Lt, [Var(0), Num(0)]);
    var solver := (f: Term) => Unknown;
    o := Oracles(solver, eval, (f: Term, ts: seq<Term>) => ts, simplify);
    RefusingIsTrusted(o);
    after := new Expression.FromCases(Cases([negative, Negate(negative)], [Num(1), Num(2)], [Flag(true), Flag(true)]));
    var front := new Expression.FromCases(Cases([Flag(true)], [Num(0)], [Flag(true)]));
    before := after.AsCases();
    BySign();
    ZeroCases();
    var ok;
    ghost var runs;
    ok, runs := after.PushFront(Flag(false), front, o);
    NeverFails(Flag(false), before, runs, o);
    ShadowedShape(Flag(false), front.AsCases(), before, after.AsCases(), runs, o);
    assert after.conditions == [Flag(false), ConjAll([]), ConjAll([])];
    r := Piecewise2Ite(after.conditions, after.expressions, solver);
    forall e ensures Eval(r.value, e) == 1 { SecondWins(after.conditions, after.expressions, e); }
    BothApply(after.AsCases());
  }

  lemma RefusingIsTrusted(o: Oracles)
    requires (forall q :: o.solver(q) == Unknown) && Evaluates(o.eval) && Simplifies(o.simplify)
    ensures Trusted(o) && NeverRefutes(o.solver)
  {
  }

  lemma BySign()
    ensures
      var negative := App(Lt, [Var(0), Num(0)]);
      var c := Cases([negative, Negate(negative)], [Num(1), Num(2)], [Flag(true), Flag(true)]);
      Total(c) && forall e :: ValueOf(c, e) == if Lookup(e, 0) < 0 then 1 else 2
  {
    var negative := App(Lt, [Var(0), Num(0)]);
    var c := Cases([negative, Negate(negative)], [Num(1), Num(2)], [Flag(true), Flag(true)]);
    forall e ensures Picks(c.conds, e, if Lookup(e, 0) < 0 then 0 else 1) && Applies(c, e) {
      EvalApp(Lt, [Var(0), Num(0)], e);
    }
    forall e ensures ValueOf(c, e) == if Lookup(e, 0) < 0 then 1 else 2 {
      PickIs(c, e, if Lookup(e, 0) < 0 then 0 else 1);
    }
  }

  lemma NeverFails(condition: Term, old_: Cases, runs: seq<Enumeration>, o: Oracles)
    requires forall q :: o.solver(q) == Unknown
    ensures !FrontFails(condition, old_, runs, o)
  {
  }

  lemma ShadowedShape(condition: Term, front: Cases, old_: Cases, new_: Cases, runs: seq<Enumeration>, o: Oracles)
    requires Total(front) && Total(old_) && Fronted(condition, front, old_, new_, runs, o)
    ensures |new_.conds| == |new_.exprs| == |new_.defs| == |old_.conds| + 1 && new_.conds[0] == condition
    ensures forall k | 1 <= k < |new_.conds| :: new_.exprs[k] == old_.exprs[k - 1]
  {
    hide SimplifiedTo, FrontQuery, Eval;
  }

  lemma SecondWins(conds: seq<Term>, exprs: seq<Term>, e: Env)
    requires conds == [Flag(false), ConjAll([]), ConjAll([])] && |exprs| == 3 && exprs[1] == Num(1)
    ensures FirstMatch(conds, exprs, e) == 1
  {
    assert !Holds(conds[0], e) && conds[1..][0] == conds[1] && exprs[1..][0] == exprs[1];
  }

  lemma BothApply(c: Cases)
    requires c.conds == [Flag(false), ConjAll([]), ConjAll([])]
    ensures !Total(c)
  {
    var e := Env(map[], (name: nat, vs: seq<int>) => 0);
    assert Holds(c.conds[1], e) && Holds(c.conds[2], e);
    forall i: nat ensures !Picks(c.conds, e, i) { }
    assert !Applies(c, e);
  }

  lemma QueryPlain(acc: Term, cond: Term)
    ensures QuantifierFree(acc) && QuantifierFree(cond) ==>
        QuantifierFree(Conj(Negate(acc), cond)) && QuantifierFree(Disj(acc, cond))
  {
    PairPlain(And, Negate(acc), cond);
    PairPlain(Not, acc, acc);
    PairPlain(Or, acc, cond);
  }

  lemma EqualityBoolean(id: nat, t: Term, condition: Term)
    requires Boolean(condition)
    ensures Boolean(Conj(condition, Equals(Var(id), t)))
  {
    assert IsAtom(Equals(Var(id), t));
    PairBoolean(condition, Equals(Var(id), t));
  }

  lemma QueryBoolean(acc: Term, cond: Term, simplify: Rewriter)
    ensures Boolean(acc) && Boolean(cond) ==> Boolean(Conj(Negate(acc), cond)) && Boolean(Disj(acc, cond))
    ensures KeepsBoolean(simplify) && Boolean(acc) && Boolean(cond) ==> Boolean(simplify(Conj(Negate(acc), cond)))
  {
    PairBoolean(Negate(acc), cond);
    PairBoolean(acc, cond);
  }

  lemma FrontPlain(condition: Term, old_: Cases, new_: Cases, runs: seq<Enumeration>, o: Oracles)
    requires Shadowed(condition, old_, new_, runs, o)
    ensures PlainCases(old_) && QuantifierFree(new_.exprs[0]) && QuantifierFree(new_.defs[0]) && Plain(new_.conds) ==>
        PlainCases(new_)
  {
    hide QuantifierFree, SimplifiedTo, FrontQuery;
  }

  /** A total combination has the operation's value and is defined where both operands are. */
  lemma CombinedValue(l: Cases, r: Cases, c: Cases, f: (int, int, Env) -> int, e: Env)
    requires Total(l) && Total(r) && Total(c) && Combines(l, r, c, f)
    ensures ValueOf(c, e) == f(ValueOf(l, e), ValueOf(r, e), e)
    ensures DefinedIn(c, e) <==> DefinedIn(l, e) && DefinedIn(r, e)
  {
    assert Picks(c.conds, e, PickOf(c, e));
  }

  /* ---- memory objects ---- */

  /** A write: the whole object, or the cell at an index. */
  datatype Write = Whole(value: Cases) | Cell(index: seq<Cases>, value: Cases)

  ghost predicate GoodWrite(w: Write, params: seq<nat>) {
    && Total(w.value)
    && (w.Cell? ==>
        |w.index| == |params| && (forall i | 0 <= i < |w.index| :: Total(w.index[i]) && Independent(w.index[i], params))
                    && Independent(w.value, params))
  }

  /** The value does not depend on the index symbols, which belong to the object alone. */
  ghost predicate Independent(c: Cases, params: seq<nat>)
    requires Total(c)
  {
    Distinct(params) && forall e, at: seq<int> | |at| == |params| ::
      ValueOf(c, Bind(e, params, at)) == ValueOf(c, e) && (DefinedIn(c, Bind(e, params, at)) <==> DefinedIn(c, e))
  }

  ghost predicate GoodLog(log: seq<Write>, params: seq<nat>) { forall i | 0 <= i < |log| :: GoodWrite(log[i], params) }

  /** The write sets the cell at these coordinates. */
  ghost predicate Hits(w: Write, params: seq<nat>, e: Env, at: seq<int>)
    requires GoodWrite(w, params) && |at| == |params|
  {
    w.Whole? || forall i | 0 <= i < |params| :: ValueOf(w.index[i], e) == at[i]
  }

  datatype Content = Content(value: int, defined: bool)

  ghost function ContentOf(c: Cases, params: seq<nat>, e: Env, at: seq<int>): Content
    requires Total(c) && Distinct(params) && |at| == |params|
  {
    Content(ValueOf(c, Bind(e, params, at)), DefinedIn(c, Bind(e, params, at)))
  }

  /** The content of a cell after some writes: what the last write that hits it has put there, or
      the initial content. */
  ghost function Stored(initial: Cases, log: seq<Write>, params: seq<nat>, e: Env, at: seq<int>): Content
    requires Total(initial) && GoodLog(log, params) && Distinct(params) && |at| == |params|
  {
    if log == [] then ContentOf(initial, params, e, at)
    else
      var n := |log| - 1;
      assert GoodWrite(log[n], params);
      if Hits(log[n], params, e, at) then ContentOf(log[n].value, params, e, at)
      else
        assert forall i | 0 <= i < n :: log[..n][i] == log[i];
        Stored(initial, log[..n], params, e, at)
  }

  /** The last write that hits a cell decides its content. */
  lemma {:induction false} LastWriteDecides(initial: Cases, log: seq<Write>, params: seq<nat>, e: Env, at: seq<int>,
      k: nat)
    requires Total(initial) && GoodLog(log, params) && Distinct(params) && |at| == |params|
    requires k < |log| && Hits(log[k], params, e, at)
    requires forall j | k < j < |log| :: !Hits(log[j], params, e, at)
    ensures Stored(initial, log, params, e, at) == ContentOf(log[k].value, params, e, at)
    ensures log[k].Cell? ==>
        Stored(initial, log, params, e, at) == Content(ValueOf(log[k].value, e), DefinedIn(log[k].value, e))
  {
    hide Total, ValueOf, DefinedIn;
    var n := |log| - 1;
    assert GoodWrite(log[k], params);
    if k < n {
      assert forall i | 0 <= i < n :: log[..n][i] == log[i];
      LastWriteDecides(initial, log[..n], params, e, at, k);
    }
  }

  /** A cell that no write hits keeps its initial content. */
  lemma {:induction false} UnwrittenIsInitial(initial: Cases, log: seq<Write>, params: seq<nat>, e: Env, at: seq<int>)
    requires Total(initial) && GoodLog(log, params) && Distinct(params) && |at| == |params|
    requires forall j | 0 <= j < |log| :: !Hits(log[j], params, e, at)
    ensures Stored(initial, log, params, e, at) == ContentOf(initial, params, e, at)
  {
    hide Total;
    if log != [] {
      var n := |log| - 1;
      assert forall i | 0 <= i < n :: log[..n][i] == log[i];
      UnwrittenIsInitial(initial, log[..n], params, e, at);
    }
  }

  class MemoryObject {
    const value: Expression
    const indices: seq<nat>
    ghost const initial: Cases
    ghost var log: seq<Write>

    /** The writes so far make sense, whatever the stored cases are. */
    ghost predicate Framed()
      reads this
    {
      Distinct(indices) && Total(initial) && GoodLog(log, indices)
    }

    /** In every environment the stored cases hold at every index what the writes have put there. */
    ghost predicate Valid()
      reads this, value
    {
      && Framed()
      && Total(value.AsCases()) && PlainCases(value.AsCases())
      && (forall e, at: seq<int> | |at| == |indices| ::
            ContentOf(value.AsCases(), indices, e, at) == Stored(initial, log, indices, e, at))
    }

    constructor (indices: seq<nat>, initial: Cases)
      requires Distinct(indices) && Total(initial) && PlainCases(initial)
      ensures Valid() && fresh(value) && this.indices == indices && this.initial == initial && log == []
    {
      this.indices, this.initial, this.log := indices, initial, [];
      var made := new Expression.FromCases(initial);
      this.value := made;
    }

    /** The default index: zero in every dimension. */
    static method Zeros(n: nat) returns (zeros: seq<Expression>)
      ensures |zeros| == n && fresh(set z | z in zeros)
      ensures forall i | 0 <= i < n :: IsZero(zeros[i].AsCases())
    {
      zeros := [];
      var i := 0;
      while i < n
        invariant i <= n && |zeros| == i && fresh(set z | z in zeros)
        invariant forall k | 0 <= k < i :: zeros[k].AsCases() == Cases([Flag(true)], [Num(0)], [Flag(true)])
      {
        var zero := new Expression.FromCases(Cases([Flag(true)], [Num(0)], [Flag(true)]));
        zeros := zeros + [zero];
        i := i + 1;
      }
      ZeroCases();
    }

    /** write: the whole object takes a new value, and is right again whatever it was before. */
    method WriteWhole(v: Expression)
      requires Framed() && Total(v.AsCases()) && PlainCases(v.AsCases())
      modifies this`log, value
      ensures Valid() && log == old(log) + [Whole(old(v.AsCases()))] && value.AsCases() == old(v.AsCases())
    {
      hide Total, ValueOf, DefinedIn, PlainCases;
      ghost var before, w := log, Whole(v.AsCases());
      value.Assign(v);
      log := log + [w];
      LogGrows(before, w, indices);
      forall e, at: seq<int> | |at| == |indices|
          ensures ContentOf(value.AsCases(), indices, e, at) == Stored(initial, log, indices, e, at) {
        StoredSnoc(initial, before, w, indices, e, at);
      }
    }

    /** The index as given, or zeros if none is given for an array. */
    method Completed(index: seq<Expression>) returns (full: seq<Expression>)
      requires GoodIndex(index)
      ensures GoodIndex(full)
      ensures index != [] || indices == [] ==> full == index
      ensures index == [] && indices != [] ==>
        |full| == |indices| && fresh(set x | x in full) && forall i | 0 <= i < |full| :: IsZero(full[i].AsCases())
    {
      full := index;
      if |index| == 0 && |indices| > 0 {
        full := Zeros(|indices|);
      }
    }

    ghost predicate GoodIndex(index: seq<Expression>)
      reads index
    {
      forall i | 0 <= i < |index| :: Total(index[i].AsCases()) && PlainCases(index[i].AsCases())
    }

    /** The condition under which the index symbols are the given index. */
    method IndexCondition(index: seq<Expression>, solver: Solver) returns (condition: Term)
      requires Sound(solver) && GoodIndex(index) && |index| == |indices|
      ensures forall e :: Holds(condition, e) <==>
          forall i | 0 <= i < |indices| :: Lookup(e, indices[i]) == ValueOf(index[i].AsCases(), e)
      ensures QuantifierFree(condition) && Boolean(condition)
    {
      hide Eval, QuantifierFree, Boolean, Total, PlainCases, ValueOf;
      condition := Flag(true);
      var i := 0;
      TruePlain();
      while i < |indices|
        invariant 0 <= i <= |indices| && QuantifierFree(condition) && Boolean(condition)
        invariant forall e :: Holds(condition, e) <==>
            forall k | 0 <= k < i :: Lookup(e, indices[k]) == ValueOf(index[k].AsCases(), e)
      {
        var t := index[i].AsExpr(solver);
        EqualityPlain(indices[i], t, condition);
        EqualityBoolean(indices[i], t, condition);
        ghost var before := condition;
        condition := Conj(condition, Equals(Var(indices[i]), t));
        forall e
          ensures Holds(condition, e) <==>
              forall k | 0 <= k < i + 1 :: Lookup(e, indices[k]) == ValueOf(index[k].AsCases(), e)
        {
          VarMeans(indices[i], e);
          assert Holds(condition, e) <==> Holds(before, e) && Lookup(e, indices[i]) == ValueOf(index[i].AsCases(), e);
        }
        i := i + 1;
      }
    }

    static ghost function AllCases(index: seq<Expression>): (cs: seq<Cases>)
      reads index
      ensures |cs| == |index| && forall i | 0 <= i < |index| :: cs[i] == index[i].AsCases()
    {
      seq(|index|, i requires 0 <= i < |index| reads index => index[i].AsCases())
    }

    /** write at an index: afterwards the stored cases are right again if and only if no old case leaks,
        and so if the solver answered every query. Nothing is written if the number of indices is wrong
        or a simplification fails; both fail an assertion. With a solver that decides and Boolean
        conditions in the stored cases, which stay so, only a wrong number of indices does. */
    method Write(index: seq<Expression>, v: Expression, o: Oracles)
      returns (ok: bool, ghost written: Write, ghost condition: Term, ghost runs: seq<Enumeration>)
      requires Valid() && Trusted(o) && Simplifies(o.simplify)
      requires GoodIndex(index) && Total(v.AsCases()) && PlainCases(v.AsCases()) && Independent(v.AsCases(), indices)
      requires forall i | 0 <= i < |index| :: Independent(index[i].AsCases(), indices)
      modifies this`log, value
      ensures Framed()
      ensures ok ==> (|index| == |indices| || index == []) && log == old(log) + [written]
      ensures |index| == |indices| || index == [] ==>
        && GoodWrite(written, indices) && written.Cell? && written.value == old(v.AsCases())
        && (if index != [] || indices == [] then written.index == old(AllCases(index))
            else forall i | 0 <= i < |written.index| :: IsZero(written.index[i]))
        && forall e :: Holds(condition, e) <==>
             forall i | 0 <= i < |indices| :: Lookup(e, indices[i]) == ValueOf(written.index[i], e)
      ensures ok ==> Fronted(condition, written.value, old(value.AsCases()), value.AsCases(), runs, o)
      ensures ok ==> (Valid() <==> forall e :: !Leaks(condition, old(value.AsCases()), value.AsCases(), runs, o, e))
      ensures ok && FrontAnswered(condition, old(value.AsCases()), runs, o) ==> Valid()
      ensures Decides(o.solver) ==> Valid()
      ensures Decides(o.solver) && KeepsBoolean(o.simplify) && AllBoolean(old(value.conditions)) ==>
        (ok <==> |index| == |indices| || index == [])
      ensures ok && KeepsBoolean(o.simplify) ==> AllBoolean(value.conditions)
      ensures !ok ==> Valid() && log == old(log) && value.AsCases() == old(value.AsCases())
      ensures !ok && (|index| == |indices| || index == []) ==> FrontFails(condition, value.AsCases(), runs, o)
    {
      hide Total, ValueOf, DefinedIn, PlainCases, Trusted, Simplifies, InFront, Decides, Independent, Eval,
          QuantifierFree, Fronted, Leaks, FrontFails, FrontAnswered, Boolean, KeepsBoolean;
      written, condition, runs := Whole(initial), Flag(true), [];
      var full := Completed(index);
      if |full| != |indices| { return false, written, condition, runs; }
      SoundPart(o);
      IndexIndependent(full, indices, index);
      var here := IndexCondition(full, o.solver);
      condition := here;
      ghost var before, w, stored := log, Cell(AllCases(full), v.AsCases()), value.AsCases();
      CellIsGood(w, indices);
      written := w;
      ok, runs := value.PushFront(here, v, o);
      if !ok { return; }
      log := log + [w];
      LogGrows(before, w, indices);
      if InFront(condition, w.value, stored, value.AsCases()) {
        FrontTotal(condition, w.value, stored, value.AsCases());
        forall e, at: seq<int> | |at| == |indices|
            ensures ContentOf(value.AsCases(), indices, e, at) == Stored(initial, log, indices, e, at) {
          WrittenContent(condition, w, stored, value.AsCases(), indices, e, at);
          StoredSnoc(initial, before, w, indices, e, at);
        }
      }
    }

    /** Every index expression is defined. */
    static ghost predicate IndexDefined(index: seq<Expression>, e: Env)
      requires forall i | 0 <= i < |index| :: Total(index[i].AsCases())
      reads index
    {
      forall i | 0 <= i < |index| :: DefinedIn(index[i].AsCases(), e)
    }

    /** read: wherever the index has some values, the content of that cell: what the last write to it
        has put there, else the initial content. Whether the index is defined is not recorded: the
        result is defined where cell and index are, everywhere, if and only if no undefined index
        reads a defined cell. */
    method Read(index: seq<Expression>, o: Oracles) returns (r: Option<Expression>, ghost full: seq<Expression>)
      requires Valid() && Sound(o.solver) && Simplifies(o.simplify) && GoodIndex(index)
      ensures r.Some? <==> |index| == |indices| || index == []
      ensures index != [] || indices == [] ==> full == index
      ensures index == [] && indices != [] ==>
        GoodIndex(full) && |full| == |indices| && forall i | 0 <= i < |full| :: IsZero(full[i].AsCases())
      ensures r.Some? ==> |full| == |indices| && GoodIndex(full) && Total(r.value.AsCases())
      ensures r.Some? ==> forall e ::
        ContentHere(r.value.AsCases(), e) == Stored(initial, log, indices, e, Expression.ValuesOf(full, e))
      ensures r.Some? ==>
        ((forall e :: DefinedIn(r.value.AsCases(), e) <==>
            IndexDefined(full, e) && Stored(initial, log, indices, e, Expression.ValuesOf(full, e)).defined) <==>
         (forall e | !IndexDefined(full, e) :: !Stored(initial, log, indices, e, Expression.ValuesOf(full, e)).defined))
    {
      hide Total, ValueOf, DefinedIn, PlainCases, Trusted;
      var used := Completed(index);
      full := used;
      r := value.Subs(indices, used, o);
    }
  }

  /** The failing input: the whole object holds 7, the index is 0 but never defined, and what is read
      there is 7 and always defined. */
  method UndefinedIndexRead(o: Oracles) returns (object_: MemoryObject, index: Expression, r: Expression)
    requires Sound(o.solver) && Simplifies(o.simplify)
    ensures fresh(object_) && object_.Valid() && fresh(index) && Total(index.AsCases())
    ensures forall e :: !DefinedIn(index.AsCases(), e)
    ensures Total(r.AsCases()) && forall e :: ContentHere(r.AsCases(), e) == Content(7, true)
  {
    hide Total, ValueOf, DefinedIn, Sound, Simplifies, PlainCases;
    var seven, nowhere := Cases([Flag(true)], [Num(7)], [Flag(true)]), Cases([Flag(true)], [Num(0)], [Flag(false)]);
    OneCaseMeans(7, true);
    OneCaseMeans(0, false);
    object_ := new MemoryObject([0], seven);
    index := new Expression.FromCases(nowhere);
    assert [index][0] == index;
    var read;
    ghost var full;
    read, full := object_.Read([index], o);
    r := read.value;
  }

  lemma OneCaseMeans(value: int, defined: bool)
    ensures
      var c := Cases([Flag(true)], [Num(value)], [Flag(defined)]);
      && Total(c) && PlainCases(c)
      && forall e :: ValueOf(c, e) == value && (DefinedIn(c, e) <==> defined)
  {
    var c := Cases([Flag(true)], [Num(value)], [Flag(defined)]);
    forall e ensures Applies(c, e) { assert Picks(c.conds, e, 0); }
    forall e ensures ValueOf(c, e) == value && (DefinedIn(c, e) <==> defined) { PickIs(c, e, PickOf(c, e)); }
  }

  ghost function ContentHere(c: Cases, e: Env): Content
    requires Total(c)
  {
    Content(ValueOf(c, e), DefinedIn(c, e))
  }

  lemma SoundPart(o: Oracles)
    requires Trusted(o)
    ensures Sound(o.solver)
  {
  }

  lemma TruePlain()
    ensures QuantifierFree(Flag(true)) && Boolean(Flag(true))
    ensures forall e :: Holds(Flag(true), e)
  {
  }

  lemma EqualityPlain(id: nat, t: Term, condition: Term)
    requires QuantifierFree(t) && QuantifierFree(condition)
    ensures QuantifierFree(Conj(condition, Equals(Var(id), t)))
  {
    PairPlain(Eq, Var(id), t);
    PairPlain(And, condition, Equals(Var(id), t));
  }

  lemma IndexIndependent(full: seq<Expression>, params: seq<nat>, index: seq<Expression>)
    requires Distinct(params)
    requires forall i | 0 <= i < |full| :: Total(full[i].AsCases())
    requires forall i | 0 <= i < |index| :: Total(index[i].AsCases()) && Independent(index[i].AsCases(), params)
    requires full == index || forall i | 0 <= i < |full| :: IsZero(full[i].AsCases())
    ensures forall i | 0 <= i < |full| :: Independent(full[i].AsCases(), params)
  {
    hide Total, ValueOf, DefinedIn;
  }

  lemma CellIsGood(w: Write, params: seq<nat>)
    requires w.Cell? && Total(w.value) && Independent(w.value, params) && |w.index| == |params|
    requires forall i | 0 <= i < |w.index| :: Total(w.index[i]) && Independent(w.index[i], params)
    ensures GoodWrite(w, params)
  {
  }

  lemma FrontTotal(condition: Term, front: Cases, old_: Cases, new_: Cases)
    requires Total(front) && Total(old_) && InFront(condition, front, old_, new_)
    ensures Total(new_)
  {
  }

  /** Reading the new cases at some coordinates: the written value if the write hits them. */
  lemma WrittenContent(condition: Term, w: Write, old_: Cases, new_: Cases, params: seq<nat>, e: Env, at: seq<int>)
    requires GoodWrite(w, params) && w.Cell? && Total(old_) && InFront(condition, w.value, old_, new_)
    requires Distinct(params) && |at| == |params|
    requires forall e :: Holds(condition, e) <==>
        forall i | 0 <= i < |params| :: Lookup(e, params[i]) == ValueOf(w.index[i], e)
    ensures Total(new_)
    ensures ContentOf(new_, params, e, at) == if Hits(w, params, e, at) then ContentOf(w.value, params, e, at)
        else ContentOf(old_, params, e, at)
  {
    hide Total, ValueOf, DefinedIn, Eval;
    FrontTotal(condition, w.value, old_, new_);
    var there := Bind(e, params, at);
    forall i | 0 <= i < |params| ensures ValueOf(w.index[i], there) == ValueOf(w.index[i], e) {
      assert Independent(w.index[i], params);
    }
    assert Holds(condition, there) <==> Hits(w, params, e, at);
  }

  ghost predicate IsZero(c: Cases) { Total(c) && PlainCases(c) && forall e :: ValueOf(c, e) == 0 && DefinedIn(c, e) }

  lemma ZeroCases()
    ensures IsZero(Cases([Flag(true)], [Num(0)], [Flag(true)]))
  {
    OneCaseMeans(0, true);
  }

  lemma LogGrows(log: seq<Write>, w: Write, params: seq<nat>)
    requires GoodLog(log, params) && GoodWrite(w, params)
    ensures GoodLog(log + [w], params)
  {
  }

  /** A cell just written is defined where the value is, whether or not the index is: it is so where both
      are if and only if no undefined index writes a defined value. */
  lemma WriteDefinedness(initial: Cases, log: seq<Write>, w: Write, params: seq<nat>, e: Env, at: seq<int>)
    requires Total(initial) && GoodLog(log, params) && GoodWrite(w, params) && Distinct(params) && |at| == |params|
    requires w.Cell? && Hits(w, params, e, at)
    ensures GoodLog(log + [w], params)
    ensures
      var indexDefined := forall i | 0 <= i < |w.index| :: DefinedIn(w.index[i], e);
      (Stored(initial, log + [w], params, e, at).defined <==> DefinedIn(w.value, e) && indexDefined) <==>
      (indexDefined || !DefinedIn(w.value, e))
  {
    StoredSnoc(initial, log, w, params, e, at);
    hide Total, ValueOf, DefinedIn, Stored, Hits, GoodLog, Distinct;
    assert Independent(w.value, params);
    assert DefinedIn(w.value, Bind(e, params, at)) <==> DefinedIn(w.value, e);
  }

  lemma StoredSnoc(initial: Cases, log: seq<Write>, w: Write, params: seq<nat>, e: Env, at: seq<int>)
    requires Total(initial) && GoodLog(log, params) && GoodWrite(w, params) && Distinct(params) && |at| == |params|
    ensures GoodLog(log + [w], params)
    ensures Stored(initial, log + [w], params, e, at) ==
      if Hits(w, params, e, at) then ContentOf(w.value, params, e, at) else Stored(initial, log, params, e, at)
  {
    hide Total, ValueOf, DefinedIn;
    LogGrows(log, w, params);
    assert (log + [w])[..|log|] == log;
  }
}
