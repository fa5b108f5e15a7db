/** Restricting a function given by cases to a domain, one case after another. */
module DomainRestriction {
  import opened Terms
  import opened Piecewise
  import opened Cnf
  import opened Wrappers
  import opened Selections

  ghost predicate AllSimplified(conds: seq<Term>, domain: Term, runs: seq<Enumeration>, o: Oracles, simple: seq<Term>) {
    |simple| <= |conds| && |simple| <= |runs|
        && forall i | 0 <= i < |simple| :: SimplifiedTo(conds[i], domain, runs[i], o, simple[i])
  }

  /** The solver finds a point of the domain where the condition holds. */
  predicate Meets(domain: Term, condition: Term, solver: Solver) { solver(Conj(domain, condition)).Sat? }

  /** The positions of the conditions that meet the domain, in order. */
  ghost function KeptOf(simple: seq<Term>, domain: Term, solver: Solver): (kept: seq<nat>)
    ensures AllBelow(kept, |simple|) && forall k, l | 0 <= k < l < |kept| :: kept[k] < kept[l]
  {
    if simple == [] then [] else
      var n := |simple| - 1;
      var before := KeptOf(simple[..n], domain, solver);
      if Meets(domain, simple[n], solver) then before + [n] else before
  }

  lemma {:induction false} KeptMeets(simple: seq<Term>, domain: Term, solver: Solver, i: nat)
    ensures i in KeptOf(simple, domain, solver) <==> i < |simple| && Meets(domain, simple[i], solver)
  {
    hide Meets;
    if simple != [] { KeptMeets(simple[..|simple| - 1], domain, solver, i); }
  }

  /** The restriction treats this case wrongly at a point: it keeps a condition that an unanswered
      query made too weak, or drops a condition because the solver gave no answer about it. */
  ghost predicate WrongCase(cond: Term, simple: Term, run: Enumeration, domain: Term, o: Oracles, e: Env) {
    if Meets(domain, simple, o.solver) then Holds(simple, e) && Doubtful(o.solver, Queries(cond, domain, run, o), e)
    else o.solver(Conj(domain, simple)).Unknown? && Holds(cond, e)
  }

  ghost predicate WrongAt(conds: seq<Term>, simple: seq<Term>, runs: seq<Enumeration>, domain: Term, o: Oracles, e: Env)
    requires |conds| == |simple| == |runs|
  {
    exists i | 0 <= i < |conds| :: WrongCase(conds[i], simple[i], runs[i], domain, o, e)
  }

  /** Case i is kept, and of the kept cases it alone applies. */
  ghost predicate KeptAlone(simple: seq<Term>, domain: Term, solver: Solver, e: Env, i: nat) {
    && i < |simple| && Meets(domain, simple[i], solver) && Holds(simple[i], e)
    && forall j | 0 <= j < |simple| && j != i && Meets(domain, simple[j], solver) :: !Holds(simple[j], e)
  }

  /** On the domain, the case that applies is the only kept case that applies, if and only if no case
      is treated wrongly there. */
  lemma RestrictionExactly(conds: seq<Term>, simple: seq<Term>, runs: seq<Enumeration>, domain: Term, o: Oracles,
      e: Env, i: nat)
    requires Sound(o.solver) && |conds| == |simple| == |runs| && AllSimplified(conds, domain, runs, o, simple)
    requires Holds(domain, e) && Picks(conds, e, i)
    ensures KeptAlone(simple, domain, o.solver, e, i) <==> !WrongAt(conds, simple, runs, domain, o, e)
  {
    hide Eval, Doubtful, Queries, Ends, AtomsOf;
    assert SimplifiedTo(conds[i], domain, runs[i], o, simple[i]);
    assert Holds(simple[i], e) && Holds(Conj(domain, simple[i]), e);
    forall j | 0 <= j < |conds|
      ensures WrongCase(conds[j], simple[j], runs[j], domain, o, e) <==>
        if j == i then !Meets(domain, simple[j], o.solver)
            else Meets(domain, simple[j], o.solver) && Holds(simple[j], e)
    {
      assert SimplifiedTo(conds[j], domain, runs[j], o, simple[j]);
    }
  }

  /** The solver answered every query that the restriction rests on. */
  ghost predicate AllAnswered(conds: seq<Term>, simple: seq<Term>, runs: seq<Enumeration>, domain: Term, o: Oracles)
    requires |conds| == |simple| == |runs|
  {
    forall i | 0 <= i < |conds| ::
      Answered(o.solver, Queries(conds[i], domain, runs[i], o)) && !o.solver(Conj(domain, simple[i])).Unknown?
  }

  lemma AnsweredIsRight(conds: seq<Term>, simple: seq<Term>, runs: seq<Enumeration>, domain: Term, o: Oracles, e: Env)
    requires |conds| == |simple| == |runs|
    ensures AllAnswered(conds, simple, runs, domain, o) ==> !WrongAt(conds, simple, runs, domain, o, e)
    ensures Decides(o.solver) ==> AllAnswered(conds, simple, runs, domain, o)
  {
    hide Eval, Doubtful, Queries, Answered;
    forall i | 0 <= i < |conds|
      ensures Answered(o.solver, Queries(conds[i], domain, runs[i], o)) ==>
          !Doubtful(o.solver, Queries(conds[i], domain, runs[i], o), e)
      ensures Decides(o.solver) ==> Answered(o.solver, Queries(conds[i], domain, runs[i], o))
    {
      if Answered(o.solver, Queries(conds[i], domain, runs[i], o)) {
        AnsweredLeavesNoDoubt(o.solver, Queries(conds[i], domain, runs[i], o), e);
      }
      if Decides(o.solver) { DecidesAnswers(o.solver, Queries(conds[i], domain, runs[i], o)); }
    }
  }

  /** The cases kept so far. */
  ghost predicate Filtered(simple: seq<Term>, exprs: seq<Term>, domain: Term, solver: Solver, feasible: seq<Term>,
      values: seq<Term>) {
    var kept := KeptOf(simple, domain, solver);
    |simple| <= |exprs| && AllBelow(kept, |exprs|) && feasible == Picked(simple, kept) && values == Picked(exprs, kept)
  }

  lemma FilterStep(simple: seq<Term>, exprs: seq<Term>, domain: Term, solver: Solver, feasible: seq<Term>,
      values: seq<Term>, t: Term)
    requires Filtered(simple, exprs, domain, solver, feasible, values) && |simple| < |exprs|
    ensures var keep := Meets(domain, t, solver);
      Filtered(simple + [t], exprs, domain, solver, if keep then feasible + [t]
          else feasible, if keep then values + [exprs[|simple|]] else values)
  {
    hide Meets;
    assert (simple + [t])[..|simple|] == simple;
    var before, after := KeptOf(simple, domain, solver), KeptOf(simple + [t], domain, solver);
    assert Picked(simple + [t], before) == Picked(simple, before);
    if Meets(domain, t, solver) {
      assert after == before + [|simple|];
      assert Picked(simple + [t], after) == Picked(simple, before) + [t];
      assert Picked(exprs, after) == Picked(exprs, before) + [exprs[|simple|]];
    }
  }

  lemma SimplifiedStep(conds: seq<Term>, domain: Term, runs: seq<Enumeration>, o: Oracles, simple: seq<Term>,
      run: Enumeration, t: Term)
    requires AllSimplified(conds, domain, runs, o, simple) && |runs| == |simple| < |conds|
    requires SimplifiedTo(conds[|simple|], domain, run, o, t)
    ensures AllSimplified(conds, domain, runs + [run], o, simple + [t])
  {
    hide SimplifiedTo;
  }

  lemma SimplifiedPart(conds: seq<Term>, domain: Term, runs: seq<Enumeration>, o: Oracles, simple: seq<Term>,
      run: Enumeration)
    requires AllSimplified(conds, domain, runs, o, simple) && |runs| == |simple|
    ensures AllSimplified(conds, domain, runs + [run], o, simple)
  {
    hide SimplifiedTo;
  }

  /** The solver has no answer to the first query about the formula, so nothing of it is kept. */
  predicate Refused(fml: Term, o: Oracles) { o.solver(Remaining(o.simplify(fml), [])).Unknown? }

  /** The enumeration of the condition's clauses fails its assertion. */
  ghost predicate FailsOn(cond: Term, run: Enumeration, o: Oracles) {
    AtomsOf(run.atoms, o.simplify(cond)) && GivesUp(o.simplify(cond), run, o)
  }

  /** The solver decides, and no simplification can fail on these conditions. */
  ghost predicate Manageable(conds: seq<Term>, o: Oracles) {
    Decides(o.solver) && KeepsBoolean(o.simplify) && AllBoolean(conds)
  }

  /** The loop of restrict_to_domain over the cases. Every condition is simplified under the domain and
      kept if the solver finds it there. No result exactly if a simplification fails its assertion or
      nothing is kept. With a solver that decides and Boolean conditions there is one exactly if some
      condition meets the domain, and it has the value of the case that applies on all of the domain. */
  method RestrictCases(conds: seq<Term>, exprs: seq<Term>, domain: Term, o: Oracles)
    returns (r: Option<Term>, ghost simple: seq<Term>, ghost runs: seq<Enumeration>)
    requires Trusted(o) && |conds| == |exprs|
    ensures AllSimplified(conds, domain, runs, o, simple) && |simple| <= |conds|
    ensures |simple| == |conds| ==>
        |runs| == |conds| && (r.Some? <==> exists i | 0 <= i < |conds| :: Meets(domain, simple[i], o.solver))
    ensures |simple| < |conds| ==>
        r.None? && |runs| == |simple| + 1 && FailsOn(conds[|simple|], runs[|simple|], o)
    ensures |simple| < |conds| && Decides(o.solver) ==> !Boolean(o.simplify(conds[|simple|]))
    ensures |simple| == |conds| ==> forall e, i: nat | Holds(domain, e) && Picks(conds, e, i) ::
      KeptAlone(simple, domain, o.solver, e, i) <==> !WrongAt(conds, simple, runs, domain, o, e)
    ensures r.Some? ==> forall e, i: nat | i < |conds| && KeptAlone(simple, domain, o.solver, e, i) ::
        Eval(r.value, e) == Eval(exprs[i], e)
    ensures r.Some? && NeverRefutes(o.solver) ==>
      var kept := KeptOf(simple, domain, o.solver);
      kept != [] && AllBelow(kept, |exprs|)
          && forall e :: Eval(r.value, e) == FirstMatch(Picked(simple, kept), Picked(exprs, kept), e)
    ensures forall i | 0 <= i < |runs| && Refused(conds[i], o) :: i < |simple| && simple[i] == ConjAll([])
    ensures Manageable(conds, o) ==>
      && (r.Some? <==> exists i | 0 <= i < |conds| :: Meet(domain, conds[i]))
      && forall e, i: nat | Holds(domain, e) && Picks(conds, e, i) :: r.Some? && Eval(r.value, e) == Eval(exprs[i], e)
  {
    hide Eval, Trusted, Decides, Boolean, Ends, GivesUp, AtomsOf, Simplified, Meets, NeverRefutes, KeptAlone, Picks,
         AllSimplified, Filtered, ConjAll, WrongAt, Manageable, Meet;
    TrustedParts(o);
    simple, runs := [], [];
    var feasible, values: seq<Term> := [], [];
    var i := 0;
    NothingDone(conds, exprs, domain, o);
    while i < |conds|
      invariant i <= |conds| && |simple| == |runs| == i
      invariant AllSimplified(conds, domain, runs, o, simple)
      invariant Filtered(simple, exprs, domain, o.solver, feasible, values)
      invariant forall k | 0 <= k < i && Refused(conds[k], o) :: simple[k] == ConjAll([])
    {
      var condition;
      ghost var run;
      condition, run := Simplify(conds[i], domain, o);
      if condition.None? {
        SimplifiedPart(conds, domain, runs, o, simple, run);
        ManageableSimplifies(conds, o, i);
        return None, simple, runs + [run];
      }
      SimplifiedStep(conds, domain, runs, o, simple, run, condition.value);
      FilterStep(simple, exprs, domain, o.solver, feasible, values, condition.value);
      simple, runs := simple + [condition.value], runs + [run];
      if Meets(domain, condition.value, o.solver) {
        feasible, values := feasible + [condition.value], values + [exprs[i]];
      }
      i := i + 1;
    }
    r := Piecewise2Ite(feasible, values, o.solver);
    forall e, i: nat | Holds(domain, e) && Picks(conds, e, i)
      ensures KeptAlone(simple, domain, o.solver, e, i) <==> !WrongAt(conds, simple, runs, domain, o, e)
    {
      RestrictionExactly(conds, simple, runs, domain, o, e, i);
    }
    FilteredMeans(simple, exprs, domain, o.solver, feasible, values);
    if Manageable(conds, o) { AllRight(conds, simple, runs, domain, o); }
  }

  /** With everything answered, a condition is kept exactly if it meets the domain, and then the case
      that applies is kept alone. */
  lemma AllRight(conds: seq<Term>, simple: seq<Term>, runs: seq<Enumeration>, domain: Term, o: Oracles)
    requires Sound(o.solver) && Manageable(conds, o)
    requires |conds| == |simple| == |runs| && AllSimplified(conds, domain, runs, o, simple)
    ensures forall i | 0 <= i < |conds| :: Meets(domain, simple[i], o.solver) <==> Meet(domain, conds[i])
    ensures forall e, i: nat | Holds(domain, e) && Picks(conds, e, i) ::
        KeptAlone(simple, domain, o.solver, e, i) && i < |conds| && Meets(domain, simple[i], o.solver)
  {
    hide Eval, AllAnswered, KeptAlone, WrongAt, Picks;
    forall i | 0 <= i < |conds| ensures Meets(domain, simple[i], o.solver) <==> Meet(domain, conds[i]) {
      assert SimplifiedTo(conds[i], domain, runs[i], o, simple[i]);
      KeptIfMeets(conds[i], simple[i], runs[i], domain, o);
    }
    forall e, i: nat | Holds(domain, e) && Picks(conds, e, i)
        ensures KeptAlone(simple, domain, o.solver, e, i) && i < |conds| && Meets(domain, simple[i], o.solver) {
      AnsweredIsRight(conds, simple, runs, domain, o, e);
      RestrictionExactly(conds, simple, runs, domain, o, e, i);
      AloneMeets(simple, domain, o.solver, e, i);
    }
  }

  lemma ManageableSimplifies(conds: seq<Term>, o: Oracles, i: nat)
    requires i < |conds|
    ensures Manageable(conds, o) ==> Decides(o.solver) && Boolean(o.simplify(conds[i]))
  {
  }

  lemma KeptIfMeets(cond: Term, simple: Term, run: Enumeration, domain: Term, o: Oracles)
    requires Sound(o.solver) && Decides(o.solver) && SimplifiedTo(cond, domain, run, o, simple)
    ensures Meets(domain, simple, o.solver) <==> Meet(domain, cond)
  {
    hide Eval, Ends, AtomsOf, Doubtful, Queries;
    SimplifiedExactly(cond, domain, run, o, simple);
    if Meets(domain, simple, o.solver) {
      var m := o.solver(Conj(domain, simple)).model;
      assert Holds(Conj(domain, simple), m);
    }
    if e :| Holds(domain, e) && Holds(cond, e) { assert Holds(Conj(domain, simple), e); }
  }

  lemma NothingDone(conds: seq<Term>, exprs: seq<Term>, domain: Term, o: Oracles)
    ensures AllSimplified(conds, domain, [], o, []) && Filtered([], exprs, domain, o.solver, [], [])
  {
  }

  lemma FilteredMeans(simple: seq<Term>, exprs: seq<Term>, domain: Term, solver: Solver, feasible: seq<Term>,
      values: seq<Term>)
    requires Filtered(simple, exprs, domain, solver, feasible, values) && |exprs| == |simple|
    ensures |feasible| == |values|
        && (feasible != [] <==> exists i | 0 <= i < |simple| :: Meets(domain, simple[i], solver))
    ensures forall e, i: nat | i < |simple| && KeptAlone(simple, domain, solver, e, i) ::
        Yields(feasible, values, e, Eval(exprs[i], e))
    ensures var kept := KeptOf(simple, domain, solver);
      AllBelow(kept, |exprs|) && |kept| == |feasible| && feasible == Picked(simple, kept)
          && values == Picked(exprs, kept)
  {
    hide Eval, Meets, KeptAlone, Yields;
    var kept := KeptOf(simple, domain, solver);
    forall i: nat ensures i in kept <==> i < |simple| && Meets(domain, simple[i], solver) {
      KeptMeets(simple, domain, solver, i);
    }
    if kept != [] { assert kept[0] in kept; }
    forall e, i: nat | i < |simple| && KeptAlone(simple, domain, solver, e, i)
        ensures Yields(feasible, values, e, Eval(exprs[i], e)) {
      AlonePicks(simple, exprs, domain, solver, e, i);
    }
  }

  lemma AlonePicks(simple: seq<Term>, exprs: seq<Term>, domain: Term, solver: Solver, e: Env, i: nat)
    requires |exprs| == |simple| && KeptAlone(simple, domain, solver, e, i)
    ensures var kept := KeptOf(simple, domain, solver);
        AllBelow(kept, |exprs|) && Yields(Picked(simple, kept), Picked(exprs, kept), e, Eval(exprs[i], e))
  {
    hide Eval, Meets;
    var kept := KeptOf(simple, domain, solver);
    KeptMeets(simple, domain, solver, i);
    var k :| 0 <= k < |kept| && kept[k] == i;
    forall j | j in kept ensures Meets(domain, simple[j], solver) { KeptMeets(simple, domain, solver, j); }
    assert Picks(Picked(simple, kept), e, k);
  }

  /** restrict_to_domain: on every point of the domain where no case is treated wrongly, and so
      everywhere on it if the solver answered every query, there is a restriction and it has the
      function's value. With a solver that decides, and Boolean conditions in the function's
      conditionals, there is one exactly for a satisfiable domain, with the function's value on it. */
  method RestrictToDomain(f: Term, domain: Term, o: Oracles, eliminate: Rewriter)
    returns (r: Option<Term>, ghost conds: seq<Term>, ghost exprs: seq<Term>, ghost simple: seq<Term>,
        ghost runs: seq<Enumeration>)
    requires Trusted(o) && Eliminates(eliminate)
    ensures |conds| == |exprs| && AllIteFree(exprs) && forall e :: Yields(conds, exprs, e, Eval(f, e))
    ensures AllSimplified(conds, domain, runs, o, simple)
    ensures if |simple| == |conds| then |runs| == |conds|
        else |runs| == |simple| + 1 && FailsOn(conds[|simple|], runs[|simple|], o)
    ensures r.Some? <==> |simple| == |conds| && exists i | 0 <= i < |conds| :: Meets(domain, simple[i], o.solver)
    ensures |simple| == |conds| ==> forall e | Holds(domain, e) && !WrongAt(conds, simple, runs, domain, o, e) ::
      r.Some? && Eval(r.value, e) == Eval(f, e)
    ensures |simple| == |conds| && AllAnswered(conds, simple, runs, domain, o) ==>
        (r.Some? <==> exists e :: Holds(domain, e))
    ensures |simple| < |conds| && Decides(o.solver) ==> !Boolean(o.simplify(conds[|simple|]))
    ensures Decides(o.solver) && BooleanGuards(f) && KeepsBoolean(eliminate) && KeepsBoolean(o.simplify) ==>
      && (r.Some? <==> exists e :: Holds(domain, e))
      && forall e | Holds(domain, e) :: r.Some? && Eval(r.value, e) == Eval(f, e)
  {
    hide Eval, Trusted, Eliminates, Decides, Boolean, GivesUp, IteFree, Yields, AllSimplified, Meets, WrongAt,
        AllAnswered, KeptAlone, BooleanGuards, KeepsBoolean, Meet, FailsOn;
    var cases, values;
    TrustedParts(o);
    cases, values := Expr2Piecewise(f, o.solver, eliminate);
    conds, exprs := cases, values;
    r, simple, runs := RestrictCases(cases, values, domain, o);
    if |simple| == |conds| {
      forall e | Holds(domain, e) && !WrongAt(conds, simple, runs, domain, o, e)
          ensures r.Some? && Eval(r.value, e) == Eval(f, e) {
        assert Yields(conds, exprs, e, Eval(f, e));
        RightCase(f, conds, exprs, simple, runs, domain, o, e);
        var i: nat :| KeptAlone(simple, domain, o.solver, e, i) && i < |exprs| && Eval(exprs[i], e) == Eval(f, e);
        AloneMeets(simple, domain, o.solver, e, i);
      }
      if AllAnswered(conds, simple, runs, domain, o) {
        if e :| Holds(domain, e) { AnsweredIsRight(conds, simple, runs, domain, o, e); }
        if i :| 0 <= i < |conds| && Meets(domain, simple[i], o.solver) { MetSomewhere(domain, simple[i], o.solver); }
      }
    }
    if Manageable(conds, o) { WholeDomain(f, conds, exprs, domain, r); }
  }

  /** A restriction that is right for the cases is right for the function. */
  lemma WholeDomain(f: Term, conds: seq<Term>, exprs: seq<Term>, domain: Term, r: Option<Term>)
    requires |conds| == |exprs| && forall e :: Yields(conds, exprs, e, Eval(f, e))
    requires r.Some? <==> exists i | 0 <= i < |conds| :: Meet(domain, conds[i])
    requires forall e, i: nat | Holds(domain, e) && Picks(conds, e, i) ::
        r.Some? && Eval(r.value, e) == Eval(exprs[i], e)
    ensures r.Some? <==> exists e :: Holds(domain, e)
    ensures forall e | Holds(domain, e) :: r.Some? && Eval(r.value, e) == Eval(f, e)
  {
    hide Eval;
    forall e | Holds(domain, e) ensures r.Some? && Eval(r.value, e) == Eval(f, e) {
      assert Yields(conds, exprs, e, Eval(f, e));
    }
  }

  lemma AloneMeets(simple: seq<Term>, domain: Term, solver: Solver, e: Env, i: nat)
    requires KeptAlone(simple, domain, solver, e, i)
    ensures i < |simple| && Meets(domain, simple[i], solver)
  {
  }

  lemma MetSomewhere(domain: Term, condition: Term, solver: Solver)
    requires Sound(solver) && Meets(domain, condition, solver)
    ensures exists e :: Holds(domain, e)
  {
    assert Holds(Conj(domain, condition), solver(Conj(domain, condition)).model);
  }

  lemma RightCase(f: Term, conds: seq<Term>, exprs: seq<Term>, simple: seq<Term>, runs: seq<Enumeration>, domain: Term,
      o: Oracles, e: Env)
    requires Sound(o.solver) && |conds| == |exprs| == |simple| == |runs|
        && AllSimplified(conds, domain, runs, o, simple)
    requires Holds(domain, e) && Yields(conds, exprs, e, Eval(f, e)) && !WrongAt(conds, simple, runs, domain, o, e)
    ensures exists i: nat :: KeptAlone(simple, domain, o.solver, e, i) && i < |exprs| && Eval(exprs[i], e) == Eval(f, e)
  {
    hide Eval, AllSimplified, WrongAt, KeptAlone;
    var i: nat :| Picks(conds, e, i) && Eval(exprs[i], e) == Eval(f, e);
    RestrictionExactly(conds, simple, runs, domain, o, e, i);
  }

  /* ---- where unknown answers do harm ---- */

  /** A solver that refuses every question leaves no case, even on a domain that is everything. */
  method RefusedDomain(f: Term, eval: Evaluator, simplify: Rewriter, eliminate: Rewriter)
      returns (o: Oracles, r: Option<Term>)
    requires Evaluates(eval) && Preserves(simplify) && Eliminates(eliminate)
    ensures Trusted(o) && r.None? && forall e :: Holds(Flag(true), e)
  {
    o := Oracles((f: Term) => Unknown, eval, (f: Term, ts: seq<Term>) => ts, simplify);
    ghost var conds, exprs, simple, runs;
    r, conds, exprs, simple, runs := RestrictToDomain(f, Flag(true), o, eliminate);
  }

  /** A solver that only finds a model of the true formula keeps both of two exclusive cases, and the
      first wins everywhere. */
  method WrongPick(eval: Evaluator, simplify: Rewriter)
      returns (o: Oracles, conds: seq<Term>, exprs: seq<Term>, r: Option<Term>)
    requires Evaluates(eval) && Preserves(simplify)
    ensures Trusted(o) && conds == [App(Lt, [Var(0), Num(0)]), Negate(App(Lt, [Var(0), Num(0)]))]
        && exprs == [Num(1), Num(2)]
    ensures forall e :: Yields(conds, exprs, e, if Lookup(e, 0) < 0 then 1 else 2)
    ensures r.Some? && forall e :: Eval(r.value, e) == 1
  {
    hide Eval, KeptOf, AllSimplified, Sound;
    var negative := App(Lt, [Var(0), Num(0)]);
    conds, exprs := [negative, Negate(negative)], [Num(1), Num(2)];
    var somewhere := Env(map[], (name: nat, vs: seq<int>) => 0);
    var question := Conj(Flag(true), ConjAll([]));
    var solver := (f: Term) => if f == question then Sat(somewhere) else Unknown;
    o := Oracles(solver, eval, (f: Term, ts: seq<Term>) => ts, simplify);
    FindsOnly(solver, question, somewhere);
    ghost var simple, runs;
    r, simple, runs := RestrictCases(conds, exprs, Flag(true), o);
    forall i | 0 <= i < 2 ensures Refused(conds[i], o) { NotTheQuestion(simplify(conds[i])); }
    forall e ensures Yields(conds, exprs, e, if Lookup(e, 0) < 0 then 1 else 2) { BySign(e); }
    assert |runs| >= 1 && Refused(conds[0], o);
    assert |runs| >= 2 && Refused(conds[1], o);
    assert simple == [ConjAll([]), ConjAll([])];
    forall e ensures Eval(r.value, e) == 1 { FirstOfTwo(solver, e); }
  }

  lemma FindsOnly(solver: Solver, question: Term, somewhere: Env)
    requires question == Conj(Flag(true), ConjAll([])) && forall f :: solver(f) == if f == question then Sat(somewhere)
        else Unknown
    ensures Sound(solver) && NeverRefutes(solver)
  {
    EmptyHolds(somewhere);
  }

  lemma EmptyHolds(e: Env)
    ensures Holds(ConjAll([]), e) && Holds(Conj(Flag(true), ConjAll([])), e)
  {
  }

  lemma NotTheQuestion(t: Term)
    ensures Remaining(t, []) != Conj(Flag(true), ConjAll([]))
  {
    assert Remaining(t, []).args[0] != Flag(true);
  }

  lemma BySign(e: Env)
    ensures var negative := App(Lt, [Var(0), Num(0)]);
      Yields([negative, Negate(negative)], [Num(1), Num(2)], e, if Lookup(e, 0) < 0 then 1 else 2)
  {
    var negative := App(Lt, [Var(0), Num(0)]);
    var conds := [negative, Negate(negative)];
    EvalApp(Lt, [Var(0), Num(0)], e);
    assert Holds(negative, e) <==> Lookup(e, 0) < 0;
    assert Picks(conds, e, if Lookup(e, 0) < 0 then 0 else 1);
  }

  lemma KeepsBoth(t: Term, domain: Term, solver: Solver)
    requires Meets(domain, t, solver)
    ensures KeptOf([t, t], domain, solver) == [0, 1]
  {
    hide Meets;
    assert KeptOf([t], domain, solver) == [0] by { assert [t][..0] == []; }
    assert [t, t][..1] == [t];
  }

  lemma FirstOfTwo(solver: Solver, e: Env)
    requires solver(Conj(Flag(true), ConjAll([]))).Sat?
    ensures var simple := [ConjAll([]), ConjAll([])]; var kept := KeptOf(simple, Flag(true), solver);
      AllBelow(kept, 2) && kept != [] && FirstMatch(Picked(simple, kept), Picked([Num(1), Num(2)], kept), e) == 1
  {
    hide KeptOf, ConjAll, Conj, Eval, Picked;
    var t := ConjAll([]);
    KeepsBoth(t, Flag(true), solver);
    assert Picked([t, t], [0, 1]) == [t, t] && Picked([Num(1), Num(2)], [0, 1]) == [Num(1), Num(2)];
    EmptyHolds(e);
    NumMeans(1, e);
    assert FirstMatch([t, t], [Num(1), Num(2)], e) == Eval([Num(1), Num(2)][0], e);
  }
}
