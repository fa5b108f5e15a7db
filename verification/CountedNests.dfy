/** Ordinary loops do get summaries: a loop that counts up to a bound, and a nest of two such loops. */
module CountedNests {
  import opened Terms
  import opened ClosedForms
  import opened LoopNests
  import opened HeaderScalars
  import opened Selections
  import opened CountTemplate
  import opened Acceleration
  import opened NestedSummaries
  import opened NestedAcceleration
  import opened Wrappers

  /* ---- terms without foreign symbols ---- */

  /** Only scalars and the extra names occur, and no function is applied. */
  ghost predicate Known(t: Term, m: nat, extra: set<nat>) {
    !Calls(t) && forall id: nat :: Occurs(id, t) ==> id < m || id in extra
  }

  ghost predicate AllKnown(ts: seq<Term>, m: nat, extra: set<nat>) {
    forall i | 0 <= i < |ts| :: Known(ts[i], m, extra)
  }

  lemma KnownNotForeign(t: Term, m: nat)
    requires Known(t, m, {})
    ensures !HasForeign(t, m, {})
  {
    ForeignExactly(t, m, {});
  }

  lemma KnownPair(op: Op, a: Term, b: Term, m: nat, extra: set<nat>)
    requires Known(a, m, extra) && Known(b, m, extra) && !op.Fn?
    ensures Known(App(op, [a, b]), m, extra)
  {
    var args := [a, b];
    assert forall i | 0 <= i < 2 :: !Calls(args[i]);
  }

  lemma KnownNegate(a: Term, m: nat, extra: set<nat>)
    requires Known(a, m, extra)
    ensures Known(Negate(a), m, extra)
  {
    assert [a][0] == a;
  }

  lemma KnownLeaf(m: nat, extra: set<nat>)
    ensures forall n :: Known(Num(n), m, extra)
    ensures forall b :: Known(Flag(b), m, extra)
    ensures forall id: nat | id < m || id in extra :: Known(Var(id), m, extra)
  {
  }

  lemma KnownIte(c: Term, a: Term, b: Term, m: nat, extra: set<nat>)
    requires Known(c, m, extra) && Known(a, m, extra) && Known(b, m, extra)
    ensures Known(Ite(c, a, b), m, extra)
  {
  }

  lemma KnownForAll(probe: nat, body: Term, m: nat)
    requires Known(body, m, {probe})
    ensures Known(ForAll(probe, body), m, {})
  {
  }

  lemma {:induction false} CallsReplace(t: Term, mp: map<Term, Term>)
    requires QuantifierFree(t) && !Calls(t) && forall u | u in mp :: !Calls(mp[u])
    ensures !Calls(Replace(t, mp))
  {
    if t !in mp {
      match t
      case App(op, args) =>
        forall i | 0 <= i < |args| ensures !Calls(Replace(args[i], mp)) { CallsReplace(args[i], mp); }
        assert Replace(t, mp) == App(op, ReplaceAll(args, mp));
      case Ite(c, a, b) =>
        CallsReplace(c, mp);
        CallsReplace(a, mp);
        CallsReplace(b, mp);
      case _ =>
    }
  }

  /** A symbol of the image of some symbol of the term. */
  ghost predicate Through(id: nat, t: Term, mp: map<Term, Term>) {
    exists v: nat :: Occurs(v, t) && Var(v) in mp && Occurs(id, mp[Var(v)])
  }

  /** Symbols that replacing brings in come from the symbols that it takes out. */
  lemma {:induction false} OccursThrough(id: nat, t: Term, mp: map<Term, Term>)
    requires QuantifierFree(t) && Occurs(id, Replace(t, mp)) && forall u | u in mp :: u.Var?
    ensures (Occurs(id, t) && Var(id) !in mp) || Through(id, t, mp)
  {
    if t in mp {
      assert Occurs(t.id, t) && Var(t.id) in mp && Occurs(id, mp[Var(t.id)]);
    } else {
      match t
      case App(op, args) =>
        assert Replace(t, mp) == App(op, ReplaceAll(args, mp));
        var i :| 0 <= i < |args| && Occurs(id, ReplaceAll(args, mp)[i]);
        OccursThrough(id, args[i], mp);
        if v: nat :| Occurs(v, args[i]) && Var(v) in mp && Occurs(id, mp[Var(v)]) { assert Occurs(v, t); }
      case Ite(c, a, b) =>
        var part := if Occurs(id, Replace(c, mp)) then c else if Occurs(id, Replace(a, mp)) then a else b;
        OccursThrough(id, part, mp);
        if v: nat :| Occurs(v, part) && Var(v) in mp && Occurs(id, mp[Var(v)]) { assert Occurs(v, t); }
      case _ =>
    }
  }

  lemma KnownReplace(t: Term, mp: map<Term, Term>, m: nat, from: set<nat>, to: set<nat>)
    requires QuantifierFree(t) && Known(t, m, from) && forall u | u in mp :: u.Var? && Known(mp[u], m, to)
    requires forall id: nat | id in from :: id < m || id in to || Var(id) in mp
    ensures Known(Replace(t, mp), m, to)
  {
    hide QuantifierFree, Calls, Occurs, Replace;
    CallsReplace(t, mp);
    forall id: nat | Occurs(id, Replace(t, mp)) ensures id < m || id in to { OccursThrough(id, t, mp); }
  }

  lemma ParamImages(params: seq<nat>, images: seq<Term>, m: nat, extra: set<nat>)
    requires |params| == |images| && Distinct(params) && AllKnown(images, m, extra)
    ensures forall u | u in ParamMap(params, images) :: u.Var? && Known(ParamMap(params, images)[u], m, extra)
  {
    hide Known;
    var mp := ParamMap(params, images);
    forall u | u in mp ensures u.Var? && Known(mp[u], m, extra) {
      var i :| 0 <= i < |params| && u == Var(params[i]);
      assert mp[u] == images[i];
    }
  }

  /** The tools bring in no function and no symbol. */
  ghost predicate InventsNothing(tools: Tools) {
    && (forall t | !Calls(t) :: !Calls(tools.simplify(t)))
    && (forall t | tools.qe(t).Some? && !Calls(t) :: !Calls(tools.qe(t).value))
    && (forall t, id | tools.qe(t).Some? && Occurs(id, tools.qe(t).value) :: Occurs(id, t))
  }

  lemma KnownSimplified(t: Term, m: nat, extra: set<nat>, tools: Tools)
    requires InventsNothing(tools) && Simplifies(tools.simplify) && Known(t, m, extra)
    ensures Known(tools.simplify(t), m, extra)
  {
    hide Calls, Occurs, QuantifierFree, Eval;
  }

  lemma KnownReduced(t: Term, m: nat, tools: Tools)
    requires InventsNothing(tools) && Simplifies(tools.simplify) && Known(t, m, {})
    ensures Known(tools.simplify(if tools.qe(t).Some? then tools.qe(t).value else t), m, {})
  {
    hide Calls, Occurs, QuantifierFree, Eval, Simplifies;
    KnownSimplified(if tools.qe(t).Some? then tools.qe(t).value else t, m, {}, tools);
  }

  lemma Wider(t: Term, m: nat, extra: set<nat>)
    requires Known(t, m, {})
    ensures Known(t, m, extra)
  {
  }

  lemma AllWider(ts: seq<Term>, m: nat, extra: set<nat>, more: set<nat>)
    requires AllKnown(ts, m, extra) && extra <= more
    ensures AllKnown(ts, m, more)
  {
  }

  lemma KnownDomain(it: Iteration, m: nat, count: Term, trajectory: seq<Term>, final: seq<Term>, probe: nat)
    requires |trajectory| == m == |final| && IterationScalar(it, m) && Known(count, m, {})
    requires Known(it.stay, m, {}) && Known(it.leave, m, {}) && Known(it.err, m, {})
    requires AllKnown(trajectory, m, {probe}) && AllKnown(final, m, {})
    ensures Known(DomainFormula(it, m, count, trajectory, final, probe), m, {})
  {
    hide Known, Occurs, QuantifierFree, Replace, ParamMap;
    KnownLeaf(m, {probe});
    KnownLeaf(m, {});
    Wider(count, m, {probe});
    ParamImages(Params(m), trajectory, m, {probe});
    ParamImages(Params(m), final, m, {});
    var t, f := ParamMap(Params(m), trajectory), ParamMap(Params(m), final);
    KnownReplace(it.stay, t, m, {}, {probe});
    KnownReplace(it.err, t, m, {}, {probe});
    KnownReplace(it.leave, f, m, {}, {});
    KnownRange(probe, count, m);
    KnownImplies(InRange(probe, count), Replace(it.stay, t), m, {probe});
    KnownNegate(Replace(it.err, t), m, {probe});
    KnownImplies(UpTo(probe, count), Negate(Replace(it.err, t)), m, {probe});
    KnownForAll(probe, Implies(InRange(probe, count), Replace(it.stay, t)), m);
    KnownForAll(probe, Implies(UpTo(probe, count), Negate(Replace(it.err, t))), m);
    KnownPair(Le, Num(0), count, m, {});
    KnownPair(And, AtMost(Num(0), count), Replace(it.leave, f), m, {});
    KnownPair(And, Conj(AtMost(Num(0), count), Replace(it.leave, f)),
      ForAll(probe, Implies(InRange(probe, count), Replace(it.stay, t))), m, {});
    KnownPair(And, Conj(Conj(AtMost(Num(0), count), Replace(it.leave, f)),
      ForAll(probe, Implies(InRange(probe, count), Replace(it.stay, t)))),
      ForAll(probe, Implies(UpTo(probe, count), Negate(Replace(it.err, t)))), m, {});
  }

  lemma KnownImplies(a: Term, b: Term, m: nat, extra: set<nat>)
    requires Known(a, m, extra) && Known(b, m, extra)
    ensures Known(Implies(a, b), m, extra)
  {
    hide Known;
    KnownNegate(a, m, extra);
    KnownPair(Or, Negate(a), b, m, extra);
  }

  lemma KnownRange(probe: nat, count: Term, m: nat)
    requires Known(count, m, {probe})
    ensures Known(InRange(probe, count), m, {probe}) && Known(UpTo(probe, count), m, {probe})
  {
    hide Known;
    KnownLeaf(m, {probe});
    KnownPair(Le, Num(0), Var(probe), m, {probe});
    KnownPair(Lt, Var(probe), count, m, {probe});
    KnownPair(Le, Var(probe), count, m, {probe});
    KnownPair(And, AtMost(Num(0), Var(probe)), Less(Var(probe), count), m, {probe});
    KnownPair(And, AtMost(Num(0), Var(probe)), AtMost(Var(probe), count), m, {probe});
  }

  lemma KnownAt(closed: seq<Term>, ind: nat, count: Term, m: nat, extra: set<nat>, tools: Tools)
    requires InventsNothing(tools) && Simplifies(tools.simplify) && Plain(closed)
    requires AllKnown(closed, m, extra + {ind}) && Known(count, m, extra)
    ensures AllKnown(ClosedAtTerm(closed, ind, count, tools.simplify), m, extra)
  {
    hide Known, Occurs, QuantifierFree, Replace, Simplifies, InventsNothing;
    forall i | 0 <= i < |closed| ensures Known(ClosedAtTerm(closed, ind, count, tools.simplify)[i], m, extra) {
      KnownReplace(closed[i], map[Var(ind) := count], m, extra + {ind}, extra);
      KnownSimplified(Replace(closed[i], map[Var(ind) := count]), m, extra, tools);
    }
  }

  /** If nothing foreign goes into a summary, none comes out. */
  lemma NothingForeign(it: Iteration, sol: Solution, count: Term, m: nat, tools: Tools)
    requires InventsNothing(tools) && Simplifies(tools.simplify) && |sol.closed| == m && Plain(sol.closed)
    requires IterationScalar(it.(stay := sol.guard), m) && Known(count, m, {}) && AllKnown(sol.closed, m, {tools.ind})
    requires Known(sol.guard, m, {}) && Known(it.leave, m, {}) && Known(it.err, m, {})
    ensures !ForeignSummary(SummaryOf(it, sol, count, m, tools), m)
  {
    hide Known, Occurs, QuantifierFree, Simplifies, InventsNothing, HasForeign, DomainFormula, ClosedAtTerm,
        IterationScalar;
    KnownLeaf(m, {tools.probe});
    AllWider(sol.closed, m, {tools.ind}, {tools.probe} + {tools.ind});
    AllWider(sol.closed, m, {tools.ind}, {} + {tools.ind});
    KnownAt(sol.closed, tools.ind, Var(tools.probe), m, {tools.probe}, tools);
    KnownAt(sol.closed, tools.ind, count, m, {}, tools);
    WidthAt(sol.closed, tools.ind, count, Var(tools.probe), tools.simplify);
    var trajectory := ClosedAtTerm(sol.closed, tools.ind, Var(tools.probe), tools.simplify);
    var final := ClosedAtTerm(sol.closed, tools.ind, count, tools.simplify);
    KnownDomain(it.(stay := sol.guard), m, count, trajectory, final, tools.probe);
    KnownReduced(DomainFormula(it.(stay := sol.guard), m, count, trajectory, final, tools.probe), m, tools);
    var sum := SummaryOf(it, sol, count, m, tools);
    KnownNotForeign(sum.domain, m);
    KnownNotForeign(sum.count, m);
    forall i | 0 <= i < |sum.values| ensures !HasForeign(sum.values[i], m, {}) { KnownNotForeign(sum.values[i], m); }
  }

  lemma WidthAt(closed: seq<Term>, ind: nat, a: Term, b: Term, simplify: Rewriter)
    ensures |ClosedAtTerm(closed, ind, a, simplify)| == |closed| == |ClosedAtTerm(closed, ind, b, simplify)|
  {
  }

  /* ---- an iteration that counts up ---- */

  function Vars(ids: seq<nat>): (vs: seq<Term>)
    ensures |vs| == |ids|
  {
    seq(|ids|, i requires 0 <= i < |ids| => Var(ids[i]))
  }

  lemma {:induction false} ReplaceByItself(t: Term, ids: seq<nat>)
    requires QuantifierFree(t) && Distinct(ids)
    ensures Replace(t, ParamMap(ids, Vars(ids))) == t
  {
    var mp := ParamMap(ids, Vars(ids));
    if t !in mp {
      match t
      case App(op, args) =>
        forall i | 0 <= i < |args| ensures Replace(args[i], mp) == args[i] { ReplaceByItself(args[i], ids); }
        assert Replace(t, mp) == App(op, ReplaceAll(args, mp)) && ReplaceAll(args, mp) == args;
      case Ite(c, a, b) =>
        ReplaceByItself(c, ids);
        ReplaceByItself(a, ids);
        ReplaceByItself(b, ids);
      case _ =>
    }
  }

  function Next(c: nat): Term { App(Add, [Var(c), Num(1)]) }

  function Until(c: nat, bound: Term): Test { Test(LT, Var(c), bound, true) }

  /** The solver's simplifier knows that x + 1 - x is 1. */
  ghost predicate Subtracts(tools: Tools, c: nat) { tools.simplify(Minus(Next(c), Var(c))) == Num(1) }

  /** An iteration that counts one scalar up to a bound and resets the other header PHIs. */
  ghost predicate CountsUp(it: Iteration, c: nat, bound: Term, body: Code, m: nat) {
    && IterationScalar(it, m) && |it.cur| == m && AllScalar(it.cur, m) && Scalar(bound, m)
    && Known(it.stay, m, {}) && Known(it.leave, m, {}) && Known(it.err, m, {}) && AllKnown(it.cur, m, {})
    && Known(bound, m, {}) && !DependsOnPhi(bound, body, m)
    && c < m && Modifies(body, c) && it.cur[c] == Next(c)
    && forall x | 0 <= x < m && Modifies(body, x) && x != c :: Free(it.cur[x], Phis(body, m))
  }

  lemma MacroComposed(it: Iteration, ids: seq<nat>)
    requires Distinct(ids) && AllBelow(ids, |it.cur|)
    ensures Composable([MACRO], MacroPaths(it, ids), |ids|)
    ensures CompositeOf([MACRO], MacroPaths(it, ids), ids) == ReplaceAll(Picked(it.cur, ids), ParamMap(ids, Vars(ids)))
    ensures GuardOf([MACRO], MacroPaths(it, ids), ids) == Conj(Flag(true), Replace(it.stay, ParamMap(ids, Vars(ids))))
  {
    hide Occurs, QuantifierFree, ParamMap, Replace, ReplaceAll, Eval, Picked;
    var trs := MacroPaths(it, ids);
    assert [MACRO][0] == MACRO && [MACRO][..0] == [];
    assert CompositeOf([], trs, ids) == Vars(ids);
    assert GuardOf([], trs, ids) == Flag(true);
  }

  lemma MacroMap(it: Iteration, ids: seq<nat>, m: nat)
    requires |it.cur| == m && AllScalar(it.cur, m) && Distinct(ids) && AllBelow(ids, m)
    ensures Composable([MACRO], MacroPaths(it, ids), |ids|)
    ensures CompositeOf([MACRO], MacroPaths(it, ids), ids) == Picked(it.cur, ids)
    ensures GuardOf([MACRO], MacroPaths(it, ids), ids) == Conj(Flag(true), Replace(it.stay, ParamMap(ids, Vars(ids))))
  {
    hide Occurs, QuantifierFree, ParamMap, Replace, Scalar;
    var updates := Picked(it.cur, ids);
    MacroComposed(it, ids);
    forall k | 0 <= k < |ids| ensures Replace(updates[k], ParamMap(ids, Vars(ids))) == updates[k] {
      ScalarPlain(it.cur[ids[k]], m);
      ReplaceByItself(updates[k], ids);
    }
    assert ReplaceAll(updates, ParamMap(ids, Vars(ids))) == updates;
  }

  /** Its map consists of one translation and resets. */
  lemma CountingRecognised(it: Iteration, c: nat, bound: Term, body: Code, m: nat, tools: Tools)
    requires CountsUp(it, c, bound, body, m) && Subtracts(tools, c)
    ensures AllBelow(Phis(body, m), m) && AllRecognised(Picked(it.cur, Phis(body, m)), Phis(body, m), tools.simplify)
  {
    hide Occurs, QuantifierFree, Phis, Modifies, Known, Scalar;
    PhisBelow(body, m);
    var ids := Phis(body, m);
    var oneStep := Picked(it.cur, ids);
    forall k | 0 <= k < |ids| ensures Recognised(oneStep[k], ids, k, tools.simplify) {
      assert ids[k] in ids;
      if ids[k] == c { NumFree(1, ids); } else { assert Free(it.cur[ids[k]], ids); }
    }
  }

  lemma NumFree(n: int, ids: seq<nat>)
    ensures Free(Num(n), ids)
  {
  }

  /** So it has the built-in closed form. */
  lemma CountingSolved(it: Iteration, c: nat, bound: Term, body: Code, m: nat, tools: Tools)
    requires CountsUp(it, c, bound, body, m) && Subtracts(tools, c) && Trusted(tools, m) && Decides(tools.solver)
    ensures MacroSolution(it, body, m, tools).Some?
    ensures
      var sol := MacroSolution(it, body, m, tools).value;
      var ids := Phis(body, m);
      && AllBelow(ids, m)
      && sol.guard == tools.simplify(Conj(Flag(true), it.stay))
      && sol.oneStep == Spread(Picked(it.cur, ids), ids, m)
      && sol.closed == Spread(AllElementary(Picked(it.cur, ids), ids, tools.ind, tools.simplify), ids, m)
  {
    hide Occurs, QuantifierFree, Modifies, Known, Simplifies, ProposesPlain, Phis, AllRecognised, Mentions,
        PlainTransitions, CompositeOf, GuardOf, AllElementary, Spread, Certified;
    PhisBelow(body, m);
    var ids := Phis(body, m);
    CountingRecognised(it, c, bound, body, m, tools);
    MacroMap(it, ids, m);
    MacroPlain(it, ids, m, tools.ind);
    assert c in ids;
    assert forall x | x in ids :: x < m;
    SolutionExactly([MACRO], MacroPaths(it, ids), ids, tools.ind, tools.simplify, tools.recurrence, tools.solver);
    ScalarPlain(it.stay, m);
    ReplaceByItself(it.stay, ids);
  }

  lemma ElementaryKnown(t: Term, ids: seq<nat>, k: nat, m: nat, extra: set<nat>, tools: Tools)
    requires k < |ids| && (ids[k] < m || ids[k] in extra) && tools.ind in extra && Known(t, m, extra)
    requires InventsNothing(tools) && Simplifies(tools.simplify)
    ensures Known(ElementaryForm(t, ids, k, tools.ind, tools.simplify), m, extra)
  {
    hide Known, Occurs, QuantifierFree, Simplifies, InventsNothing, DependsOnAny;
    KnownLeaf(m, extra);
    KnownPair(Sub, t, Var(ids[k]), m, extra);
    var delta := tools.simplify(Minus(t, Var(ids[k])));
    KnownSimplified(Minus(t, Var(ids[k])), m, extra, tools);
    KnownPair(Mul, Var(tools.ind), delta, m, extra);
    KnownPair(Add, Var(ids[k]), Times(Var(tools.ind), delta), m, extra);
    KnownSimplified(Plus(Var(ids[k]), Times(Var(tools.ind), delta)), m, extra, tools);
    KnownPair(Eq, Var(tools.ind), Num(0), m, extra);
    KnownIte(Equals(Var(tools.ind), Num(0)), Var(ids[k]), t, m, extra);
  }

  function CountTo(c: nat, bound: Term, tools: Tools): Term {
    tools.simplify(CountTerm(DistanceTerm(LT, Var(c), bound), 1))
  }

  lemma KnownCount(c: nat, bound: Term, m: nat, extra: set<nat>, tools: Tools)
    requires (c < m || c in extra) && Known(bound, m, extra) && InventsNothing(tools) && Simplifies(tools.simplify)
    ensures Known(CountTo(c, bound, tools), m, extra)
  {
    hide Known, Occurs, QuantifierFree, Simplifies, InventsNothing;
    KnownLeaf(m, extra);
    KnownPair(Sub, bound, Var(c), m, extra);
    var d := Minus(bound, Var(c));
    KnownPair(Lt, Num(0), d, m, extra);
    KnownPair(Add, d, Num(1), m, extra);
    KnownPair(Sub, Plus(d, Num(1)), Num(1), m, extra);
    KnownPair(Div, Minus(Plus(d, Num(1)), Num(1)), Num(1), m, extra);
    KnownIte(Less(Num(0), d), Binary(Div, Minus(Plus(d, Num(1)), Num(1)), Num(1)), Num(0), m, extra);
    KnownSimplified(CountTerm(DistanceTerm(LT, Var(c), bound), 1), m, extra, tools);
  }

  /** An iteration that counts up has a summary: closed form, count, and nothing foreign. */
  lemma CountingMacro(it: Iteration, c: nat, bound: Term, body: Code, m: nat, tools: Tools)
    requires CountsUp(it, c, bound, body, m) && Subtracts(tools, c)
    requires Trusted(tools, m) && Decides(tools.solver) && InventsNothing(tools)
    ensures SummarisableMacro(it, Until(c, bound), body, m, tools)
    ensures TemplateOf(Until(c, bound), body, m, MacroSolution(it, body, m, tools).value.oneStep, tools.simplify) ==
      Some(CountTo(c, bound, tools))
  {
    hide Occurs, QuantifierFree, Modifies, Known, Simplifies, Phis, Spread, AllElementary, InventsNothing,
        MacroSolution, SummaryOf, ForeignSummary, Eval, DistanceTerm, CountTerm;
    CountingSolved(it, c, bound, body, m, tools);
    TrustedParts(tools, m);
    var sol := MacroSolution(it, body, m, tools).value;
    var ids := Phis(body, m);
    assert c in ids && sol.oneStep[c] == it.cur[c];
    var count := CountTo(c, bound, tools);
    assert Stays(Until(c, bound), false) == LT;
    KnownCount(c, bound, m, {}, tools);
    SolvedKnown(it, body, m, sol, tools);
    NothingForeign(it, sol, count, m, tools);
  }

  lemma SolvedKnown(it: Iteration, body: Code, m: nat, sol: Solution, tools: Tools)
    requires Trusted(tools, m) && InventsNothing(tools) && |it.cur| == m && AllKnown(it.cur, m, {})
    requires Scalar(it.stay, m) && Known(it.stay, m, {}) && AllScalar(it.cur, m)
    requires var ids := Phis(body, m);
      && AllBelow(ids, m)
      && sol.guard == tools.simplify(Conj(Flag(true), it.stay))
      && sol.closed == Spread(AllElementary(Picked(it.cur, ids), ids, tools.ind, tools.simplify), ids, m)
    ensures |sol.closed| == m && AllKnown(sol.closed, m, {tools.ind}) && Plain(sol.closed)
    ensures Known(sol.guard, m, {}) && Scalar(sol.guard, m)
  {
    hide Occurs, QuantifierFree, Modifies, Known, Simplifies, Phis, InventsNothing, Eval, ElementaryForm, Scalar;
    TrustedParts(tools, m);
    var ids := Phis(body, m);
    KnownLeaf(m, {tools.ind});
    forall x: nat | x < m ensures Known(sol.closed[x], m, {tools.ind}) && QuantifierFree(sol.closed[x]) {
      if x in ids {
        var k := PlaceOf(ids, x);
        Wider(it.cur[x], m, {tools.ind});
        ElementaryKnown(it.cur[x], ids, k, m, {tools.ind}, tools);
        ScalarPlain(it.cur[x], m);
        ElementaryPlain(it.cur[x], ids, k, tools.ind, tools.simplify);
      } else {
        VarPlain(x, Env(map[], (n, vs) => 0));
      }
    }
    KnownLeaf(m, {});
    KnownPair(And, Flag(true), it.stay, m, {});
    KnownSimplified(Conj(Flag(true), it.stay), m, {}, tools);
    FlagScalar(true, m);
    BinaryScalar(And, Flag(true), it.stay, m);
    SimplifiedScalar(tools.simplify, Conj(Flag(true), it.stay), m);
  }

  lemma ElementaryPlain(t: Term, ids: seq<nat>, k: nat, ind: nat, simplify: Rewriter)
    requires k < |ids| && QuantifierFree(t) && Simplifies(simplify)
    ensures QuantifierFree(ElementaryForm(t, ids, k, ind, simplify))
  {
    hide Occurs, DependsOnAny, Eval;
    BinaryPlain(Sub, t, Var(ids[k]));
    var delta := simplify(Minus(t, Var(ids[k])));
    BinaryPlain(Mul, Var(ind), delta);
    BinaryPlain(Add, Var(ids[k]), Times(Var(ind), delta));
    BinaryPlain(Eq, Var(ind), Num(0));
  }

  /* ---- a counting loop ---- */

  function Counting(c: nat): Code { Assign(c, Next(c), Skip) }

  /** The bound is a term over scalars that the counter does not occur in. */
  ghost predicate Bounds(c: nat, bound: Term, m: nat) {
    c < m && Scalar(bound, m) && Known(bound, m, {}) && !Occurs(c, bound)
  }

  lemma NextReplaced(c: nat, images: seq<Term>)
    requires c < |images| && images[c] == Var(c)
    ensures Replace(Next(c), ParamMap(Params(|images|), images)) == Next(c)
  {
    hide ParamMap, Params;
    var mp := ParamMap(Params(|images|), images);
    assert Params(|images|)[c] == c && Var(c) in mp && mp[Var(c)] == Var(c);
    assert Num(1) !in mp && Next(c) !in mp;
    assert Replace(Var(c), mp) == Var(c) && Replace(Num(1), mp) == Num(1);
    assert ReplaceAll([Var(c), Num(1)], mp) == [Var(c), Num(1)];
  }

  lemma NextKnown(c: nat, m: nat)
    requires c < m
    ensures Scalar(Next(c), m) && Known(Next(c), m, {}) && Scalar(Var(c), m)
    ensures forall e :: Eval(Next(c), e) == Lookup(e, c) + 1
  {
    KnownLeaf(m, {});
    KnownPair(Add, Var(c), Num(1), m, {});
    BinaryPlain(Add, Var(c), Num(1));
    forall e ensures Eval(Next(c), e) == Lookup(e, c) + 1 {
      assert Next(c) == Plus(Var(c), Num(1));
      VarMeans(c, e);
      NumMeans(1, e);
    }
  }

  lemma TestKnown(c: nat, bound: Term, m: nat)
    requires Bounds(c, bound, m)
    ensures var t := TestTerm(Until(c, bound));
      && Known(Conj(Flag(true), t), m, {}) && Known(Conj(Flag(true), Negate(t)), m, {})
      && Scalar(Conj(Flag(true), t), m) && Scalar(Conj(Flag(true), Negate(t)), m)
  {
    hide Known, Occurs, QuantifierFree;
    KnownLeaf(m, {});
    NextKnown(c, m);
    KnownPair(Lt, Var(c), bound, m, {});
    var t := Less(Var(c), bound);
    KnownNegate(t, m, {});
    KnownPair(And, Flag(true), t, m, {});
    KnownPair(And, Flag(true), Negate(t), m, {});
    BinaryScalar(Lt, Var(c), bound, m);
    NegateScalar(t, m);
    FlagScalar(true, m);
    BinaryScalar(And, Flag(true), t, m);
    BinaryScalar(And, Flag(true), Negate(t), m);
  }

  /** It can be entered and left. */
  lemma BothWays(c: nat, bound: Term, m: nat)
    requires Bounds(c, bound, m)
    ensures var t := TestTerm(Until(c, bound));
      !Never(Conj(Flag(true), t)) && !Never(Conj(Flag(true), Negate(t)))
  {
    hide Known, Occurs, QuantifierFree;
    var t := TestTerm(Until(c, bound));
    assert t == Less(Var(c), bound);
    var e := Env(map[], (name: nat, vs: seq<int>) => 0);
    var v := Eval(bound, e);
    forall n ensures Holds(t, Set(e, c, n)) <==> n < v {
      BoundKept(c, bound, e, Set(e, c, n));
      VarMeans(c, Set(e, c, n));
    }
    assert Eval(Flag(true), Set(e, c, v - 1)) == 1 && Eval(Flag(true), Set(e, c, v)) == 1;
    assert Holds(Conj(Flag(true), t), Set(e, c, v - 1));
    assert Holds(Conj(Flag(true), Negate(t)), Set(e, c, v));
  }

  lemma BoundKept(c: nat, bound: Term, e: Env, e': Env)
    requires !Occurs(c, bound) && e.fns == e'.fns && forall id | id != c :: Lookup(e, id) == Lookup(e', id)
    ensures Eval(bound, e) == Eval(bound, e')
  {
    EvalAgree(bound, e, e');
  }

  /** What the exploration of one iteration gives. */
  function Counted(c: nat, bound: Term, m: nat): Iteration
    requires c < m
  {
    var t := TestTerm(Until(c, bound));
    Iteration(Conj(Flag(true), t), Conj(Flag(true), Negate(t)), Vars(Params(m))[c := Next(c)], Flag(false))
  }

  lemma CountingExplored(c: nat, bound: Term, m: nat, tools: Tools)
    requires Bounds(c, bound, m) && Decides(tools.solver)
    ensures IterationOf([], Until(c, bound), Counting(c), m, tools) == Some(Counted(c, bound, m))
    ensures Explorable(Counting(c), m, Staying([], Until(c, bound), m), tools)
    ensures Returns(Counting(c), m, Staying([], Until(c, bound), m), tools)
  {
    hide Known, Occurs, QuantifierFree, Replace, ParamMap, Never, Decides;
    var stays := Staying([], Until(c, bound), m);
    assert stays.cur == Vars(Params(m));
    NextReplaced(c, stays.cur);
    BothWays(c, bound, m);
    SolverSees(stays.pc, tools.solver);
    SolverSees(Leaving([], Until(c, bound), m), tools.solver);
    var after := stays.(cur := stays.cur[c := Replace(Next(c), ParamMap(Params(m), stays.cur))]);
    assert WalkOf(Skip, m, after, tools) == Some(Walk(after, true));
    assert Explorable(Skip, m, after, tools) && Returns(Skip, m, after, tools);
  }

  lemma CountingCountsUp(c: nat, bound: Term, m: nat)
    requires Bounds(c, bound, m)
    ensures CountsUp(Counted(c, bound, m), c, bound, Counting(c), m)
  {
    hide Known, Occurs, QuantifierFree;
    var it := Counted(c, bound, m);
    KnownLeaf(m, {});
    NextKnown(c, m);
    TestKnown(c, bound, m);
    FlagScalar(false, m);
    forall i | 0 <= i < m ensures Scalar(it.cur[i], m) && Known(it.cur[i], m, {}) {
      if i != c { NextKnown(i, m); assert it.cur[i] == Var(i); }
    }
    assert forall x :: Modifies(Counting(c), x) <==> x == c;
    assert IterationScalar(it, m);
    assert !DependsOnPhi(bound, Counting(c), m);
  }

  /** Every loop that counts a scalar up to a bound it does not occur in has a summary. */
  lemma CountingSummarised(c: nat, bound: Term, m: nat, tools: Tools)
    requires Bounds(c, bound, m) && Subtracts(tools, c)
    requires Trusted(tools, m) && Decides(tools.solver) && InventsNothing(tools)
    ensures Summarisable([], Until(c, bound), Counting(c), m, tools)
  {
    hide Known, Occurs, QuantifierFree, Never, Trusted, Decides, InventsNothing, CountsUp, SummarisableMacro,
        Explorable, Returns, IterationOf, Counted;
    CountingExplored(c, bound, m, tools);
    CountingCountsUp(c, bound, m);
    CountingMacro(Counted(c, bound, m), c, bound, Counting(c), m, tools);
    BothWays(c, bound, m);
  }

  /** And it always runs to its exit. */
  lemma CountingExits(c: nat, bound: Term, m: nat, e: Env, s: State)
    requires Bounds(c, bound, m) && |s| == m
    ensures exists trace :: LoopRuns([], Until(c, bound), Counting(c), e, s, trace)
  {
    hide Known, Occurs, QuantifierFree, Eval, Store;
    var v := Eval(bound, Store(e, m, s));
    var n := if v > s[c] then v - s[c] else 0;
    var trace := seq(n + 1, t requires 0 <= t <= n => s[c := s[c] + t]);
    forall t | 0 <= t <= n
      ensures Continues(Until(c, bound), e, trace[t]) <==> t < n
      ensures t < n ==> LoopNests.Runs(Counting(c), e, trace[t], trace[t + 1])
    {
      var u := trace[t];
      BoundKept(c, bound, Store(e, m, u), Store(e, m, s));
      VarMeans(c, Store(e, m, u));
      NextKnown(c, m);
      assert t < n ==> trace[t + 1] == u[c := u[c] + 1];
    }
    assert trace[0] == s;
    assert LoopRuns([], Until(c, bound), Counting(c), e, s, trace);
  }

  /* ---- a nest of two ---- */

  /** The final value of the counter mentions the counter and the symbols of the bound alone. */
  lemma CounterValue(c: nat, bound: Term, m: nat, tools: Tools, extra: set<nat>)
    requires Bounds(c, bound, m) && Subtracts(tools, c) && Known(bound, 0, extra) && c in extra
    requires Trusted(tools, m) && Decides(tools.solver) && InventsNothing(tools)
    ensures var sum := SummaryFrom([], Until(c, bound), Counting(c), m, tools);
      sum.Some? && Known(sum.value.values[c], 0, extra)
  {
    hide Known, Occurs, QuantifierFree, Never, Decides, InventsNothing, CountsUp, Explorable, Returns, IterationOf,
        Counted, Simplifies, Spread, ForeignSummary, MacroSolution, TemplateOf, CountTerm, DistanceTerm;
    var it := Counted(c, bound, m);
    CountingExplored(c, bound, m, tools);
    CountingCountsUp(c, bound, m);
    CountingMacro(it, c, bound, Counting(c), m, tools);
    CountingSummarised(c, bound, m, tools);
    SummarisesExactly([], Until(c, bound), Counting(c), m, tools);
    CountingSolved(it, c, bound, Counting(c), m, tools);
    OnlyPhi(c, m);
    var sol := MacroSolution(it, Counting(c), m, tools).value;
    var closed := ElementaryForm(Next(c), [c], 0, tools.ind, tools.simplify);
    assert sol.closed[c] == closed by { CountedClosed(c, bound, m, sol, tools); }
    ClosedKnown(c, bound, tools, extra, m);
  }

  lemma OnlyPhi(c: nat, m: nat)
    requires c < m
    ensures Phis(Counting(c), m) == [c]
  {
    var ids := Phis(Counting(c), m);
    assert forall x :: Modifies(Counting(c), x) <==> x == c;
    assert c in ids && (|ids| > 1 ==> ids[0] != ids[1]);
    forall i | 0 <= i < |ids| ensures ids[i] == c { assert ids[i] in ids; }
  }

  lemma CountedClosed(c: nat, bound: Term, m: nat, sol: Solution, tools: Tools)
    requires c < m && AllBelow([c], m)
    requires sol.closed ==
      Spread(AllElementary(Picked(Counted(c, bound, m).cur, [c]), [c], tools.ind, tools.simplify), [c], m)
    ensures sol.closed[c] == ElementaryForm(Next(c), [c], 0, tools.ind, tools.simplify)
  {
    hide ElementaryForm;
    assert PlaceOf([c], c) == 0;
  }

  lemma ClosedKnown(c: nat, bound: Term, tools: Tools, extra: set<nat>, m: nat)
    requires Known(bound, 0, extra) && c in extra && InventsNothing(tools) && Trusted(tools, m)
    ensures var closed := ElementaryForm(Next(c), [c], 0, tools.ind, tools.simplify);
      Known(tools.simplify(Replace(closed, map[Var(tools.ind) := CountTo(c, bound, tools)])), 0, extra)
  {
    hide Known, Occurs, QuantifierFree, InventsNothing, ElementaryForm, Simplifies;
    TrustedParts(tools, m);
    var more := extra + {tools.ind};
    KnownLeaf(0, more);
    KnownPair(Add, Var(c), Num(1), 0, more);
    ElementaryKnown(Next(c), [c], 0, 0, more, tools);
    KnownCount(c, bound, 0, extra, tools);
    var closed := ElementaryForm(Next(c), [c], 0, tools.ind, tools.simplify);
    NextKnown(c, c + 1);
    ScalarPlain(Next(c), c + 1);
    ElementaryPlain(Next(c), [c], 0, tools.ind, tools.simplify);
    KnownReplace(closed, map[Var(tools.ind) := CountTo(c, bound, tools)], 0, more, extra);
    KnownSimplified(Replace(closed, map[Var(tools.ind) := CountTo(c, bound, tools)]), 0, extra, tools);
  }

  /** The outer loop's body: the inner counter starts at zero, runs to its bound, and the outer one steps. */
  function Twice(i: nat, j: nat, inner: Term): Code {
    Assign(j, Num(0), Nest([], Until(j, inner), Counting(j), Counting(i)))
  }

  ghost predicate Apart(i: nat, outer: Term, j: nat, inner: Term, m: nat) {
    Bounds(i, outer, m) && Bounds(j, inner, m) && i != j && !Occurs(j, outer) && !Occurs(i, inner)
  }

  /** Where the inner loop is entered. */
  function Entering(i: nat, outer: Term, j: nat, m: nat): Explored
    requires j < m
  {
    Explored(Conj(Flag(true), TestTerm(Until(i, outer))), Vars(Params(m))[j := Num(0)], Flag(false))
  }

  lemma EnteringShaped(i: nat, outer: Term, j: nat, m: nat)
    requires Bounds(i, outer, m) && j < m
    ensures NestedSummaries.Shaped(Entering(i, outer, j, m), m) && |Entering(i, outer, j, m).cur| == m
    ensures AllKnown(Entering(i, outer, j, m).cur, m, {})
  {
    hide Known, Occurs, QuantifierFree;
    var x := Entering(i, outer, j, m);
    TestKnown(i, outer, m);
    FlagScalar(false, m);
    KnownLeaf(m, {});
    forall v | 0 <= v < m ensures Scalar(x.cur[v], m) && Known(x.cur[v], m, {}) {
      if v == j { ZeroScalar(m); } else { NextKnown(v, m); assert x.cur[v] == Var(v); }
    }
  }

  lemma ZeroScalar(m: nat)
    ensures Scalar(Num(0), m)
  {
  }

  /** The inner counter's value after the inner loop, in terms of the scalars at the outer header. */
  function Left(i: nat, outer: Term, j: nat, m: nat, sum: Summary): Term
    requires j < m == |sum.values|
  {
    Replace(sum.values[j], ParamMap(Params(m), Entering(i, outer, j, m).cur))
  }

  /** It mentions neither counter: the inner one starts at a constant. */
  lemma LeftIsReset(i: nat, outer: Term, j: nat, inner: Term, m: nat, sum: Summary, extra: set<nat>)
    requires Apart(i, outer, j, inner, m) && |sum.values| == m && Scalar(sum.values[j], m)
    requires Known(sum.values[j], 0, extra) && forall id: nat :: id in extra <==> id == j || Occurs(id, inner)
    ensures Known(Left(i, outer, j, m, sum), m, {}) && Scalar(Left(i, outer, j, m, sum), m)
    ensures !Occurs(i, Left(i, outer, j, m, sum)) && !Occurs(j, Left(i, outer, j, m, sum))
  {
    hide QuantifierFree, Replace, ParamMap, Calls;
    var cur := Entering(i, outer, j, m).cur;
    var mp := ParamMap(Params(m), cur);
    EnteringShaped(i, outer, j, m);
    ScalarPlain(sum.values[j], m);
    SubstScalar(sum.values[j], m, cur);
    ParamImages(Params(m), cur, m, {});
    KnownReplace(sum.values[j], mp, m, {}, {});
    forall id: nat | Occurs(id, Left(i, outer, j, m, sum)) ensures Occurs(id, inner) {
      OccursThrough(id, sum.values[j], mp);
      AllMapped(m, cur);
      var v: nat :| Occurs(v, sum.values[j]) && Var(v) in mp && Occurs(id, mp[Var(v)]);
      MappedTo(v, m, cur);
    }
  }

  lemma AllMapped(m: nat, cur: seq<Term>)
    requires |cur| == m
    ensures forall id: nat | id < m :: Var(id) in ParamMap(Params(m), cur)
  {
    hide ParamMap;
    forall id: nat | id < m ensures Var(id) in ParamMap(Params(m), cur) { assert Params(m)[id] == id; }
  }

  lemma MappedTo(v: nat, m: nat, cur: seq<Term>)
    requires |cur| == m && Var(v) in ParamMap(Params(m), cur)
    ensures v < m && ParamMap(Params(m), cur)[Var(v)] == cur[v]
  {
    hide ParamMap;
    var k :| 0 <= k < m && Var(v) == Var(Params(m)[k]);
    assert Params(m)[k] == k;
  }

  /** The iteration of the outer loop. */
  function Outer(i: nat, outer: Term, j: nat, m: nat, sum: Summary): Iteration
    requires i < m && j < m == |sum.values|
  {
    Counted(i, outer, m).(cur := Vars(Params(m))[j := Left(i, outer, j, m, sum)][i := Next(i)])
  }

  /** From the inner loop on: the jump over it, and the step of the outer counter. */
  lemma InnerExplored(i: nat, outer: Term, j: nat, inner: Term, m: nat, tools: Tools, sum: Summary)
    requires Apart(i, outer, j, inner, m) && Decides(tools.solver)
    requires Summarisable([], Until(j, inner), Counting(j), m, tools)
    requires SummaryFrom([], Until(j, inner), Counting(j), m, tools) == Some(sum) && |sum.values| == m
    requires Never(EntryQuery(Entering(i, outer, j, m), m, sum))
    ensures
      var before, nest := Entering(i, outer, j, m), Nest([], Until(j, inner), Counting(j), Counting(i));
      && WalkOf(nest, m, before, tools) == Some(Walk(before.(cur := Outer(i, outer, j, m, sum).cur), true))
      && Explorable(nest, m, before, tools) && Returns(nest, m, before, tools)
  {
    hide Known, Occurs, QuantifierFree, Replace, ParamMap, Never, Decides, Summarisable, SummaryFrom, EntryQuery,
        TestTerm, Params, Scalar;
    var before := Entering(i, outer, j, m);
    var mid := AfterChild(before, Counting(j), m, sum);
    assert forall x :: Modifies(Counting(j), x) <==> x == j;
    assert mid.cur == Vars(Params(m))[j := Left(i, outer, j, m, sum)];
    StepExplored(i, m, mid, tools);
    SolverSees(EntryQuery(before, m, sum), tools.solver);
  }

  lemma StepExplored(i: nat, m: nat, mid: Explored, tools: Tools)
    requires |mid.cur| == m && i < m && mid.cur[i] == Var(i)
    ensures WalkOf(Counting(i), m, mid, tools) == Some(Walk(mid.(cur := mid.cur[i := Next(i)]), true))
    ensures Explorable(Counting(i), m, mid, tools) && Returns(Counting(i), m, mid, tools)
  {
    hide Replace, ParamMap, Params;
    NextReplaced(i, mid.cur);
    var after := mid.(cur := mid.cur[i := Next(i)]);
    assert WalkOf(Skip, m, after, tools) == Some(Walk(after, true));
    assert Explorable(Skip, m, after, tools) && Returns(Skip, m, after, tools);
  }

  lemma OuterExplored(i: nat, outer: Term, j: nat, inner: Term, m: nat, tools: Tools, sum: Summary)
    requires Apart(i, outer, j, inner, m) && Decides(tools.solver)
    requires Summarisable([], Until(j, inner), Counting(j), m, tools)
    requires SummaryFrom([], Until(j, inner), Counting(j), m, tools) == Some(sum) && |sum.values| == m
    requires Never(EntryQuery(Entering(i, outer, j, m), m, sum))
    ensures
      var stays := Staying([], Until(i, outer), m);
      && IterationOf([], Until(i, outer), Twice(i, j, inner), m, tools) == Some(Outer(i, outer, j, m, sum))
      && Explorable(Twice(i, j, inner), m, stays, tools) && Returns(Twice(i, j, inner), m, stays, tools)
  {
    hide Known, Occurs, QuantifierFree, Replace, ParamMap, Never, Decides, Summarisable, SummaryFrom, EntryQuery,
        TestTerm, Params, Scalar, Left;
    hide WalkOf, Explorable, Returns;
    InnerExplored(i, outer, j, inner, m, tools, sum);
    var stays, nest := Staying([], Until(i, outer), m), Nest([], Until(j, inner), Counting(j), Counting(i));
    BothWays(i, outer, m);
    SolverSees(stays.pc, tools.solver);
    SolverSees(Leaving([], Until(i, outer), m), tools.solver);
    FirstAssigned(i, outer, j, nest, m, tools);
  }

  lemma FirstAssigned(i: nat, outer: Term, j: nat, next: Code, m: nat, tools: Tools)
    requires j < m
    ensures
      var stays, before := Staying([], Until(i, outer), m), Entering(i, outer, j, m);
      && WalkOf(Assign(j, Num(0), next), m, stays, tools) == WalkOf(next, m, before, tools)
      && (Explorable(Assign(j, Num(0), next), m, stays, tools) <==> Explorable(next, m, before, tools))
      && (Returns(Assign(j, Num(0), next), m, stays, tools) <==> Returns(next, m, before, tools))
  {
    hide Replace, ParamMap, Params, TestTerm;
    var stays := Staying([], Until(i, outer), m);
    assert stays.cur == Vars(Params(m));
    ZeroReplaced(stays.cur);
    assert stays.(cur := stays.cur[j := Num(0)]) == Entering(i, outer, j, m);
  }

  lemma ZeroReplaced(cur: seq<Term>)
    ensures Replace(Num(0), ParamMap(Params(|cur|), cur)) == Num(0)
  {
    hide ParamMap, Params;
    assert Num(0) !in ParamMap(Params(|cur|), cur);
  }

  lemma TwiceModifies(i: nat, j: nat, inner: Term)
    ensures forall x :: Modifies(Twice(i, j, inner), x) <==> x == i || x == j
  {
    assert forall x :: Modifies(Counting(i), x) <==> x == i;
    assert forall x :: Modifies(Counting(j), x) <==> x == j;
    var nest := Nest([], Until(j, inner), Counting(j), Counting(i));
    assert forall x :: Modifies(nest, x) <==> x == i || x == j;
  }

  lemma OuterCountsUp(i: nat, outer: Term, j: nat, inner: Term, m: nat, sum: Summary)
    requires Apart(i, outer, j, inner, m) && |sum.values| == m
    requires Known(Left(i, outer, j, m, sum), m, {}) && Scalar(Left(i, outer, j, m, sum), m)
    requires !Occurs(i, Left(i, outer, j, m, sum)) && !Occurs(j, Left(i, outer, j, m, sum))
    ensures CountsUp(Outer(i, outer, j, m, sum), i, outer, Twice(i, j, inner), m)
  {
    hide Known, Occurs, QuantifierFree, Left;
    var it, body := Outer(i, outer, j, m, sum), Twice(i, j, inner);
    KnownLeaf(m, {});
    NextKnown(i, m);
    TestKnown(i, outer, m);
    FlagScalar(false, m);
    forall v | 0 <= v < m ensures Scalar(it.cur[v], m) && Known(it.cur[v], m, {}) {
      if v != i && v != j { NextKnown(v, m); assert it.cur[v] == Var(v); }
    }
    TwiceModifies(i, j, inner);
    assert IterationScalar(it, m);
    assert !DependsOnPhi(outer, body, m);
  }

  /** A nest of two counting loops, at any scalars and bounds that keep them apart, has a summary: every
      solver that decides lets it be jumped over whole. */
  method NestOfTwo(i: nat, outer: Term, j: nat, inner: Term, m: nat, tools: Tools) returns (result: Option<Summary>)
    requires Apart(i, outer, j, inner, m) && Subtracts(tools, i) && Subtracts(tools, j)
    requires Trusted(tools, m) && Decides(tools.solver) && InventsNothing(tools)
    ensures result.Some? && Exact([], Until(i, outer), Twice(i, j, inner), m, result.value)
  {
    hide *;
    NestScoped(i, outer, j, inner, m);
    CountingSummarised(j, inner, m, tools);
    var child := BuildNestedSummary([], Until(j, inner), Counting(j), m, tools);
    var sum := child.value;
    ghost var before := Entering(i, outer, j, m);
    ExactShape([], Until(j, inner), Counting(j), m, sum);
    EnteringShaped(i, outer, j, m);
    TrustedParts(tools, m);
    ChildExits(i, outer, j, inner, m);
    EntryDecided([], Until(j, inner), Counting(j), m, before, sum, tools.solver);
    SolverSees(EntryQuery(before, m, sum), tools.solver);
    NestSummarised(i, outer, j, inner, m, tools, sum);
    result := BuildNestedSummary([], Until(i, outer), Twice(i, j, inner), m, tools);
  }

  lemma CountingScoped(c: nat, m: nat)
    requires c < m
    ensures WellScoped(Counting(c), m)
  {
    hide Known, Occurs, QuantifierFree, Scalar;
    NextKnown(c, m);
    assert WellScoped(Skip, m);
  }

  lemma NestScoped(i: nat, outer: Term, j: nat, inner: Term, m: nat)
    requires Apart(i, outer, j, inner, m)
    ensures i < m && j < m && Bounds(i, outer, m) && Bounds(j, inner, m)
    ensures AllScalar([], m) && WellScoped(Twice(i, j, inner), m) && WellScoped(Counting(j), m)
    ensures Scalar(Until(i, outer).left, m) && Scalar(Until(i, outer).right, m)
    ensures Scalar(Until(j, inner).left, m) && Scalar(Until(j, inner).right, m)
  {
    hide Known, Occurs, QuantifierFree;
    NextKnown(i, m);
    NextKnown(j, m);
    ZeroScalar(m);
    CountingScoped(i, m);
    CountingScoped(j, m);
    assert AllScalar([], m);
    assert WellScoped(Nest([], Until(j, inner), Counting(j), Counting(i)), m);
  }

  lemma ChildExits(i: nat, outer: Term, j: nat, inner: Term, m: nat)
    requires Bounds(j, inner, m)
    ensures AlwaysExits([], Until(j, inner), Counting(j), m, Entering(i, outer, j, m))
  {
    hide Known, Occurs, QuantifierFree, LoopRuns, Eval, Store;
    var before := Entering(i, outer, j, m);
    forall e: Env, s: State | |s| == m && Holds(before.pc, Store(e, m, s))
      ensures exists trace :: LoopRuns([], Until(j, inner), Counting(j), e, Reached(before, m, e, s), trace)
    {
      CountingExits(j, inner, m, e, Reached(before, m, e, s));
    }
  }

  lemma NestSummarised(i: nat, outer: Term, j: nat, inner: Term, m: nat, tools: Tools, sum: Summary)
    requires Apart(i, outer, j, inner, m) && Subtracts(tools, i) && Subtracts(tools, j)
    requires Trusted(tools, m) && Decides(tools.solver) && InventsNothing(tools)
    requires Summarisable([], Until(j, inner), Counting(j), m, tools)
    requires SummaryFrom([], Until(j, inner), Counting(j), m, tools) == Some(sum) && SummaryShaped(sum, m)
    requires Never(EntryQuery(Entering(i, outer, j, m), m, sum))
    ensures Summarisable([], Until(i, outer), Twice(i, j, inner), m, tools)
  {
    hide Known, Occurs, QuantifierFree, Never, Trusted, Decides, InventsNothing, CountsUp, SummarisableMacro,
        Explorable, Returns, IterationOf, Outer, Left, EntryQuery, SummaryFrom, Scalar;
    ghost var extra := set id: nat | id < m && (id == j || Occurs(id, inner));
    InnerNames(inner, j, m, extra);
    CounterValue(j, inner, m, tools, extra);
    LeftIsReset(i, outer, j, inner, m, sum, extra);
    OuterExplored(i, outer, j, inner, m, tools, sum);
    OuterCountsUp(i, outer, j, inner, m, sum);
    CountingMacro(Outer(i, outer, j, m, sum), i, outer, Twice(i, j, inner), m, tools);
    BothWays(i, outer, m);
  }

  lemma InnerNames(inner: Term, j: nat, m: nat, extra: set<nat>)
    requires Bounds(j, inner, m) && extra == set id: nat | id < m && (id == j || Occurs(id, inner))
    ensures Known(inner, 0, extra) && j in extra && j < m
    ensures forall id: nat :: id in extra <==> id == j || Occurs(id, inner)
  {
    hide Calls, QuantifierFree;
  }
}
