/** The header PHI: a state is replaced by its jump and its residual, with exactly its exits. */
module HeaderJumps {
  import opened Terms
  import opened PathWords
  import opened ClosedForms
  import opened Acceleration
  import opened Wrappers
  import PathHistory

  /** Optional quantifier elimination: an equivalent formula, or a failure. */
  type Eliminator = Term -> Option<Term>

  ghost predicate Eliminates(qe: Eliminator) {
    forall f :: qe(f).Some? ==> forall e :: Holds(qe(f).value, e) <==> Holds(f, e)
  }

  /* ---- functional counts ---- */

  /** Equations for the variable among the top-level conjuncts, solved for it. */
  function AffineBindings(f: Term, x: nat): seq<Term> {
    match f
    case App(And, args) => BindingsOfAll(args, x)
    case App(Eq, args) =>
      if |args| != 2 then []
      else if args[0] == Var(x) && !Occurs(x, args[1]) then [args[1]]
      else if args[1] == Var(x) && !Occurs(x, args[0]) then [args[0]]
      else []
    case _ => []
  }

  function BindingsOfAll(fs: seq<Term>, x: nat): seq<Term> {
    if fs == [] then [] else AffineBindings(fs[0], x) + BindingsOfAll(fs[1..], x)
  }

  /** In every model of the formula the variable has the value of every collected binding, and no
      binding depends on the variable: a binding is a function of the other symbols. */
  lemma {:induction false} BindingsAreForced(f: Term, x: nat, b: Term, e: Env)
    requires b in AffineBindings(f, x)
    ensures !Occurs(x, b)
    ensures Holds(f, e) ==> Eval(b, e) == Lookup(e, x)
    decreases f, 0
  {
    match f
    case App(And, args) =>
      BindingsOfConjuncts(args, x, b, e);
      if Holds(f, e) {
        assert f == ConjAll(args);
        assert forall i | 0 <= i < |args| :: Holds(args[i], e);
      }
    case App(Eq, args) =>
      if |args| == 2 {
        assert args == [args[0], args[1]];
        EvalPair(Eq, args[0], args[1], e);
      }
    case _ =>
  }

  lemma {:induction false} BindingsOfConjuncts(fs: seq<Term>, x: nat, b: Term, e: Env)
    requires b in BindingsOfAll(fs, x)
    ensures !Occurs(x, b)
    ensures (forall i | 0 <= i < |fs| :: Holds(fs[i], e)) ==> Eval(b, e) == Lookup(e, x)
    decreases fs, 0
  {
    if b in AffineBindings(fs[0], x) {
      BindingsAreForced(fs[0], x, b, e);
    } else {
      BindingsOfConjuncts(fs[1..], x, b, e);
      if forall i | 0 <= i < |fs| :: Holds(fs[i], e) {
        assert forall i | 0 <= i < |fs[1..]| :: Holds(fs[1..][i], e) by {
          forall i | 0 <= i < |fs[1..]| ensures Holds(fs[1..][i], e) { assert fs[1..][i] == fs[i + 1]; }
        }
      }
    }
  }

  /** The formula is the conjunct, or a conjunction with it among its conjuncts, at any depth. */
  ghost predicate Conjunct(c: Term, f: Term)
    decreases f, 1
  {
    c == f || (f.App? && f.op.And? && exists i | 0 <= i < |f.args| :: Conjunct(c, f.args[i]))
  }

  /** The equation says that the variable is the binding, which it does not occur in. */
  ghost predicate Equates(c: Term, x: nat, b: Term) {
    !Occurs(x, b) && (c == App(Eq, [Var(x), b]) || c == App(Eq, [b, Var(x)]))
  }

  /** Exactly the equations among the conjuncts with the variable alone on one side are collected. */
  lemma {:induction false} BindingsCollected(f: Term, x: nat, b: Term)
    ensures b in AffineBindings(f, x) <==> exists c :: Conjunct(c, f) && Equates(c, x, b)
    decreases f, 0
  {
    match f
    case App(And, args) =>
      BindingsAmong(args, x, b);
      if i :| 0 <= i < |args| && b in AffineBindings(args[i], x) {
        BindingsCollected(args[i], x, b);
        var c :| Conjunct(c, args[i]) && Equates(c, x, b);
        assert Conjunct(c, f);
      }
      if c :| Conjunct(c, f) && Equates(c, x, b) {
        var i :| 0 <= i < |args| && Conjunct(c, args[i]);
        BindingsCollected(args[i], x, b);
      }
    case App(Eq, args) =>
      if |args| == 2 { assert args == [args[0], args[1]]; }
      if b in AffineBindings(f, x) { assert Conjunct(f, f) && Equates(f, x, b); }
    case _ =>
  }

  lemma {:induction false} BindingsAmong(fs: seq<Term>, x: nat, b: Term)
    ensures b in BindingsOfAll(fs, x) <==> exists i | 0 <= i < |fs| :: b in AffineBindings(fs[i], x)
    decreases |fs|
  {
    if fs != [] {
      BindingsAmong(fs[1..], x, b);
      if i :| 0 <= i < |fs[1..]| && b in AffineBindings(fs[1..][i], x) { assert fs[i + 1] == fs[1..][i]; }
      if i :| 0 <= i < |fs| && b in AffineBindings(fs[i], x) { assert i > 0 ==> fs[1..][i - 1] == fs[i]; }
    }
  }

  /** Whether the binding is the count on every state of the jump. */
  function BindingQuery(path: Term, quantifierFree: Term, count: nat, binding: Term): Term {
    Conj(Conj(path, quantifierFree), Negate(Equals(Var(count), binding)))
  }

  /** A binding always is, so a solver that decides proves the first. */
  lemma BindingProved(path: Term, f: Term, count: nat, binding: Term, solver: Solver)
    requires binding in AffineBindings(f, count) && Decides(solver)
    ensures solver(BindingQuery(path, f, count, binding)).Unsat?
  {
    var q := BindingQuery(path, f, count, binding);
    forall e ensures !Holds(q, e) {
      BindingsAreForced(f, count, binding, e);
      VarMeans(count, e);
      hide Eval;
    }
    if !solver(q).Unsat? { NotRefuted(q, solver); }
  }

  lemma NotRefuted(q: Term, solver: Solver)
    requires Decides(solver) && !solver(q).Unsat?
    ensures exists e :: Holds(q, e)
  {
    assert Holds(q, solver(q).model);
  }

  /** The count as a function of the other symbols, if an equation for it is found. */
  function PreferredCount(firstBreak: Term, count: nat, qe: Eliminator, simplify: Rewriter): Term {
    var f := qe(firstBreak);
    if f.None? || AffineBindings(f.value, count) == [] then Var(count) else simplify(AffineBindings(f.value, count)[0])
  }

  lemma BindingFits(path: Term, firstBreak: Term, f: Term, count: nat, binding: Term, qe: Eliminator,
      simplify: Rewriter, solver: Solver)
    requires Eliminates(qe) && Preserves(simplify) && Sound(solver) && qe(firstBreak) == Some(f)
    requires binding in AffineBindings(f, count) && solver(BindingQuery(path, f, count, binding)).Unsat?
    ensures forall e | Holds(path, e) && Holds(firstBreak, e) :: Eval(simplify(binding), e) == Lookup(e, count)
    ensures !Occurs(count, simplify(binding))
  {
    hide AffineBindings;
    forall e | Holds(path, e) && Holds(firstBreak, e) ensures Eval(simplify(binding), e) == Lookup(e, count) {
      assert !Holds(BindingQuery(path, f, count, binding), e);
      assert Holds(f, e);
      assert Eval(Var(count), e) == Lookup(e, count);
    }
    BindingsAreForced(f, count, binding, Env(map[], (n, vs) => 0));
  }

  lemma RelationalCount(count: nat)
    ensures forall e :: Eval(Var(count), e) == Lookup(e, count)
  {
  }

  /** Prefer a binding the solver proves equal to the count on every state of the jump; otherwise
      the count stays a constrained symbol. */
  method FunctionalCount(path: Term, firstBreak: Term, count: nat, qe: Eliminator, simplify: Rewriter, solver: Solver)
    returns (pathCount: Term)
    requires Eliminates(qe) && Preserves(simplify) && Sound(solver)
    ensures forall e :: Holds(path, e) && Holds(firstBreak, e) ==> Eval(pathCount, e) == Lookup(e, count)
    ensures pathCount == Var(count) || !Occurs(count, pathCount)
    ensures
      var f := qe(firstBreak);
      var bindings := if f.None? then [] else AffineBindings(f.value, count);
      || (pathCount == Var(count)
          && forall i | 0 <= i < |bindings| :: !solver(BindingQuery(path, f.value, count, bindings[i])).Unsat?)
      || exists i | 0 <= i < |bindings| ::
           && pathCount == simplify(bindings[i]) && solver(BindingQuery(path, f.value, count, bindings[i])).Unsat?
           && forall j | 0 <= j < i :: !solver(BindingQuery(path, f.value, count, bindings[j])).Unsat?
    ensures Decides(solver) ==> pathCount == PreferredCount(firstBreak, count, qe, simplify)
  {
    hide AffineBindings, BindingQuery, Occurs, Eval, Sound, Decides, Preserves, Eliminates;
    pathCount := Var(count);
    RelationalCount(count);
    var quantifierFree := qe(firstBreak);
    if quantifierFree.None? { return; }
    var bindings := AffineBindings(quantifierFree.value, count);
    if Decides(solver) && bindings != [] { BindingProved(path, quantifierFree.value, count, bindings[0], solver); }
    var i := 0;
    while i < |bindings|
      invariant 0 <= i <= |bindings| && pathCount == Var(count)
      invariant forall j | 0 <= j < i ::
          !solver(BindingQuery(path, quantifierFree.value, count, bindings[j])).Unsat?
    {
      var binding := bindings[i];
      var refuted := BindingQuery(path, quantifierFree.value, count, binding);
      if solver(refuted).Unsat? {
        BindingFits(path, firstBreak, quantifierFree.value, count, binding, qe, simplify, solver);
        return simplify(binding);
      }
      i := i + 1;
    }
  }

  /* ---- the accelerator ---- */

  datatype PathAcceleration = PathAcceleration(jump: Symbolic, covered: Term, pathCount: Term)

  ghost predicate Shaped(loop: Loop, st: Symbolic) {
    WellFormed(loop) && |st.header| == |loop.params| && Plain(st.header)
  }

  /** What a jump is: from every source state with a first break at k, and from no other, it leads
      to the state after k copies of the word, on the path count k. */
  ghost predicate JumpOf(loop: Loop, st: Symbolic, star: Word, count: nat, acc: PathAcceleration, sol: Solution,
      ind: nat) {
    && Shaped(loop, st) && Solves(loop, star, ind, sol) && |sol.oneStep| == |loop.params| == |acc.jump.header|
    && Plain(acc.jump.header)
    && (forall e :: Holds(acc.jump.path, e) <==>
        Holds(st.path, e) && FirstBreak(loop, sol, e, HeaderState(st, e), Lookup(e, count)))
    && (forall e :: Holds(acc.jump.path, e) ==>
          HeaderState(acc.jump, e) == Iterated(loop, sol, e, HeaderState(st, e), Lookup(e, count)))
    && (forall e :: Holds(acc.jump.path, e) ==> Eval(acc.pathCount, e) == Lookup(e, count))
    && (forall e :: Holds(acc.covered, e) <==> exists k: nat :: FirstBreak(loop, sol, e, HeaderState(st, e), k))
  }

  /** The star can be jumped from some state of the path: its copies reach a first break. */
  ghost predicate CanBreak(loop: Loop, st: Symbolic, star: Word, sol: Solution, ind: nat) {
    && Shaped(loop, st) && Solves(loop, star, ind, sol) && |sol.oneStep| == |loop.params|
    && exists e: Env, k: nat :: BreaksFrom(loop, st, sol, e, k)
  }

  ghost predicate BreaksFrom(loop: Loop, st: Symbolic, sol: Solution, e: Env, k: nat)
    requires Shaped(loop, st) && |sol.oneStep| == |loop.params|
  {
    Holds(st.path, e) && FirstBreak(loop, sol, e, HeaderState(st, e), k)
  }

  /** The star has a closed form and can be jumped from some state of the path. */
  ghost predicate Jumpable(loop: Loop, st: Symbolic, star: Word, ind: nat, simplify: Rewriter, recurrence: Recurrence)
    requires Distinct(loop.params)
  {
    Solvable(star, loop.trs, loop.params, ind, simplify, recurrence) && exists sol :: CanBreak(loop, st, star, sol, ind)
  }

  /** All solutions of a star have the same iterates, guards and first breaks. */
  lemma {:induction false} SolutionsAlike(loop: Loop, star: Word, ind: nat, a: Solution, b: Solution, e: Env, s: State,
      k: nat)
    requires WellFormed(loop) && Solves(loop, star, ind, a) && Solves(loop, star, ind, b)
    requires |s| == |loop.params| == |a.oneStep| == |b.oneStep|
    ensures Iterated(loop, a, e, s, k) == Iterated(loop, b, e, s, k)
    ensures GuardAt(loop, a, e, s, k) <==> GuardAt(loop, b, e, s, k)
  {
    hide WellFormed, Closes, Along, GuardsAlong, Over, AllOver, Eval;
    if k > 0 { SolutionsAlike(loop, star, ind, a, b, e, s, k - 1); }
  }

  lemma BreaksAlike(loop: Loop, st: Symbolic, star: Word, ind: nat, a: Solution, b: Solution)
    requires CanBreak(loop, st, star, a, ind) && WellFormed(loop) && Solves(loop, star, ind, b)
        && |b.oneStep| == |loop.params|
    ensures CanBreak(loop, st, star, b, ind)
  {
    hide WellFormed, Solves, GuardAt, Iterated;
    var e: Env, k: nat :| BreaksFrom(loop, st, a, e, k);
    var s := HeaderState(st, e);
    forall t: nat ensures GuardAt(loop, a, e, s, t) <==> GuardAt(loop, b, e, s, t) {
      SolutionsAlike(loop, star, ind, a, b, e, s, t);
    }
    assert BreaksFrom(loop, st, b, e, k);
  }

  /** _accelerate_path: a certified jump along copies of the star. With a solver that decides there is
      one exactly if the star has a closed form and can be jumped from some state of the path. */
  method Accelerate(loop: Loop, st: Symbolic, star: Word, ind: nat, count: nat, probe: nat,
                    simplify: Rewriter, recurrence: Recurrence, qe: Eliminator, solver: Solver)
    returns (result: Option<PathAcceleration>, ghost sol: Solution)
    requires Shaped(loop, st) && FreshNames(loop, st, ind, count, probe)
    requires Simplifies(simplify) && ProposesPlain(recurrence) && Eliminates(qe) && Sound(solver)
    ensures result.Some? ==> JumpOf(loop, st, star, count, result.value, sol, ind)
    ensures result.Some? ==> |sol.closed| == |loop.params|
    ensures result.Some? && Decides(solver) ==>
      var firstBreak := FirstBreakFormula(loop, sol, st.header, ind, count, probe);
      result.value.pathCount == PreferredCount(firstBreak, count, qe, simplify)
    ensures Distinct(loop.params)
    ensures result.Some? ==> Jumpable(loop, st, star, ind, simplify, recurrence)
    ensures Decides(solver) && Jumpable(loop, st, star, ind, simplify, recurrence) ==> result.Some?
    ensures Decides(solver) && Solvable(star, loop.trs, loop.params, ind, simplify, recurrence) ==>
        Solves(loop, star, ind, sol)
  {
    sol := Solution(Flag(true), [], []);
    result := None;
    if star == [] { return; }
    var solution := SolveComposite(star, loop.trs, loop.params, ind, simplify, recurrence, solver);
    if solution.None? { return; }
    sol := solution.value;
    hide *;
    SolutionReady(loop, st, star, ind, count, probe, sol);
    BreakFeasible(loop, st, star, ind, count, probe, sol, solver);
    AnyBreak(loop, st, star, ind, sol, simplify, recurrence);
    var closed := ClosedFromCurrent(loop, solution.value, st.header);
    var firstBreak := FirstBreakFormula(loop, solution.value, st.header, ind, count, probe);
    if !solver(Conj(st.path, firstBreak)).Sat? { return; }
    SimplifiesPreserves(simplify);
    var pathCount := FunctionalCount(st.path, firstBreak, count, qe, simplify, solver);
    var jump := Symbolic(Conj(st.path, firstBreak), ReplaceAll(closed, map[Var(ind) := Var(count)]));
    var acc := PathAcceleration(jump, Exists(count, firstBreak), pathCount);
    JumpIsJump(loop, st, star, ind, count, probe, sol, acc);
    result := Some(acc);
  }

  lemma AnyBreak(loop: Loop, st: Symbolic, star: Word, ind: nat, sol: Solution, simplify: Rewriter,
      recurrence: Recurrence)
    requires Distinct(loop.params) && Solvable(star, loop.trs, loop.params, ind, simplify, recurrence)
    requires WellFormed(loop) && Solves(loop, star, ind, sol) && |sol.oneStep| == |loop.params|
    ensures Jumpable(loop, st, star, ind, simplify, recurrence) <==> CanBreak(loop, st, star, sol, ind)
  {
    hide WellFormed, Solves, Solvable, CanBreak;
    if other :| CanBreak(loop, st, star, other, ind) { BreaksAlike(loop, st, star, ind, other, sol); }
  }

  /** The query for a first break decides whether there is one. */
  lemma BreakFeasible(loop: Loop, st: Symbolic, star: Word, ind: nat, count: nat, probe: nat, sol: Solution,
      solver: Solver)
    requires Shaped(loop, st) && FreshNames(loop, st, ind, count, probe) && Distinct(loop.params) && Sound(solver)
    requires Ready(loop, star, ind, sol, st.header) && |st.header| == |loop.params| == |sol.closed| == |sol.oneStep|
    ensures var q := Conj(st.path, FirstBreakFormula(loop, sol, st.header, ind, count, probe));
      && (solver(q).Sat? ==> CanBreak(loop, st, star, sol, ind))
      && (Decides(solver) && CanBreak(loop, st, star, sol, ind) ==> solver(q).Sat?)
    ensures Solves(loop, star, ind, sol)
  {
    hide FirstBreakFormula, Composite, Closes, Occurs, QuantifierFree, FirstBreak, Unused, DependsOn, WellFormed, Eval;
    var firstBreak := FirstBreakFormula(loop, sol, st.header, ind, count, probe);
    var q := Conj(st.path, firstBreak);
    if solver(q).Sat? {
      var e := solver(q).model;
      FirstBreakMeans(loop, star, ind, sol, st.header, count, probe, e);
      PositiveBreak(loop, sol, e, HeaderState(st, e), Lookup(e, count));
      assert BreaksFrom(loop, st, sol, e, Lookup(e, count));
    }
    if CanBreak(loop, st, star, sol, ind) {
      var e: Env, k: nat :| BreaksFrom(loop, st, sol, e, k);
      var ek := Set(e, count, k);
      HeaderAgree(loop, st, ind, count, probe, e, k);
      FreshAgree(loop, st, ind, count, probe, e, k);
      BreakAgree(loop, star, ind, sol, e, ek, count, HeaderState(st, e), k);
      FirstBreakMeans(loop, star, ind, sol, st.header, count, probe, ek);
      assert Holds(q, ek);
    }
  }

  lemma FreshAgree(loop: Loop, st: Symbolic, ind: nat, count: nat, probe: nat, e: Env, k: int)
    requires FreshNames(loop, st, ind, count, probe)
    ensures AgreeBut(e, Set(e, count, k), count) && Unused(loop, count) && Lookup(Set(e, count, k), count) == k
  {
    SetAgrees(e, count, k);
  }

  lemma SimplifiesPreserves(simplify: Rewriter)
    requires Simplifies(simplify)
    ensures Preserves(simplify)
  {
  }

  lemma SolutionReady(loop: Loop, st: Symbolic, star: Word, ind: nat, count: nat, probe: nat, sol: Solution)
    requires Shaped(loop, st) && FreshNames(loop, st, ind, count, probe)
    requires Distinct(loop.params) && Composite(star, loop.trs, loop.params, sol.guard, sol.oneStep)
    requires Closes(sol.oneStep, sol.closed, loop.params, ind) && Plain(sol.closed)
    ensures Ready(loop, star, ind, sol, st.header) && Distinct(loop.params)
    ensures |st.header| == |loop.params| == |sol.closed| && |ClosedFromCurrent(loop, sol, st.header)| == |loop.params|
  {
    hide Composable, Over, AllOver, GuardsAlong, Along, Mentions;
  }

  lemma JumpIsJump(loop: Loop, st: Symbolic, star: Word, ind: nat, count: nat, probe: nat, sol: Solution,
      acc: PathAcceleration)
    requires Shaped(loop, st) && FreshNames(loop, st, ind, count, probe) && Distinct(loop.params)
    requires Ready(loop, star, ind, sol, st.header)
    requires |st.header| == |loop.params| == |sol.closed|
    requires var firstBreak := FirstBreakFormula(loop, sol, st.header, ind, count, probe);
      && acc.jump.path == Conj(st.path, firstBreak)
      && acc.jump.header == ReplaceAll(ClosedFromCurrent(loop, sol, st.header), map[Var(ind) := Var(count)])
      && acc.covered == Exists(count, firstBreak)
      && forall e :: Holds(st.path, e) && Holds(firstBreak, e) ==> Eval(acc.pathCount, e) == Lookup(e, count)
    ensures JumpOf(loop, st, star, count, acc, sol, ind)
  {
    hide FirstBreakFormula, Composite, Closes, Replace, Occurs, QuantifierFree, FirstBreak, Unused, DependsOn,
        WellFormed, Eval,
         ClosedFromCurrent, Iterate, Conj;
    var firstBreak := FirstBreakFormula(loop, sol, st.header, ind, count, probe);
    forall e ensures Holds(firstBreak, e) <==> FirstBreak(loop, sol, e, HeaderState(st, e), Lookup(e, count)) {
      FirstBreakMeans(loop, star, ind, sol, st.header, count, probe, e);
    }
    ClosedWidth(loop, sol, st.header);
    forall e | Holds(acc.jump.path, e)
      ensures Lookup(e, count) >= 0
      ensures HeaderState(acc.jump, e) == Iterated(loop, sol, e, HeaderState(st, e), Lookup(e, count))
    {
      PositiveBreak(loop, sol, e, HeaderState(st, e), Lookup(e, count));
      JumpHeader(loop, st, star, ind, count, sol, e);
    }
    forall i | 0 <= i < |acc.jump.header| ensures QuantifierFree(acc.jump.header[i]) {
      JumpHeaderPlain(loop, st, sol, ind, count, i);
    }
    forall e ensures Holds(acc.covered, e) <==> exists k: nat :: FirstBreak(loop, sol, e, HeaderState(st, e), k) {
      CoveredMeans(loop, st, star, ind, count, probe, sol, e);
    }
  }

  lemma JumpHeaderPlain(loop: Loop, st: Symbolic, sol: Solution, ind: nat, count: nat, i: nat)
    requires Distinct(loop.params) && |st.header| == |loop.params| && Plain(sol.closed) && Plain(st.header)
    requires i < |ClosedFromCurrent(loop, sol, st.header)|
    ensures QuantifierFree(Replace(ClosedFromCurrent(loop, sol, st.header)[i], map[Var(ind) := Var(count)]))
  {
    ClosedIsPlain(loop, sol, st.header, i);
    ReplaceQuantifierFree(ClosedFromCurrent(loop, sol, st.header)[i], map[Var(ind) := Var(count)]);
  }

  lemma PositiveBreak(loop: Loop, sol: Solution, e: Env, s: State, k: int)
    requires WellFormed(loop) && |s| == |loop.params| == |sol.oneStep|
    ensures FirstBreak(loop, sol, e, s, k) ==> k >= 1
  {
  }

  lemma JumpHeader(loop: Loop, st: Symbolic, star: Word, ind: nat, count: nat, sol: Solution, e: Env)
    requires Ready(loop, star, ind, sol, st.header) && Distinct(loop.params) && Lookup(e, count) >= 0
    ensures |ClosedFromCurrent(loop, sol, st.header)| == |loop.params|
    ensures EvalAll(ReplaceAll(ClosedFromCurrent(loop, sol, st.header), map[Var(ind) := Var(count)]), e)
         == Iterated(loop, sol, e, HeaderState(st, e), Lookup(e, count))
  {
    hide Composite, Closes, Replace, Occurs, QuantifierFree, Unused, DependsOn, WellFormed, Eval, ClosedFromCurrent,
        Iterate;
    var k, m := Lookup(e, count), map[Var(ind) := Var(count)];
    var closed := ClosedFromCurrent(loop, sol, st.header);
    ClosedReaches(loop, star, ind, sol, st.header, e, k);
    forall i | 0 <= i < |closed| ensures Eval(Replace(closed[i], m), e) == Eval(closed[i], Set(e, ind, k)) {
      ClosedIsPlain(loop, sol, st.header, i);
      NoCapture(closed[i], m);
      Renamed(closed[i], ind, count, e);
    }
    assert EvalAll(ReplaceAll(closed, m), e) == EvalAll(closed, Set(e, ind, k));
  }

  lemma ClosedIsPlain(loop: Loop, sol: Solution, header: seq<Term>, i: nat)
    requires Distinct(loop.params) && |header| == |loop.params| && Plain(sol.closed) && Plain(header)
    requires i < |ClosedFromCurrent(loop, sol, header)|
    ensures QuantifierFree(ClosedFromCurrent(loop, sol, header)[i])
  {
    ReplaceQuantifierFree(sol.closed[i], ParamMap(loop.params, header));
  }

  /** Replacing a variable by another name reads it as that name's value. */
  lemma Renamed(t: Term, x: nat, y: nat, e: Env)
    requires QuantifierFree(t)
    ensures Eval(Replace(t, map[Var(x) := Var(y)]), e) == Eval(t, Set(e, x, Lookup(e, y)))
  {
    NoCapture(t, map[Var(x) := Var(y)]);
    EvalReplace(t, map[Var(x) := Var(y)], e, Set(e, x, Lookup(e, y)));
  }

  lemma CoveredMeans(loop: Loop, st: Symbolic, star: Word, ind: nat, count: nat, probe: nat, sol: Solution, e: Env)
    requires Shaped(loop, st) && FreshNames(loop, st, ind, count, probe) && Distinct(loop.params)
    requires Ready(loop, star, ind, sol, st.header)
    requires |st.header| == |loop.params| == |sol.closed|
    ensures Holds(Exists(count, FirstBreakFormula(loop, sol, st.header, ind, count, probe)), e)
        <==> exists k: nat :: FirstBreak(loop, sol, e, HeaderState(st, e), k)
  {
    hide FirstBreakFormula, Composite, Closes, Occurs, QuantifierFree, FirstBreak, Unused, DependsOn, WellFormed, Eval,
        Exists;
    var firstBreak := FirstBreakFormula(loop, sol, st.header, ind, count, probe);
    var s := HeaderState(st, e);
    forall n: int ensures Holds(firstBreak, Set(e, count, n)) <==> FirstBreak(loop, sol, e, s, n) {
      var en := Set(e, count, n);
      FirstBreakMeans(loop, star, ind, sol, st.header, count, probe, en);
      SetAgrees(e, count, n);
      EvalUnused(st.header, e, en, count);
      BreakAgree(loop, star, ind, sol, e, en, count, s, n);
    }
    if k: int :| FirstBreak(loop, sol, e, s, k) { PositiveBreak(loop, sol, e, s, k); }
  }

  lemma BreakAgree(loop: Loop, star: Word, ind: nat, sol: Solution, e: Env, e': Env, name: nat, s: State, k: int)
    requires WellFormed(loop) && Solves(loop, star, ind, sol) && Unused(loop, name) && AgreeBut(e, e', name)
    requires |s| == |loop.params| == |sol.oneStep|
    ensures FirstBreak(loop, sol, e, s, k) <==> FirstBreak(loop, sol, e', s, k)
  {
    hide Composite, Closes, Unused, AgreeBut, WellFormed, GuardAt;
    SolvesParts(loop, star, ind, sol);
    ParamsDistinct(loop);
    GuardIsOver(loop, star, sol);
    forall t: nat ensures GuardAt(loop, sol, e, s, t) <==> GuardAt(loop, sol, e', s, t) {
      IterateAgree(loop, sol, e, e', name, s, t);
    }
  }

  /* ---- the header PHI ---- */

  /** A state after the PHI, with what the jump to it appended to the loop's exact path prefix. */
  datatype Successor = Successor(state: Symbolic, appended: Option<PathHistory.Segment>)

  ghost function AppendedWord(s: Successor, e: Env): Word {
    match s.appended
    case None => []
    case Some(segment) => PathHistory.SegmentWord(segment, e)
  }

  /** A run of the loop from a symbolic state to its exit. */
  ghost predicate RunOf(loop: Loop, st: Symbolic, e: Env, word: Word, t: State)
    requires Shaped(loop, st)
  {
    Holds(st.path, e) && Exits(loop, word, e, HeaderState(st, e), t)
  }

  /** The same for a successor, whose run continues the word already appended to the prefix. */
  ghost predicate ContinuedRun(loop: Loop, s: Successor, e: Env, word: Word, t: State)
    requires Shaped(loop, s.state)
  {
    exists rest :: word == AppendedWord(s, e) + rest && RunOf(loop, s.state, e, rest, t)
  }

  /** The successors have exactly the runs to exit of the source: nothing is lost and nothing is
      added. The count is a name of the jump, so it may take any value. */
  ghost predicate SameExits(loop: Loop, st: Symbolic, count: nat, successors: seq<Successor>)
    requires Shaped(loop, st) && forall i | 0 <= i < |successors| :: Shaped(loop, successors[i].state)
  {
    forall e: Env, word, t ::
      RunOf(loop, st, e, word, t) <==>
        exists i, k :: 0 <= i < |successors| && ContinuedRun(loop, successors[i], Set(e, count, k), word, t)
  }

  function Residual(st: Symbolic, acc: PathAcceleration): Symbolic {
    Symbolic(Conj(st.path, Negate(acc.covered)), st.header)
  }

  function Jumped(star: Word, acc: PathAcceleration): Successor {
    Successor(acc.jump, Some(PathHistory.SymbolicPower(star, acc.pathCount)))
  }

  /** The state is split along a jump: the jump, and the residual unless it is proved empty. */
  ghost predicate Split(loop: Loop, st: Symbolic, ind: nat, count: nat, star: Word, acc: PathAcceleration,
      sol: Solution,
                        successors: seq<Successor>)
  {
    && JumpOf(loop, st, star, count, acc, sol, ind)
    && (|| successors == [Jumped(star, acc), Successor(Residual(st, acc), None)]
        || (successors == [Jumped(star, acc)] && forall e :: !Holds(Residual(st, acc).path, e)))
  }

  ghost predicate SplitBy(loop: Loop, st: Symbolic, ind: nat, count: nat, star: Word, successors: seq<Successor>) {
    exists acc, sol :: Split(loop, st, ind, count, star, acc, sol, successors)
  }

  /** The state goes on as it is, or is split along a jump of one of the candidates. */
  ghost predicate PhiCases(loop: Loop, st: Symbolic, candidates: seq<Word>, ind: nat, count: nat,
      successors: seq<Successor>) {
    || successors == [Successor(st, None)]
    || exists star, acc, sol :: star in candidates && Split(loop, st, ind, count, star, acc, sol, successors)
  }

  /** None of the first n candidates can be jumped. */
  ghost predicate NoneJumpable(loop: Loop, st: Symbolic, candidates: seq<Word>, n: nat, ind: nat, simplify: Rewriter,
                               recurrence: Recurrence)
    requires Distinct(loop.params) && n <= |candidates|
  {
    forall i | 0 <= i < n :: !Jumpable(loop, st, candidates[i], ind, simplify, recurrence)
  }

  lemma OneMoreNot(loop: Loop, st: Symbolic, candidates: seq<Word>, n: nat, ind: nat, simplify: Rewriter,
      recurrence: Recurrence)
    requires Distinct(loop.params) && n < |candidates|
        && NoneJumpable(loop, st, candidates, n, ind, simplify, recurrence)
    requires !Jumpable(loop, st, candidates[n], ind, simplify, recurrence)
    ensures NoneJumpable(loop, st, candidates, n + 1, ind, simplify, recurrence)
  {
    hide Jumpable;
  }

  lemma NoneAtFirst(loop: Loop, st: Symbolic, candidates: seq<Word>, ind: nat, simplify: Rewriter,
      recurrence: Recurrence)
    requires Distinct(loop.params)
    ensures NoneJumpable(loop, st, candidates, 0, ind, simplify, recurrence)
  {
  }

  /** From every state of the path the copies of the star reach a first break, so nothing is left beside
      the jump. */
  ghost predicate EveryBreaks(loop: Loop, st: Symbolic, star: Word, ind: nat) {
    exists sol :: AllBreak(loop, st, star, ind, sol)
  }

  ghost predicate AllBreak(loop: Loop, st: Symbolic, star: Word, ind: nat, sol: Solution) {
    && Shaped(loop, st) && Solves(loop, star, ind, sol) && |sol.oneStep| == |loop.params|
    && forall e | Holds(st.path, e) :: exists k: nat :: FirstBreak(loop, sol, e, HeaderState(st, e), k)
  }

  lemma AllBreakAlike(loop: Loop, st: Symbolic, star: Word, ind: nat, a: Solution, b: Solution)
    requires AllBreak(loop, st, star, ind, a) && Solves(loop, star, ind, b) && |b.oneStep| == |loop.params|
    ensures AllBreak(loop, st, star, ind, b)
  {
    hide WellFormed, Solves, GuardAt, Iterated;
    forall e | Holds(st.path, e) ensures exists k: nat :: FirstBreak(loop, b, e, HeaderState(st, e), k) {
      var s := HeaderState(st, e);
      var k: nat :| FirstBreak(loop, a, e, s, k);
      forall t: nat ensures GuardAt(loop, a, e, s, t) <==> GuardAt(loop, b, e, s, t) {
        SolutionsAlike(loop, star, ind, a, b, e, s, t);
      }
      assert FirstBreak(loop, b, e, s, k);
    }
  }

  /** With a solver that decides the residual is left out exactly if there is none. */
  lemma ResidualDecided(loop: Loop, st: Symbolic, star: Word, ind: nat, count: nat, acc: PathAcceleration,
      sol: Solution,
      solver: Solver)
    requires JumpOf(loop, st, star, count, acc, sol, ind) && Decides(solver)
    ensures solver(Residual(st, acc).path).Unsat? <==> EveryBreaks(loop, st, star, ind)
  {
    hide Solves, FirstBreak, Eval;
    var path := Residual(st, acc).path;
    assert solver(path).Unsat? ==> forall e :: !Holds(path, e);
    assert solver(path).Unsat? ==> AllBreak(loop, st, star, ind, sol);
    if !solver(path).Unsat? { NotRefuted(path, solver); }
    if other :| AllBreak(loop, st, star, ind, other) { AllBreakAlike(loop, st, star, ind, other, sol); }
  }

  /** The successors of a jump: with the residual, unless it is proved empty. */
  method SplitAlong(loop: Loop, st: Symbolic, star: Word, ind: nat, count: nat, probe: nat, acc: PathAcceleration,
                    ghost sol: Solution, solver: Solver)
    returns (successors: seq<Successor>)
    requires Shaped(loop, st) && Deterministic(loop) && FreshNames(loop, st, ind, count, probe) && Sound(solver)
    requires JumpOf(loop, st, star, count, acc, sol, ind)
    ensures forall i | 0 <= i < |successors| :: Shaped(loop, successors[i].state)
    ensures SameExits(loop, st, count, successors)
    ensures SplitBy(loop, st, ind, count, star, successors)
    ensures successors == [Jumped(star, acc)] +
      if solver(Residual(st, acc).path).Unsat? then [] else [Successor(Residual(st, acc), None)]
    ensures Decides(solver) ==> (|successors| == 1 <==> EveryBreaks(loop, st, star, ind))
  {
    hide Deterministic, SameExits, JumpOf, FreshNames, WellFormed, Plain, Sound, SplitBy, Decides, EveryBreaks;
    if Decides(solver) { ResidualDecided(loop, st, star, ind, count, acc, sol, solver); }
    var residual := Residual(st, acc);
    JumpShaped(loop, st, star, ind, count, sol, acc);
    successors := [Jumped(star, acc)];
    var empty := solver(residual.path).Unsat?;
    if !empty { successors := successors + [Successor(residual, None)]; }
    EmptyResidual(residual, solver);
    JumpAndResidual(loop, st, star, ind, count, probe, sol, acc, successors);
    IsSplit(loop, st, star, ind, count, acc, sol, successors);
  }

  /** AInstructionPhi::execute: the first candidate that accelerates gives a jump and, unless it is
      proved empty, a residual; if none does, the state goes on as it is. With a solver that decides
      the state is split along the first candidate that can be jumped, and goes on as it is exactly if
      there is none. */
  method HeaderPhi(loop: Loop, st: Symbolic, candidates: seq<Word>, ind: nat, count: nat, probe: nat,
                   simplify: Rewriter, recurrence: Recurrence, qe: Eliminator, solver: Solver)
    returns (successors: seq<Successor>, ghost taken: nat)
    requires Shaped(loop, st) && Deterministic(loop) && FreshNames(loop, st, ind, count, probe)
    requires Simplifies(simplify) && ProposesPlain(recurrence) && Eliminates(qe) && Sound(solver)
    ensures forall i | 0 <= i < |successors| :: Shaped(loop, successors[i].state)
    ensures SameExits(loop, st, count, successors)
    ensures PhiCases(loop, st, candidates, ind, count, successors)
    ensures Distinct(loop.params) && taken <= |candidates|
    ensures taken == |candidates| ==> successors == [Successor(st, None)]
    ensures taken < |candidates| ==>
      && Jumpable(loop, st, candidates[taken], ind, simplify, recurrence)
      && SplitBy(loop, st, ind, count, candidates[taken], successors)
      && (Decides(solver) ==> (|successors| == 1 <==> EveryBreaks(loop, st, candidates[taken], ind)))
    ensures Decides(solver) ==> NoneJumpable(loop, st, candidates, taken, ind, simplify, recurrence)
  {
    ParamsDistinct(loop);
    hide *;
    NoneAtFirst(loop, st, candidates, ind, simplify, recurrence);
    var i := 0;
    while i < |candidates|
      invariant 0 <= i <= |candidates|
      invariant Decides(solver) ==> NoneJumpable(loop, st, candidates, i, ind, simplify, recurrence)
    {
      var acceleration, sol := Accelerate(loop, st, candidates[i], ind, count, probe, simplify, recurrence, qe, solver);
      if acceleration.Some? {
        successors := SplitAlong(loop, st, candidates[i], ind, count, probe, acceleration.value, sol, solver);
        SplitIsCase(loop, st, candidates, ind, count, i, successors);
        return successors, i;
      }
      if Decides(solver) { OneMoreNot(loop, st, candidates, i, ind, simplify, recurrence); }
      i := i + 1;
    }
    successors, taken := [Successor(st, None)], i;
    Ordinary(loop, st, ind, count, probe);
    GoesOn(loop, st, candidates, ind, count);
  }

  lemma IsSplit(loop: Loop, st: Symbolic, star: Word, ind: nat, count: nat, acc: PathAcceleration, sol: Solution,
                successors: seq<Successor>)
    requires JumpOf(loop, st, star, count, acc, sol, ind)
    requires || successors == [Jumped(star, acc), Successor(Residual(st, acc), None)]
             || (successors == [Jumped(star, acc)] && forall e :: !Holds(Residual(st, acc).path, e))
    ensures SplitBy(loop, st, ind, count, star, successors)
  {
    hide JumpOf, Eval;
    assert Split(loop, st, ind, count, star, acc, sol, successors);
  }

  lemma SplitIsCase(loop: Loop, st: Symbolic, candidates: seq<Word>, ind: nat, count: nat, i: nat,
      successors: seq<Successor>)
    requires i < |candidates| && SplitBy(loop, st, ind, count, candidates[i], successors)
    ensures PhiCases(loop, st, candidates, ind, count, successors)
  {
    hide Split;
  }

  lemma GoesOn(loop: Loop, st: Symbolic, candidates: seq<Word>, ind: nat, count: nat)
    ensures PhiCases(loop, st, candidates, ind, count, [Successor(st, None)])
  {
    hide Split;
  }

  lemma JumpShaped(loop: Loop, st: Symbolic, star: Word, ind: nat, count: nat, sol: Solution, acc: PathAcceleration)
    requires Shaped(loop, st) && JumpOf(loop, st, star, count, acc, sol, ind)
    ensures Shaped(loop, acc.jump) && Shaped(loop, Residual(st, acc))
  {
  }

  lemma EmptyResidual(residual: Symbolic, solver: Solver)
    requires Sound(solver)
    ensures solver(residual.path).Unsat? ==> forall e :: !Holds(residual.path, e)
  {
  }

  lemma HeaderAgree(loop: Loop, st: Symbolic, ind: nat, count: nat, probe: nat, e: Env, k: int)
    requires FreshNames(loop, st, ind, count, probe)
    ensures HeaderState(st, Set(e, count, k)) == HeaderState(st, e)
    ensures Holds(st.path, Set(e, count, k)) <==> Holds(st.path, e)
  {
    SetAgrees(e, count, k);
    EvalUnused(st.header, e, Set(e, count, k), count);
    EvalAgree(st.path, e, Set(e, count, k));
  }

  /** A run to exit through the jump is a run of the source whose first break is the count. */
  lemma JumpRun(loop: Loop, st: Symbolic, star: Word, ind: nat, count: nat, probe: nat, sol: Solution,
      acc: PathAcceleration,
                e: Env, k: int, word: Word, t: State)
    requires Shaped(loop, st) && Deterministic(loop) && FreshNames(loop, st, ind, count, probe)
    requires JumpOf(loop, st, star, count, acc, sol, ind) && Shaped(loop, acc.jump)
    ensures ContinuedRun(loop, Jumped(star, acc), Set(e, count, k), word, t) <==>
      RunOf(loop, st, e, word, t) && FirstBreak(loop, sol, e, HeaderState(st, e), k)
  {
    hide Solves, FirstBreak, Deterministic, Exits, WellFormed, Plain, Iterate, Eval, Repeat, DependsOn, Occurs;
    var ek, s := Set(e, count, k), HeaderState(st, e);
    HeaderAgree(loop, st, ind, count, probe, e, k);
    SetAgrees(e, count, k);
    BreakAgree(loop, star, ind, sol, e, ek, count, s, k);
    assert Holds(acc.jump.path, ek) <==> Holds(st.path, e) && FirstBreak(loop, sol, e, s, k);
    if Holds(acc.jump.path, ek) {
      PositiveBreak(loop, sol, e, s, k);
      var mid := Iterated(loop, sol, e, s, k);
      IteratedAgree(loop, star, ind, sol, e, ek, count, s, k);
      assert HeaderState(acc.jump, ek) == mid;
      assert AppendedWord(Jumped(star, acc), ek) == Repeat(star, k);
      JumpIsExact(loop, star, ind, sol, e, s, k, word, t);
      forall rest ensures Exits(loop, rest, ek, mid, t) <==> Exits(loop, rest, e, mid, t) {
        ExitsAgree(loop, rest, e, ek, count, mid, t);
      }
    }
  }

  lemma IteratedAgree(loop: Loop, star: Word, ind: nat, sol: Solution, e: Env, e': Env, name: nat, s: State, k: nat)
    requires WellFormed(loop) && Solves(loop, star, ind, sol) && Unused(loop, name) && AgreeBut(e, e', name)
    requires |s| == |loop.params| == |sol.oneStep|
    ensures Iterated(loop, sol, e, s, k) == Iterated(loop, sol, e', s, k)
  {
    hide Composite, Closes, Unused, AgreeBut, WellFormed, GuardAt, Iterate;
    SolvesParts(loop, star, ind, sol);
    ParamsDistinct(loop);
    GuardIsOver(loop, star, sol);
    IterateAgree(loop, sol, e, e', name, s, k);
  }

  /** A run to exit through the residual is an uncovered run of the source. */
  lemma ResidualRun(loop: Loop, st: Symbolic, star: Word, ind: nat, count: nat, probe: nat, sol: Solution,
      acc: PathAcceleration,
                    e: Env, k: int, word: Word, t: State)
    requires Shaped(loop, st) && FreshNames(loop, st, ind, count, probe)
    requires JumpOf(loop, st, star, count, acc, sol, ind) && Shaped(loop, Residual(st, acc))
    ensures ContinuedRun(loop, Successor(Residual(st, acc), None), Set(e, count, k), word, t) <==>
      RunOf(loop, st, e, word, t) && !Holds(acc.covered, e)
  {
    hide Solves, FirstBreak, Exits, WellFormed, Plain, Iterate, Eval, DependsOn, Occurs;
    var ek, s := Set(e, count, k), HeaderState(st, e);
    HeaderAgree(loop, st, ind, count, probe, e, k);
    SetAgrees(e, count, k);
    assert Holds(acc.covered, ek) <==> Holds(acc.covered, e) by {
      forall l: nat ensures FirstBreak(loop, sol, e, s, l) <==> FirstBreak(loop, sol, ek, s, l) {
        BreakAgree(loop, star, ind, sol, e, ek, count, s, l);
      }
    }
    forall rest ensures Exits(loop, rest, ek, s, t) <==> Exits(loop, rest, e, s, t) {
      ExitsAgree(loop, rest, e, ek, count, s, t);
    }
    var residual := Residual(st, acc);
    ResidualHolds(st, acc, ek);
    assert RunOf(loop, residual, ek, word, t) <==> RunOf(loop, st, e, word, t) && !Holds(acc.covered, e);
    NothingAppended(loop, residual, ek, word, t);
  }

  /** A successor that appended nothing runs as its state does. */
  lemma NothingAppended(loop: Loop, st: Symbolic, e: Env, word: Word, t: State)
    requires Shaped(loop, st)
    ensures ContinuedRun(loop, Successor(st, None), e, word, t) <==> RunOf(loop, st, e, word, t)
  {
    hide RunOf, Shaped;
    assert forall rest: Word :: [] + rest == rest;
    if RunOf(loop, st, e, word, t) {
      assert word == AppendedWord(Successor(st, None), e) + word;
    }
  }

  /** Jump and residual together have exactly the exits of the unaccelerated loop. */
  lemma JumpAndResidual(loop: Loop, st: Symbolic, star: Word, ind: nat, count: nat, probe: nat, sol: Solution,
                        acc: PathAcceleration, successors: seq<Successor>)
    requires Shaped(loop, st) && Deterministic(loop) && FreshNames(loop, st, ind, count, probe)
    requires JumpOf(loop, st, star, count, acc, sol, ind)
    requires Shaped(loop, acc.jump) && Shaped(loop, Residual(st, acc))
    requires
      || successors == [Jumped(star, acc), Successor(Residual(st, acc), None)]
      || (successors == [Jumped(star, acc)] && forall e :: !Holds(Residual(st, acc).path, e))
    ensures SameExits(loop, st, count, successors)
  {
    hide ContinuedRun, FirstBreak, Deterministic, WellFormed, Plain, JumpOf, FreshNames, RunOf;
    JumpShape(loop, st, star, ind, count, sol, acc);
    forall e: Env, word, t
      ensures RunOf(loop, st, e, word, t) <==>
        exists i, k :: 0 <= i < |successors| && ContinuedRun(loop, successors[i], Set(e, count, k), word, t)
    {
      forall k: int
        ensures ContinuedRun(loop, Jumped(star, acc), Set(e, count, k), word, t) <==>
          RunOf(loop, st, e, word, t) && FirstBreak(loop, sol, e, HeaderState(st, e), k)
      {
        JumpRun(loop, st, star, ind, count, probe, sol, acc, e, k, word, t);
      }
      var residual := Successor(Residual(st, acc), None);
      forall k: int
        ensures ContinuedRun(loop, residual, Set(e, count, k), word, t) <==>
          RunOf(loop, st, e, word, t) && !Holds(acc.covered, e)
      {
        ResidualRun(loop, st, star, ind, count, probe, sol, acc, e, k, word, t);
      }
      CoveredIff(loop, st, star, ind, count, sol, acc, e);
      if RunOf(loop, st, e, word, t) {
        if Holds(acc.covered, e) {
          var k: nat :| FirstBreak(loop, sol, e, HeaderState(st, e), k);
          assert ContinuedRun(loop, successors[0], Set(e, count, k), word, t);
        } else {
          RunHolds(loop, st, e, word, t);
          ResidualHolds(st, acc, e);
          assert |successors| == 2;
          assert ContinuedRun(loop, successors[1], Set(e, count, 0), word, t);
        }
      }
    }
  }

  lemma JumpShape(loop: Loop, st: Symbolic, star: Word, ind: nat, count: nat, sol: Solution, acc: PathAcceleration)
    requires Shaped(loop, st) && JumpOf(loop, st, star, count, acc, sol, ind)
    ensures |sol.oneStep| == |loop.params|
  {
  }

  lemma CoveredIff(loop: Loop, st: Symbolic, star: Word, ind: nat, count: nat, sol: Solution, acc: PathAcceleration,
      e: Env)
    requires Shaped(loop, st) && JumpOf(loop, st, star, count, acc, sol, ind)
    ensures |sol.oneStep| == |loop.params|
    ensures Holds(acc.covered, e) <==> exists k: nat :: FirstBreak(loop, sol, e, HeaderState(st, e), k)
  {
  }

  lemma RunHolds(loop: Loop, st: Symbolic, e: Env, word: Word, t: State)
    requires Shaped(loop, st) && RunOf(loop, st, e, word, t)
    ensures Holds(st.path, e)
  {
  }

  lemma ResidualHolds(st: Symbolic, acc: PathAcceleration, e: Env)
    ensures Holds(Residual(st, acc).path, e) <==> Holds(st.path, e) && !Holds(acc.covered, e)
  {
  }

  /** Without acceleration the state itself is the only successor. */
  lemma Ordinary(loop: Loop, st: Symbolic, ind: nat, count: nat, probe: nat)
    requires Shaped(loop, st) && FreshNames(loop, st, ind, count, probe)
    ensures SameExits(loop, st, count, [Successor(st, None)])
  {
    hide Shaped, FreshNames, Exits;
    var successors := [Successor(st, None)];
    forall e: Env, word, t
      ensures RunOf(loop, st, e, word, t) <==>
        exists i, k :: 0 <= i < |successors| && ContinuedRun(loop, successors[i], Set(e, count, k), word, t)
    {
      forall k: int
        ensures ContinuedRun(loop, successors[0], Set(e, count, k), word, t) <==> RunOf(loop, st, e, word, t)
      {
        OrdinaryRun(loop, st, ind, count, probe, e, k, word, t);
      }
      if RunOf(loop, st, e, word, t) {
        assert ContinuedRun(loop, successors[0], Set(e, count, 0), word, t);
      }
    }
  }

  lemma OrdinaryRun(loop: Loop, st: Symbolic, ind: nat, count: nat, probe: nat, e: Env, k: int, word: Word, t: State)
    requires Shaped(loop, st) && FreshNames(loop, st, ind, count, probe)
    ensures ContinuedRun(loop, Successor(st, None), Set(e, count, k), word, t) <==> RunOf(loop, st, e, word, t)
  {
    hide Exits, WellFormed, Plain, DependsOn, Occurs, Eval;
    var ek, s := Set(e, count, k), HeaderState(st, e);
    HeaderAgree(loop, st, ind, count, probe, e, k);
    SetAgrees(e, count, k);
    forall rest ensures Exits(loop, rest, ek, s, t) <==> Exits(loop, rest, e, s, t) {
      ExitsAgree(loop, rest, e, ek, count, s, t);
    }
    NothingAppended(loop, st, ek, word, t);
  }
}
