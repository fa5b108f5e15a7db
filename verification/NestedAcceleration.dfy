/** The bottom-up route: exploring one iteration, summarising a loop from the summaries of its children,
    and jumping over it at entry. */
module NestedAcceleration {
  import opened Terms
  import opened PathWords
  import opened ClosedForms
  import opened LoopNests
  import opened HeaderScalars
  import opened CountTemplate
  import opened Acceleration
  import opened HeaderJumps
  import opened NestedSummaries
  import opened Wrappers
  import opened Selections

  /** The external tools and the fresh names of one session. */
  datatype Tools = Tools(simplify: Rewriter, recurrence: Recurrence, qe: Eliminator, solver: Solver, ind: nat,
      probe: nat)

  /** Bound variables are nameless in the solver: a rewriting never binds a program scalar. */
  ghost predicate KeepsBinders(tools: Tools, m: nat) {
    forall t :: BindsAbove(t, m) ==>
      BindsAbove(tools.simplify(t), m) && (tools.qe(t).Some? ==> BindsAbove(tools.qe(t).value, m))
  }

  ghost predicate Trusted(tools: Tools, m: nat) {
    && Simplifies(tools.simplify) && ProposesPlain(tools.recurrence) && Eliminates(tools.qe) && Sound(tools.solver)
    && KeepsBinders(tools, m) && tools.ind >= m && tools.probe >= m && tools.ind != tools.probe
  }

  /** has_foreign_symbols: a symbol other than the scalars, or an uninterpreted application. */
  predicate HasForeign(t: Term, m: nat, bound: set<nat>) {
    match t
    case Var(v) => v >= m && v !in bound
    case App(op, args) => op.Fn? || exists i | 0 <= i < |args| :: HasForeign(args[i], m, bound)
    case Ite(c, a, b) => HasForeign(c, m, bound) || HasForeign(a, m, bound) || HasForeign(b, m, bound)
    case Quant(_, x, body) => HasForeign(body, m, bound + {x})
    case _ => false
  }

  /** An uninterpreted function is applied in the term. */
  ghost predicate Calls(t: Term) {
    match t
    case App(op, args) => op.Fn? || exists i | 0 <= i < |args| :: Calls(args[i])
    case Ite(c, a, b) => Calls(c) || Calls(a) || Calls(b)
    case Quant(_, _, body) => Calls(body)
    case _ => false
  }

  /** A symbol that is neither a scalar nor bound occurs in the term. */
  ghost predicate Strange(t: Term, m: nat, bound: set<nat>) {
    exists id: nat :: Occurs(id, t) && id >= m && id !in bound
  }

  /** What the check rejects: exactly uninterpreted applications, and symbols that are neither scalars nor
      bound. */
  lemma {:induction false} ForeignExactly(t: Term, m: nat, bound: set<nat>)
    ensures HasForeign(t, m, bound) <==> Calls(t) || Strange(t, m, bound)
  {
    match t
    case App(op, args) =>
      forall i | 0 <= i < |args| ensures HasForeign(args[i], m, bound) <==> Calls(args[i]) || Strange(args[i], m, bound)
      {
        ForeignExactly(args[i], m, bound);
      }
      if id: nat :| Occurs(id, t) && id >= m && id !in bound {
        var i :| 0 <= i < |args| && Occurs(id, args[i]);
        assert Strange(args[i], m, bound);
      }
      if i :| 0 <= i < |args| && Strange(args[i], m, bound) {
        var id: nat :| Occurs(id, args[i]) && id >= m && id !in bound;
        assert Occurs(id, t);
      }
    case Ite(c, a, b) =>
      ForeignExactly(c, m, bound);
      ForeignExactly(a, m, bound);
      ForeignExactly(b, m, bound);
      assert forall id: nat :: Occurs(id, t) <==> Occurs(id, c) || Occurs(id, a) || Occurs(id, b);
    case Quant(_, x, body) =>
      ForeignExactly(body, m, bound + {x});
      assert forall id: nat :: Occurs(id, t) <==> id != x && Occurs(id, body);
    case Var(v) => assert Occurs(v, t);
    case _ =>
  }

  lemma NoForeign(t: Term, m: nat, id: nat)
    requires !HasForeign(t, m, {}) && Occurs(id, t)
    ensures id < m
  {
    ForeignExactly(t, m, {});
  }

  function TestTerm(test: Test): Term {
    var t := match test.predicate_
      case EQ => Equals(test.left, test.right)
      case NE => Negate(Equals(test.left, test.right))
      case LT => Less(test.left, test.right)
      case LE => AtMost(test.left, test.right)
      case GT => Less(test.right, test.left)
      case GE => AtMost(test.right, test.left);
    if test.continueOnTrue then t else Negate(t)
  }

  lemma TestMeans(test: Test, m: nat)
    requires Scalar(test.left, m) && Scalar(test.right, m)
    ensures Scalar(TestTerm(test), m)
    ensures forall e: Env, s: State | |s| == m :: Holds(TestTerm(test), Store(e, m, s)) <==> Continues(test, e, s)
  {
    hide QuantifierFree, Occurs;
    BinaryScalar(Eq, test.left, test.right, m);
    BinaryScalar(Lt, test.left, test.right, m);
    BinaryScalar(Le, test.left, test.right, m);
    BinaryScalar(Lt, test.right, test.left, m);
    BinaryScalar(Le, test.right, test.left, m);
    NegateScalar(Equals(test.left, test.right), m);
    var positive := test.(continueOnTrue := true);
    NegateScalar(TestTerm(positive), m);
  }

  function Initial(m: nat): Explored {
    Explored(Flag(true), seq(m, i requires 0 <= i < m => Var(i)), Flag(false))
  }

  /** The assertions executed at every header visit. */
  function AfterChecks(x: Explored, checks: seq<Term>): Explored
    decreases |checks|
  {
    if checks == [] then x
    else AfterCheck(AfterChecks(x, checks[..|checks| - 1]), checks[|checks| - 1])
  }

  lemma {:induction false} ChecksMean(m: nat, checks: seq<Term>, e: Env, s: State)
    requires AllScalar(checks, m) && |s| == m
    ensures var x := AfterChecks(Initial(m), checks);
      && NestedSummaries.Shaped(x, m) && x.cur == Initial(m).cur
      && (Holds(x.pc, Store(e, m, s)) <==> ChecksHold(checks, e, s))
      && (Holds(x.err, Store(e, m, s)) <==> !ChecksHold(checks, e, s))
    decreases |checks|
  {
    hide Scalar, Eval;
    if checks == [] {
      InitialShaped(m, Store(e, m, s));
    } else {
      var n := |checks| - 1;
      ChecksMean(m, checks[..n], e, s);
      AfterCheckShaped(AfterChecks(Initial(m), checks[..n]), checks[n], m);
      assert ChecksHold(checks, e, s) <==> ChecksHold(checks[..n], e, s) && Holds(checks[n], Store(e, m, s)) by {
        assert forall i | 0 <= i < n :: checks[..n][i] == checks[i];
      }
    }
  }

  lemma InitialShaped(m: nat, b: Env)
    ensures NestedSummaries.Shaped(Initial(m), m)
    ensures Holds(Initial(m).pc, b) && !Holds(Initial(m).err, b)
  {
  }

  /** An explored path back to the header, or only dead ends. */
  datatype Walk = Walk(after: Explored, live: bool)

  /** What exploring a piece of code gives, as a function of it. */
  ghost function WalkOf(code: Code, m: nat, before: Explored, tools: Tools): (w: Option<Walk>)
    requires |before.cur| == m
    ensures w.Some? ==> |w.value.after.cur| == m
    decreases code, 0
  {
    match code
    case Skip => Some(Walk(before, true))
    case Error => Some(Walk(AfterError(before), false))
    case Branch(cond, thn, els) =>
      var c := Replace(cond, ParamMap(Params(m), before.cur));
      var l, r := SideOf(thn, m, Side(before, c, true), tools), SideOf(els, m, Side(before, c, false), tools);
      if l.None? || r.None? || (l.value.live && r.value.live) then None
      else Some(Walk(Joined(l.value.after, r.value.after, l.value.live), l.value.live || r.value.live))
    case Assign(x, value, next) =>
      if x >= m then None
      else WalkOf(next, m, before.(cur := before.cur[x := Replace(value, ParamMap(Params(m), before.cur))]), tools)
    case Check(cond, next) => WalkOf(next, m, AfterCheck(before, Replace(cond, ParamMap(Params(m), before.cur))), tools)
    case Nest(checks, test, body, next) =>
      var sum := SummaryFrom(checks, test, body, m, tools);
      if sum.None? || !tools.solver(EntryQuery(before, m, sum.value)).Unsat? then None
      else WalkOf(next, m, AfterChild(before, body, m, sum.value), tools)
  }

  /** One side of a branch. */
  ghost function SideOf(code: Code, m: nat, before: Explored, tools: Tools): (w: Option<Walk>)
    requires |before.cur| == m
    ensures w.Some? ==> |w.value.after.cur| == m
    decreases code, 1
  {
    match tools.solver(before.pc)
    case Unknown => None
    case Unsat => Some(Walk(Dead(before), false))
    case Sat(_) => WalkOf(code, m, before, tools)
  }

  /** The header's exploration on the side of its branch that stays. */
  function Staying(checks: seq<Term>, test: Test, m: nat): Explored {
    var header := AfterChecks(Initial(m), checks);
    header.(pc := Conj(header.pc, TestTerm(test)))
  }

  function Leaving(checks: seq<Term>, test: Test, m: nat): Term {
    Conj(AfterChecks(Initial(m), checks).pc, Negate(TestTerm(test)))
  }

  lemma {:induction false} ChecksWidth(x: Explored, checks: seq<Term>)
    ensures AfterChecks(x, checks).cur == x.cur
    decreases |checks|
  {
    if checks != [] { ChecksWidth(x, checks[..|checks| - 1]); }
  }

  /** What exploring one iteration gives. */
  ghost function IterationOf(checks: seq<Term>, test: Test, body: Code, m: nat, tools: Tools): (it: Option<Iteration>)
    ensures it.Some? ==> |it.value.cur| == m
    decreases body, 1
  {
    ChecksWidth(Initial(m), checks);
    var stays := Staying(checks, test, m);
    if !tools.solver(stays.pc).Sat? || !tools.solver(Leaving(checks, test, m)).Sat? then None
    else
      var w := WalkOf(body, m, stays, tools);
      if w.None? || !w.value.live then None
      else Some(Iteration(w.value.after.pc, Leaving(checks, test, m), w.value.after.cur, w.value.after.err))
  }

  /** What summarising a loop gives. */
  ghost function SummaryFrom(checks: seq<Term>, test: Test, body: Code, m: nat, tools: Tools): (sum: Option<Summary>)
    ensures sum.Some? ==> |sum.value.values| == m
    decreases body, 2
  {
    match IterationOf(checks, test, body, m, tools)
    case None => None
    case Some(it) => MacroSummary(it, test, body, m, tools)
  }

  /** The closed form of an explored iteration: that of the carried scalars, and the others as they are. */
  function MacroSolution(it: Iteration, body: Code, m: nat, tools: Tools): (sol: Option<Solution>)
    requires |it.cur| == m
    ensures sol.Some? ==> |sol.value.oneStep| == m == |sol.value.closed|
  {
    var ids := Phis(body, m);
    PhisBelow(body, m);
    match SolutionOf([MACRO], MacroPaths(it, ids), ids, tools.ind, tools.simplify, tools.recurrence, tools.solver)
    case None => None
    case Some(sol) => Some(Spreading(sol, ids, m))
  }

  function Spreading(sol: Solution, ids: seq<nat>, m: nat): Solution
    requires |sol.oneStep| == |ids| == |sol.closed|
  {
    Solution(sol.guard, Spread(sol.oneStep, ids, m), Spread(sol.closed, ids, m))
  }

  /** The summary of an explored iteration. */
  ghost function MacroSummary(it: Iteration, test: Test, body: Code, m: nat, tools: Tools): (sum: Option<Summary>)
    requires |it.cur| == m
    ensures sum.Some? ==> |sum.value.values| == m
  {
    match MacroSolution(it, body, m, tools)
    case None => None
    case Some(sol) =>
      match TemplateOf(test, body, m, sol.oneStep, tools.simplify)
      case None => None
      case Some(count) =>
        var sum := SummaryOf(it, sol, count, m, tools);
        if ForeignSummary(sum, m) then None else Some(sum)
  }

  /* ---- when code is explored and a loop summarised ---- */

  ghost predicate Never(f: Term) { forall e :: !Holds(f, e) }

  /** The code can be explored: of each branch the infeasible sides are dropped, the others explored, and
      at most one comes back; every child can be summarised, and its domain holds wherever it is entered. */
  ghost predicate Explorable(code: Code, m: nat, before: Explored, tools: Tools)
    requires |before.cur| == m
    decreases code, 0
  {
    match code
    case Skip => true
    case Error => true
    case Branch(cond, thn, els) =>
      var c := Replace(cond, ParamMap(Params(m), before.cur));
      var l, r := Side(before, c, true), Side(before, c, false);
      && (Never(l.pc) || Explorable(thn, m, l, tools)) && (Never(r.pc) || Explorable(els, m, r, tools))
      && !(ComesBack(thn, m, l, tools) && ComesBack(els, m, r, tools))
    case Assign(x, value, next) =>
      x < m && Explorable(next, m, before.(cur := before.cur[x := Replace(value, ParamMap(Params(m), before.cur))]),
          tools)
    case Check(cond, next) =>
        Explorable(next, m, AfterCheck(before, Replace(cond, ParamMap(Params(m), before.cur))), tools)
    case Nest(checks, test, body, next) =>
      && Summarisable(checks, test, body, m, tools)
      && var sum := SummaryFrom(checks, test, body, m, tools);
         sum.Some? ==>
           && Never(EntryQuery(before, m, sum.value))
           && Explorable(next, m, AfterChild(before, body, m, sum.value), tools)
  }

  /** The side is feasible and comes back to the header. */
  ghost predicate ComesBack(code: Code, m: nat, before: Explored, tools: Tools)
    requires |before.cur| == m
    decreases code, 1
  {
    !Never(before.pc) && Returns(code, m, before, tools)
  }

  /** The code ends at the header: it reaches no error call, and of each branch some side comes back. */
  ghost predicate Returns(code: Code, m: nat, before: Explored, tools: Tools)
    requires |before.cur| == m
    decreases code, 0
  {
    match code
    case Skip => true
    case Error => false
    case Branch(cond, thn, els) =>
      var c := Replace(cond, ParamMap(Params(m), before.cur));
      ComesBack(thn, m, Side(before, c, true), tools) || ComesBack(els, m, Side(before, c, false), tools)
    case Assign(x, value, next) =>
      x < m ==> Returns(next, m, before.(cur := before.cur[x := Replace(value, ParamMap(Params(m), before.cur))]),
          tools)
    case Check(cond, next) =>
      Returns(next, m, AfterCheck(before, Replace(cond, ParamMap(Params(m), before.cur))), tools)
    case Nest(checks, test, body, next) =>
      var sum := SummaryFrom(checks, test, body, m, tools);
      sum.Some? ==> Returns(next, m, AfterChild(before, body, m, sum.value), tools)
  }

  /** The loop can be summarised: both sides of its branch are feasible, its body can be explored and
      comes back, the map of an iteration has a closed form, the test fits the count template, and no
      foreign symbol is left. */
  ghost predicate Summarisable(checks: seq<Term>, test: Test, body: Code, m: nat, tools: Tools)
    decreases body, 2
  {
    ChecksWidth(Initial(m), checks);
    var stays := Staying(checks, test, m);
    && !Never(stays.pc) && !Never(Leaving(checks, test, m))
    && Explorable(body, m, stays, tools) && ComesBack(body, m, stays, tools)
    && var it := IterationOf(checks, test, body, m, tools);
       it.Some? ==> SummarisableMacro(it.value, test, body, m, tools)
  }

  ghost predicate SummarisableMacro(it: Iteration, test: Test, body: Code, m: nat, tools: Tools)
    requires |it.cur| == m
  {
    var sol := MacroSolution(it, body, m, tools);
    && sol.Some? && TemplateApplies(test, body, m, sol.value.oneStep, tools.simplify)
    && !ForeignSummary(SummaryOf(it, sol.value, TemplateOf(test, body, m, sol.value.oneStep, tools.simplify).value, m,
        tools), m)
  }

  lemma SolverSees(f: Term, solver: Solver)
    requires Decides(solver)
    ensures solver(f).Unsat? <==> Never(f)
    ensures solver(f).Sat? <==> !Never(f)
  {
  }

  /** A solver that decides explores exactly the code that can be explored, at any depth of nesting. */
  lemma {:induction false} ExploresExactly(code: Code, m: nat, before: Explored, tools: Tools)
    requires |before.cur| == m && Decides(tools.solver)
    ensures WalkOf(code, m, before, tools).Some? <==> Explorable(code, m, before, tools)
    ensures WalkOf(code, m, before, tools).Some? ==>
      (WalkOf(code, m, before, tools).value.live <==> Returns(code, m, before, tools))
    decreases code, 0
  {
    hide Never, EntryQuery, Decides, SummaryFrom, Summarisable;
    match code
    case Skip =>
    case Error =>
    case Branch(cond, thn, els) =>
      var c := Replace(cond, ParamMap(Params(m), before.cur));
      SideExactly(thn, m, Side(before, c, true), tools);
      SideExactly(els, m, Side(before, c, false), tools);
    case Assign(x, value, next) =>
      if x < m {
        ExploresExactly(next, m, before.(cur := before.cur[x := Replace(value, ParamMap(Params(m), before.cur))]),
            tools);
      }
    case Check(cond, next) =>
      ExploresExactly(next, m, AfterCheck(before, Replace(cond, ParamMap(Params(m), before.cur))), tools);
    case Nest(checks, test, body, next) =>
      SummarisesExactly(checks, test, body, m, tools);
      var sum := SummaryFrom(checks, test, body, m, tools);
      if sum.Some? {
        SolverSees(EntryQuery(before, m, sum.value), tools.solver);
        ExploresExactly(next, m, AfterChild(before, body, m, sum.value), tools);
      }
  }

  lemma {:induction false} SideExactly(code: Code, m: nat, before: Explored, tools: Tools)
    requires |before.cur| == m && Decides(tools.solver)
    ensures SideOf(code, m, before, tools).Some? <==> Never(before.pc) || Explorable(code, m, before, tools)
    ensures SideOf(code, m, before, tools).Some? ==>
      (SideOf(code, m, before, tools).value.live <==> ComesBack(code, m, before, tools))
    decreases code, 1
  {
    SolverSees(before.pc, tools.solver);
    ExploresExactly(code, m, before, tools);
  }

  /** A solver that decides summarises exactly the loops that can be summarised. */
  lemma {:induction false} SummarisesExactly(checks: seq<Term>, test: Test, body: Code, m: nat, tools: Tools)
    requires Decides(tools.solver)
    ensures SummaryFrom(checks, test, body, m, tools).Some? <==> Summarisable(checks, test, body, m, tools)
    decreases body, 2
  {
    hide Never, Decides, WalkOf, Explorable, MacroSummary, SummarisableMacro;
    ChecksWidth(Initial(m), checks);
    SolverSees(Staying(checks, test, m).pc, tools.solver);
    SolverSees(Leaving(checks, test, m), tools.solver);
    ExploresExactly(body, m, Staying(checks, test, m), tools);
    var it := IterationOf(checks, test, body, m, tools);
    if it.Some? { MacroExactly(it.value, test, body, m, tools); }
  }

  lemma MacroExactly(it: Iteration, test: Test, body: Code, m: nat, tools: Tools)
    requires |it.cur| == m
    ensures MacroSummary(it, test, body, m, tools).Some? <==> SummarisableMacro(it, test, body, m, tools)
  {
    hide MacroSolution, TemplateApplies, SummaryOf, ForeignSummary;
  }

  /** One side of a branch: dropped if infeasible, explored if feasible. */
  method ExploreSide(code: Code, m: nat, before: Explored, tools: Tools) returns (after: Option<Explored>, live: bool)
    requires WellScoped(code, m) && NestedSummaries.Shaped(before, m) && Trusted(tools, m)
    ensures after.Some? ==> Tracks(code, m, before, after.value)
    ensures after.Some? && !live ==> after.value.pc == Flag(false)
    ensures SideOf(code, m, before, tools) == if after.Some? then Some(Walk(after.value, live)) else None
    decreases code, 1
  {
    hide Trusted, Tracks, Scalar, WellScoped, WalkOf;
    match tools.solver(before.pc)
    case Unknown => return None, false;
    case Unsat =>
      Refuted(tools, m, before.pc);
      TrackDead(code, m, before);
      return Some(Dead(before)), false;
    case Sat(_) =>
      after, live := Explore(code, m, before, tools);
  }

  /** explore_nested_iteration: at most one path comes back to the header, the others are infeasible or
      end in an error, and a child is jumped over only when its domain is proved at its entry. */
  method Explore(code: Code, m: nat, before: Explored, tools: Tools) returns (after: Option<Explored>, live: bool)
    requires WellScoped(code, m) && NestedSummaries.Shaped(before, m) && Trusted(tools, m)
    ensures after.Some? ==> Tracks(code, m, before, after.value)
    ensures after.Some? && !live ==> after.value.pc == Flag(false)
    ensures WalkOf(code, m, before, tools) == if after.Some? then Some(Walk(after.value, live)) else None
    decreases code, 0
  {
    hide Trusted, Tracks, Exact, Scalar, EntryQuery, SideOf, SummaryFrom, Summarisable, Solvable, Decides, IterationOf,
        MacroSolution, Replace, ParamMap, SummaryShaped;
    live := true;
    match code
    case Skip =>
      TrackSkip(m, before);
      after := Some(before);
    case Error =>
      TrackError(m, before);
      after, live := Some(AfterError(before)), false;
    case Branch(cond, thn, els) =>
      var c := Replace(cond, ParamMap(Params(m), before.cur));
      SubstScalar(cond, m, before.cur);
      SideShaped(before, c, true, m);
      SideShaped(before, c, false, m);
      var l, leftLive := ExploreSide(thn, m, Side(before, c, true), tools);
      if l.None? { return None, false; }
      var r, rightLive := ExploreSide(els, m, Side(before, c, false), tools);
      if r.None? || (leftLive && rightLive) { return None, false; }
      TrackBranch(cond, thn, els, m, before, l.value, r.value, leftLive);
      after, live := Some(Joined(l.value, r.value, leftLive)), leftLive || rightLive;
    case Assign(x, value, next) =>
      var mid := before.(cur := before.cur[x := Replace(value, ParamMap(Params(m), before.cur))]);
      SubstScalar(value, m, before.cur);
      after, live := Explore(next, m, mid, tools);
      if after.Some? { TrackAssign(x, value, next, m, before, mid, after.value); }
    case Check(cond, next) =>
      SubstScalar(cond, m, before.cur);
      var mid := AfterCheck(before, Replace(cond, ParamMap(Params(m), before.cur)));
      AfterCheckShaped(before, Replace(cond, ParamMap(Params(m), before.cur)), m);
      after, live := Explore(next, m, mid, tools);
      if after.Some? { TrackCheck(cond, next, m, before, mid, after.value); }
    case Nest(checks, test, body, next) =>
      var summary: Option<Summary> := BuildNestedSummary(checks, test, body, m, tools);
      if summary.None? { return None, false; }
      ExactShape(checks, test, body, m, summary.value);
      var query := EntryQuery(before, m, summary.value);
      if !tools.solver(query).Unsat? { return None, false; }
      Refuted(tools, m, query);
      var mid := AfterChild(before, body, m, summary.value);
      AfterChildShaped(before, body, m, summary.value);
      after, live := Explore(next, m, mid, tools);
      if after.Some? { TrackNest(checks, test, body, next, m, summary.value, before, mid, after.value); }
  }

  lemma Refuted(tools: Tools, m: nat, f: Term)
    requires Trusted(tools, m) && tools.solver(f).Unsat?
    ensures forall e :: !Holds(f, e)
  {
  }

  lemma ExactShape(checks: seq<Term>, test: Test, body: Code, m: nat, sum: Summary)
    requires Exact(checks, test, body, m, sum)
    ensures SummaryShaped(sum, m) && |sum.values| == m
  {
  }

  lemma TrackSkip(m: nat, x: Explored)
    requires NestedSummaries.Shaped(x, m)
    ensures Tracks(Skip, m, x, x)
  {
    hide Scalar, Eval;
    forall e: Env, s: State | |s| == m ensures TracksAt(Skip, m, x, x, e, s) {
      assert LoopNests.Runs(Skip, e, Reached(x, m, e, s), Reached(x, m, e, s));
    }
  }

  /** One iteration of a loop: header assertions, the branch, and the body. */
  method ExploreIteration(checks: seq<Term>, test: Test, body: Code, m: nat, tools: Tools)
      returns (it: Option<Iteration>)
    requires AllScalar(checks, m) && Scalar(test.left, m) && Scalar(test.right, m) && WellScoped(body, m)
        && Trusted(tools, m)
    ensures it.Some? ==> Iterates(checks, test, body, m, it.value)
    ensures it == IterationOf(checks, test, body, m, tools)
    decreases body, 1
  {
    hide Trusted, Tracks, Scalar, WellScoped, Iterates, WalkOf;
    var header := AfterChecks(Initial(m), checks);
    HeaderShaped(m, checks);
    TestMeans(test, m);
    var stays := Explored(Conj(header.pc, TestTerm(test)), header.cur, header.err);
    var leave := Conj(header.pc, Negate(TestTerm(test)));
    StaysShaped(header, test, m);
    if !tools.solver(stays.pc).Sat? || !tools.solver(leave).Sat? { return None; }
    var after, returns_ := Explore(body, m, stays, tools);
    if after.None? || !returns_ { return None; }
    var x := after.value;
    it := Some(Iteration(x.pc, leave, x.cur, x.err));
    IterationIsOne(checks, test, body, m, x);
  }

  lemma HeaderShaped(m: nat, checks: seq<Term>)
    requires AllScalar(checks, m)
    ensures NestedSummaries.Shaped(AfterChecks(Initial(m), checks), m)
  {
    ChecksMean(m, checks, Env(map[], (n, vs) => 0), seq(m, _ => 0));
  }

  lemma StaysShaped(header: Explored, test: Test, m: nat)
    requires NestedSummaries.Shaped(header, m) && Scalar(TestTerm(test), m)
    ensures NestedSummaries.Shaped(Explored(Conj(header.pc, TestTerm(test)), header.cur, header.err), m)
    ensures Scalar(Conj(header.pc, Negate(TestTerm(test))), m)
  {
    hide Scalar, TestTerm;
    NegateScalar(TestTerm(test), m);
    BinaryScalar(And, header.pc, TestTerm(test), m);
    BinaryScalar(And, header.pc, Negate(TestTerm(test)), m);
  }

  /** The exploration of the body under the branch is one iteration of the loop. */
  lemma IterationIsOne(checks: seq<Term>, test: Test, body: Code, m: nat, x: Explored)
    requires AllScalar(checks, m) && Scalar(test.left, m) && Scalar(test.right, m)
    requires var header := AfterChecks(Initial(m), checks);
      Tracks(body, m, Explored(Conj(header.pc, TestTerm(test)), header.cur, header.err), x)
    ensures Iterates(checks, test, body, m,
        Iteration(x.pc, Conj(AfterChecks(Initial(m), checks).pc, Negate(TestTerm(test))), x.cur, x.err))
  {
    hide Scalar, TestTerm, Fails, LoopNests.Runs, AfterChecks, ChecksHold, Continues, Eval, TracksAt;
    var header := AfterChecks(Initial(m), checks);
    HeaderShaped(m, checks);
    TestMeans(test, m);
    StaysShaped(header, test, m);
    var stays := Explored(Conj(header.pc, TestTerm(test)), header.cur, header.err);
    var leave := Conj(header.pc, Negate(TestTerm(test)));
    var it := Iteration(x.pc, leave, x.cur, x.err);
    forall e: Env, s: State | |s| == m ensures IterationAt(checks, test, body, m, it, e, s) {
      assert TracksAt(body, m, stays, x, e, s);
      IterationIsOneAt(checks, test, body, m, x, e, s);
    }
    ChecksMean(m, checks, Env(map[], (n, vs) => 0), seq(m, _ => 0));
  }

  lemma IterationIsOneAt(checks: seq<Term>, test: Test, body: Code, m: nat, x: Explored, e: Env, s: State)
    requires AllScalar(checks, m) && Scalar(test.left, m) && Scalar(test.right, m) && |s| == m && |x.cur| == m
    requires var header := AfterChecks(Initial(m), checks);
      && |header.cur| == m
      && TracksAt(body, m, Explored(Conj(header.pc, TestTerm(test)), header.cur, header.err), x, e, s)
    ensures IterationAt(checks, test, body, m,
        Iteration(x.pc, Conj(AfterChecks(Initial(m), checks).pc, Negate(TestTerm(test))), x.cur, x.err), e, s)
  {
    hide Scalar, TestTerm, Fails, LoopNests.Runs, AfterChecks, ChecksHold, Continues, Eval;
    var header := AfterChecks(Initial(m), checks);
    var stays := Explored(Conj(header.pc, TestTerm(test)), header.cur, header.err);
    ChecksMean(m, checks, e, s);
    TestMeans(test, m);
    InitialStore(m, e, s);
    assert Reached(stays, m, e, s) == s;
  }

  lemma InitialStore(m: nat, e: Env, s: State)
    requires |s| == m
    ensures EvalAll(Initial(m).cur, Store(e, m, s)) == s
  {
  }

  /* ---- the summary of a loop ---- */

  const MACRO: Symbol := 1

  /** The macro symbol denotes the complete body; only the header's PHIs are updated. */
  function MacroPaths(it: Iteration, ids: seq<nat>): map<Symbol, Transition>
    requires AllBelow(ids, |it.cur|)
  {
    map[MACRO := Transition(it.stay, Picked(it.cur, ids))]
  }

  lemma PhisBelow(body: Code, m: nat)
    ensures AllBelow(Phis(body, m), m)
  {
    var ids := Phis(body, m);
    forall i | 0 <= i < |ids| ensures ids[i] < m { assert ids[i] in ids; }
  }

  lemma MacroPlain(it: Iteration, ids: seq<nat>, m: nat, name: nat)
    requires Scalar(it.stay, m) && |it.cur| == m && AllScalar(it.cur, m) && name >= m && AllBelow(ids, m)
    ensures PlainTransitions(MacroPaths(it, ids)) && !Mentions(MacroPaths(it, ids), name)
  {
  }

  /** The composite of the macro symbol is the iteration itself. */
  lemma MacroComposite(checks: seq<Term>, test: Test, body: Code, m: nat, it: Iteration, guard: Term,
      oneStep: seq<Term>)
    requires Iterates(checks, test, body, m, it)
    requires var ids := Phis(body, m);
      AllBelow(ids, m) && Composite([MACRO], MacroPaths(it, ids), ids, guard, oneStep)
    ensures Iterates(checks, test, body, m, it.(stay := guard))
    ensures |oneStep| == |Phis(body, m)| && SameMap(Spread(oneStep, Phis(body, m), m), it.(stay := guard), m)
  {
    hide Occurs, QuantifierFree, Eval, LoopNests.Runs, FailsAt, ChecksHold, Continues, Mentions, Scalar, Modifies,
        IterationAt, Composite, Spread, Phis, Store;
    MacroGuardScalar(it, Phis(body, m), m, guard, oneStep);
    forall e: Env, s: State | |s| == m
      ensures Holds(guard, Store(e, m, s)) <==> Holds(it.stay, Store(e, m, s))
      ensures EvalAll(Spread(oneStep, Phis(body, m), m), Store(e, m, s)) == EvalAll(it.cur, Store(e, m, s))
    {
      MacroMeans(it, body, m, guard, oneStep, e, s);
    }
    forall e: Env, s: State | |s| == m ensures IterationAt(checks, test, body, m, it.(stay := guard), e, s) {
      assert IterationAt(checks, test, body, m, it, e, s);
      SameIteration(checks, test, body, m, it, guard, e, s);
    }
  }

  lemma SameIteration(checks: seq<Term>, test: Test, body: Code, m: nat, it: Iteration, guard: Term, e: Env, s: State)
    requires |s| == m && |it.cur| == m && IterationAt(checks, test, body, m, it, e, s)
    requires Holds(guard, Store(e, m, s)) <==> Holds(it.stay, Store(e, m, s))
    ensures IterationAt(checks, test, body, m, it.(stay := guard), e, s)
  {
    hide LoopNests.Runs, FailsAt, ChecksHold, Continues, Eval;
  }

  lemma MacroRun(it: Iteration, ids: seq<nat>, b: Env, u: State)
    requires Distinct(ids) && AllBelow(ids, |it.cur|) && |u| == |ids|
    ensures Composable([MACRO], MacroPaths(it, ids), |ids|)
    ensures GuardsAlong([MACRO], MacroPaths(it, ids), ids, b, u) <==> Holds(it.stay, Bind(b, ids, u))
    ensures Along([MACRO], MacroPaths(it, ids), ids, b, u) == EvalAll(Picked(it.cur, ids), Bind(b, ids, u))
  {
    hide Eval, Bind;
    assert [MACRO][0] == MACRO && [MACRO][..0] == [];
  }

  /** The composite over the carried scalars, seen through all scalars. */
  lemma MacroMeans(it: Iteration, body: Code, m: nat, guard: Term, oneStep: seq<Term>, e: Env, s: State)
    requires |it.cur| == m == |s| && forall x | 0 <= x < m && !Modifies(body, x) :: it.cur[x] == Var(x)
    requires var ids := Phis(body, m);
      AllBelow(ids, m) && |oneStep| == |ids| && Composite([MACRO], MacroPaths(it, ids), ids, guard, oneStep)
    ensures Holds(guard, Store(e, m, s)) <==> Holds(it.stay, Store(e, m, s))
    ensures EvalAll(Spread(oneStep, Phis(body, m), m), Store(e, m, s)) == EvalAll(it.cur, Store(e, m, s))
  {
    hide Eval, Bind, Store, Spread, PlaceOf, Occurs, QuantifierFree, Mentions, GuardsAlong, Along, Phis, Modifies;
    var ids, b := Phis(body, m), Store(e, m, s);
    var u := Picked(s, ids);
    var b' := Bind(b, ids, u);
    MacroRun(it, ids, b, u);
    SameStore(ids, m, e, s, u, s);
    EvalAgree(guard, b, b');
    EvalAgree(it.stay, b, b');
    SpreadValues(oneStep, ids, m, s, b, b');
    SameLookups(it.cur, b, b');
    forall x: nat | x < m ensures EvalAll(Spread(oneStep, ids, m), b)[x] == EvalAll(it.cur, b)[x] {
      if x in ids { assert Picked(it.cur, ids)[PlaceOf(ids, x)] == it.cur[x]; } else { VarMeans(x, b); }
    }
  }

  lemma MacroGuardScalar(it: Iteration, ids: seq<nat>, m: nat, guard: Term, oneStep: seq<Term>)
    requires Scalar(it.stay, m) && |it.cur| == m && AllScalar(it.cur, m) && Distinct(ids) && AllBelow(ids, m)
    requires Composite([MACRO], MacroPaths(it, ids), ids, guard, oneStep)
    ensures Scalar(guard, m) && |oneStep| == |ids|
  {
    hide QuantifierFree;
    forall id: nat | Occurs(id, guard) ensures id < m {
      if id >= m { MacroPlain(it, ids, m, id); }
    }
  }

  lemma MacroKeeps(checks: seq<Term>, test: Test, body: Code, m: nat, it: Iteration, oneStep: seq<Term>)
    requires Iterates(checks, test, body, m, it) && SameMap(oneStep, it, m)
    ensures KeepsOthers(oneStep, body, m)
  {
    hide Scalar, IterationAt, Modifies;
    forall e: Env, s: State, x | |s| == m && 0 <= x < m && !Modifies(body, x)
      ensures Eval(oneStep[x], Store(e, m, s)) == s[x]
    {
      assert EvalAll(oneStep, Store(e, m, s))[x] == EvalAll(it.cur, Store(e, m, s))[x];
      VarPlain(x, Store(e, m, s));
    }
  }

  lemma {:induction false} PlainBindsNothing(t: Term, m: nat)
    requires QuantifierFree(t)
    ensures BindsAbove(t, m)
  {
    match t
    case App(_, args) => forall i | 0 <= i < |args| ensures BindsAbove(args[i], m) { PlainBindsNothing(args[i], m); }
    case Ite(c, a, b) => PlainBindsNothing(c, m); PlainBindsNothing(a, m); PlainBindsNothing(b, m);
    case _ =>
  }

  lemma PairBinds(op: Op, a: Term, b: Term, m: nat)
    requires BindsAbove(a, m) && BindsAbove(b, m)
    ensures BindsAbove(App(op, [a, b]), m) && BindsAbove(App(Not, [a]), m)
  {
    assert [a, b][0] == a && [a, b][1] == b && [a][0] == a;
  }

  lemma DomainBinds(it: Iteration, m: nat, count: Term, trajectory: seq<Term>, final: seq<Term>, probe: nat)
    requires |trajectory| == m == |final| && Plain(trajectory) && Plain(final) && IterationScalar(it, m)
        && Scalar(count, m) && probe >= m
    ensures BindsAbove(DomainFormula(it, m, count, trajectory, final, probe), m)
  {
    hide Occurs, QuantifierFree, Replace, BindsAbove;
    var tm, fm := ParamMap(Params(m), trajectory), ParamMap(Params(m), final);
    ReplaceQuantifierFree(it.stay, tm);
    ReplaceQuantifierFree(it.err, tm);
    ReplaceQuantifierFree(it.leave, fm);
    PlainBindsNothing(Replace(it.stay, tm), m);
    PlainBindsNothing(Replace(it.err, tm), m);
    PlainBindsNothing(Replace(it.leave, fm), m);
    PlainBindsNothing(count, m);
    FormulaBinds(m, count, Replace(it.stay, tm), Replace(it.err, tm), Replace(it.leave, fm), probe);
  }

  lemma FormulaBinds(m: nat, count: Term, stay: Term, err: Term, leave: Term, probe: nat)
    requires BindsAbove(count, m) && BindsAbove(stay, m) && BindsAbove(err, m) && BindsAbove(leave, m) && probe >= m
    ensures BindsAbove(
      Conj(Conj(Conj(AtMost(Num(0), count), leave), ForAll(probe, Implies(InRange(probe, count), stay))),
           ForAll(probe, Implies(UpTo(probe, count), Negate(err)))), m)
  {
    LeavesBind(probe, m);
    hide BindsAbove;
    PairBinds(Le, Num(0), count, m);
    PairBinds(And, AtMost(Num(0), count), leave, m);
    PairBinds(Le, Num(0), Var(probe), m);
    PairBinds(Lt, Var(probe), count, m);
    PairBinds(Le, Var(probe), count, m);
    PairBinds(And, AtMost(Num(0), Var(probe)), Less(Var(probe), count), m);
    PairBinds(And, AtMost(Num(0), Var(probe)), AtMost(Var(probe), count), m);
    PairBinds(Not, InRange(probe, count), stay, m);
    PairBinds(Or, Negate(InRange(probe, count)), stay, m);
    PairBinds(Not, err, stay, m);
    PairBinds(Not, UpTo(probe, count), stay, m);
    PairBinds(Or, Negate(UpTo(probe, count)), Negate(err), m);
    QuantBinds(probe, Implies(InRange(probe, count), stay), m);
    QuantBinds(probe, Implies(UpTo(probe, count), Negate(err)), m);
    PairBinds(And, Conj(AtMost(Num(0), count), leave), ForAll(probe, Implies(InRange(probe, count), stay)), m);
    PairBinds(And, Conj(Conj(AtMost(Num(0), count), leave), ForAll(probe, Implies(InRange(probe, count), stay))),
              ForAll(probe, Implies(UpTo(probe, count), Negate(err))), m);
  }

  lemma LeavesBind(probe: nat, m: nat)
    ensures BindsAbove(Num(0), m) && BindsAbove(Var(probe), m)
  {
  }

  lemma QuantBinds(probe: nat, body: Term, m: nat)
    requires BindsAbove(body, m) && probe >= m
    ensures BindsAbove(ForAll(probe, body), m)
  {
  }

  lemma ClosedAtPlain(closed: seq<Term>, ind: nat, count: Term, simplify: Rewriter)
    requires Plain(closed) && QuantifierFree(count) && Simplifies(simplify)
    ensures Plain(ClosedAtTerm(closed, ind, count, simplify))
  {
    hide Replace, Occurs;
    forall i | 0 <= i < |closed| ensures QuantifierFree(ClosedAtTerm(closed, ind, count, simplify)[i]) {
      ReplaceQuantifierFree(closed[i], map[Var(ind) := count]);
    }
  }

  /** The summary of an explored iteration with a closed form and a count. */
  function SummaryOf(it: Iteration, sol: Solution, count: Term, m: nat, tools: Tools): Summary
    requires |sol.closed| == m
  {
    var final := ClosedAtTerm(sol.closed, tools.ind, count, tools.simplify);
    var formula :=
        DomainFormula(it.(stay := sol.guard), m, count,
        ClosedAtTerm(sol.closed, tools.ind, Var(tools.probe), tools.simplify),
                                 final, tools.probe);
    Summary(tools.simplify(if tools.qe(formula).Some? then tools.qe(formula).value else formula), count, final)
  }

  predicate ForeignSummary(sum: Summary, m: nat) {
    HasForeign(sum.domain, m, {}) || HasForeign(sum.count, m, {})
        || exists i | 0 <= i < |sum.values| :: HasForeign(sum.values[i], m, {})
  }

  /** build_nested_summary: None whenever anything is unsupported or uncertified. */
  method BuildNestedSummary(checks: seq<Term>, test: Test, body: Code, m: nat, tools: Tools)
      returns (result: Option<Summary>)
    requires AllScalar(checks, m) && Scalar(test.left, m) && Scalar(test.right, m) && WellScoped(body, m)
        && Trusted(tools, m)
    ensures result.Some? ==> Exact(checks, test, body, m, result.value)
    ensures result == SummaryFrom(checks, test, body, m, tools)
    ensures Decides(tools.solver) ==> (result.Some? <==> Summarisable(checks, test, body, m, tools))
    ensures Decides(tools.solver) ==>
      var it := IterationOf(checks, test, body, m, tools);
      it.Some? ==> (MacroSolution(it.value, body, m, tools).Some? <==> MacroSolvable(it.value, body, m, tools))
    decreases body, 2
  {
    hide *;
    if Decides(tools.solver) { SummarisesExactly(checks, test, body, m, tools); }
    SummaryStart(checks, test, body, m, tools);
    var explored := ExploreIteration(checks, test, body, m, tools);
    if explored.None? { return None; }
    result := SummariseIteration(checks, test, body, m, explored.value, tools);
  }

  lemma SummaryStart(checks: seq<Term>, test: Test, body: Code, m: nat, tools: Tools)
    ensures
      var it := IterationOf(checks, test, body, m, tools);
      SummaryFrom(checks, test, body, m, tools) ==
        if it.None? then None else MacroSummary(it.value, test, body, m, tools)
  {
    hide IterationOf, MacroSummary;
  }

  /** The part that follows the exploration: closed form, count, domain. */
  method SummariseIteration(checks: seq<Term>, test: Test, body: Code, m: nat, it: Iteration, tools: Tools)
      returns (result: Option<Summary>)
    requires AllScalar(checks, m) && Scalar(test.left, m) && Scalar(test.right, m) && WellScoped(body, m)
        && Trusted(tools, m) && Iterates(checks, test, body, m, it)
    ensures result.Some? ==> Exact(checks, test, body, m, result.value)
    ensures result == MacroSummary(it, test, body, m, tools)
    ensures |it.cur| == m
    ensures Decides(tools.solver) ==>
      (MacroSolution(it, body, m, tools).Some? <==> MacroSolvable(it, body, m, tools))
  {
    hide IterationAt, Scalar, WellScoped, Phis;
    var ids := Phis(body, m);
    PhisBelow(body, m);
    MacroPlain(it, ids, m, tools.ind);
    var solution :=
        SolveComposite([MACRO], MacroPaths(it, ids), ids, tools.ind, tools.simplify, tools.recurrence, tools.solver);
    MacroSummaryIs(it, test, body, m, tools);
    if solution.None? { return None; }
    var carried := solution.value;
    var sol := Spreading(carried, ids, m);
    hide *;
    MacroComposite(checks, test, body, m, it, carried.guard, carried.oneStep);
    SpreadingCloses(carried, ids, m, tools.ind);
    var macro := it.(stay := sol.guard);
    MacroKeeps(checks, test, body, m, macro, sol.oneStep);
    TrustedParts(tools, m);
    var template := NestedCountTemplate(test, body, m, sol.oneStep, tools.simplify);
    if template.None? { return None; }
    var count := template.value;
    SolvedHere(checks, test, body, m, macro, sol, tools, count);
    var summary := SummaryOf(it, sol, count, m, tools);
    var foreign := AnyForeign([summary.domain, summary.count] + summary.values, m);
    SomeForeign(summary, m);
    if foreign { return None; }
    result := Some(summary);
    CandidateReady(checks, test, body, m, it, sol, tools, count);
  }

  /** The summary in terms of the closed form and the count. */
  lemma MacroSummaryIs(it: Iteration, test: Test, body: Code, m: nat, tools: Tools)
    requires |it.cur| == m
    ensures
      var sol := MacroSolution(it, body, m, tools);
      var count := if sol.Some? then TemplateOf(test, body, m, sol.value.oneStep, tools.simplify) else None;
      MacroSummary(it, test, body, m, tools) ==
        if sol.None? || count.None? || ForeignSummary(SummaryOf(it, sol.value, count.value, m, tools), m) then None
        else Some(SummaryOf(it, sol.value, count.value, m, tools))
  {
    hide MacroSolution, TemplateOf, SummaryOf, ForeignSummary;
  }

  lemma SpreadingCloses(carried: Solution, ids: seq<nat>, m: nat, ind: nat)
    requires Distinct(ids) && AllBelow(ids, m) && |carried.oneStep| == |ids| && ind >= m
    requires Closes(carried.oneStep, carried.closed, ids, ind) && Plain(carried.closed)
    ensures |carried.closed| == |ids|
    ensures var sol := Spreading(carried, ids, m);
      && sol.guard == carried.guard && sol.oneStep == Spread(carried.oneStep, ids, m)
      && |sol.oneStep| == m == |sol.closed|
      && Closes(sol.oneStep, sol.closed, Params(m), ind) && Plain(sol.closed)
  {
    SpreadCloses(carried.oneStep, carried.closed, ids, m, ind);
    SpreadPlain(carried.closed, ids, m);
  }

  /** The map of the carried scalars has a closed form to be found. */
  ghost predicate MacroSolvable(it: Iteration, body: Code, m: nat, tools: Tools)
    requires |it.cur| == m
  {
    var ids := Phis(body, m);
    PhisBelow(body, m);
    Solvable([MACRO], MacroPaths(it, ids), ids, tools.ind, tools.simplify, tools.recurrence)
  }

  lemma SomeForeign(sum: Summary, m: nat)
    ensures ForeignSummary(sum, m) <==>
      var all := [sum.domain, sum.count] + sum.values; exists i | 0 <= i < |all| :: HasForeign(all[i], m, {})
  {
    hide HasForeign;
    var all := [sum.domain, sum.count] + sum.values;
    assert all[0] == sum.domain && all[1] == sum.count;
    if i :| 0 <= i < |sum.values| && HasForeign(sum.values[i], m, {}) { assert all[i + 2] == sum.values[i]; }
  }

  lemma CandidateReady(checks: seq<Term>, test: Test, body: Code, m: nat, it: Iteration, sol: Solution, tools: Tools,
      count: Term)
    requires Iterates(checks, test, body, m, it.(stay := sol.guard)) && Trusted(tools, m)
    requires Solved(it.(stay := sol.guard), sol.oneStep, sol.closed, m, tools.ind)
    requires Scalar(count, m) && |sol.oneStep| == m == |sol.closed|
    requires forall e: Env, s: State | |s| == m :: LeastBreak(count, test, sol.oneStep, m, e, s)
    requires !ForeignSummary(SummaryOf(it, sol, count, m, tools), m)
    ensures Exact(checks, test, body, m, SummaryOf(it, sol, count, m, tools))
  {
    hide Iterates, Trusted, Solved, Scalar, LeastBreak, HasForeign, DomainFormula, Exact;
    SummaryReady(checks, test, body, m, it.(stay := sol.guard), sol, tools, count,
        SummaryOf(it, sol, count, m, tools).domain);
  }

  method AnyForeign(ts: seq<Term>, m: nat) returns (foreign: bool)
    ensures foreign <==> exists i | 0 <= i < |ts| :: HasForeign(ts[i], m, {})
  {
    foreign := false;
    for i := 0 to |ts|
      invariant foreign <==> exists j | 0 <= j < i :: HasForeign(ts[j], m, {})
    {
      foreign := foreign || HasForeign(ts[i], m, {});
    }
  }

  lemma TrustedParts(tools: Tools, m: nat)
    requires Trusted(tools, m)
    ensures Simplifies(tools.simplify) && Sound(tools.solver) && Eliminates(tools.qe)
    ensures tools.ind >= m && tools.probe >= m && KeepsBinders(tools, m)
  {
  }

  lemma SolvedHere(checks: seq<Term>, test: Test, body: Code, m: nat, it: Iteration, sol: Solution, tools: Tools,
      count: Term)
    requires Iterates(checks, test, body, m, it) && SameMap(sol.oneStep, it, m) && Distinct(Params(m))
        && |Params(m)| == m
    requires |sol.oneStep| == |Params(m)| && Closes(sol.oneStep, sol.closed, Params(m), tools.ind) && Plain(sol.closed)
        && Trusted(tools, m)
    ensures Solved(it, sol.oneStep, sol.closed, m, tools.ind)
    ensures |ClosedAtTerm(sol.closed, tools.ind, Var(tools.probe), tools.simplify)| == m
    ensures |ClosedAtTerm(sol.closed, tools.ind, count, tools.simplify)| == m
  {
    hide SameMap, Iterate, At;
    IterationShape(checks, test, body, m, it);
  }

  lemma SummaryReady(checks: seq<Term>, test: Test, body: Code, m: nat, it: Iteration, sol: Solution, tools: Tools,
                     count: Term, domain: Term)
    requires Iterates(checks, test, body, m, it) && Trusted(tools, m)
    requires Solved(it, sol.oneStep, sol.closed, m, tools.ind)
    requires Scalar(count, m) && |sol.oneStep| == m
    requires forall e: Env, s: State | |s| == m :: LeastBreak(count, test, sol.oneStep, m, e, s)
    requires |ClosedAtTerm(sol.closed, tools.ind, Var(tools.probe), tools.simplify)| == m
    requires |ClosedAtTerm(sol.closed, tools.ind, count, tools.simplify)| == m
    requires
      var formula := DomainFormula(it, m, count, ClosedAtTerm(sol.closed, tools.ind, Var(tools.probe), tools.simplify),
                                   ClosedAtTerm(sol.closed, tools.ind, count, tools.simplify), tools.probe);
      domain == tools.simplify(if tools.qe(formula).Some? then tools.qe(formula).value else formula)
    requires !HasForeign(domain, m, {})
    requires forall i | 0 <= i < m :: !HasForeign(ClosedAtTerm(sol.closed, tools.ind, count, tools.simplify)[i], m, {})
    ensures Exact(checks, test, body, m,
        Summary(domain, count, ClosedAtTerm(sol.closed, tools.ind, count, tools.simplify)))
  {
    hide Occurs, QuantifierFree, Iterates, Solved, Scalar, ClosedAtTerm, DomainFormula, LeastBreak, HasForeign,
        BindsAbove, Simplifies,
         Trusted, Eliminates, ExactAt, Eval, Plain, KeepsBinders;
    TrustedParts(tools, m);
    var trajectory := ClosedAtTerm(sol.closed, tools.ind, Var(tools.probe), tools.simplify);
    var final := ClosedAtTerm(sol.closed, tools.ind, count, tools.simplify);
    var formula := DomainFormula(it, m, count, trajectory, final, tools.probe);
    IterationShape(checks, test, body, m, it);
    SolvedPlain(it, sol.oneStep, sol.closed, m, tools.ind);
    ScalarPlain(count, m);
    VarPlain(tools.probe, Env(map[], (n, vs) => 0));
    ClosedAtPlain(sol.closed, tools.ind, Var(tools.probe), tools.simplify);
    ClosedAtPlain(sol.closed, tools.ind, count, tools.simplify);
    DomainBinds(it, m, count, trajectory, final, tools.probe);
    ReducedBinds(tools, m, formula);
    forall id: nat | Occurs(id, domain) ensures id < m { NoForeign(domain, m, id); }
    forall i | 0 <= i < m ensures Scalar(final[i], m) { NotForeignScalar(final, m, i); }
    forall e: Env, s: State | |s| == m ensures ExactAt(checks, test, body, m, Summary(domain, count, final), e, s) {
      ReducedMeans(tools, formula, Store(e, m, s));
      SummaryIsExact(checks, test, body, m, it, sol.oneStep, sol.closed, tools.ind, tools.probe, count, tools.simplify,
          domain, e, s);
    }
  }

  lemma NotForeignScalar(ts: seq<Term>, m: nat, i: nat)
    requires i < |ts| && Plain(ts) && !HasForeign(ts[i], m, {})
    ensures Scalar(ts[i], m)
  {
    hide Occurs, QuantifierFree, HasForeign;
    forall id: nat | Occurs(id, ts[i]) ensures id < m { NoForeign(ts[i], m, id); }
  }

  lemma ScalarPlain(t: Term, m: nat)
    requires Scalar(t, m)
    ensures QuantifierFree(t)
  {
  }

  lemma SolvedPlain(it: Iteration, oneStep: seq<Term>, closed: seq<Term>, m: nat, ind: nat)
    requires Solved(it, oneStep, closed, m, ind)
    ensures Plain(closed)
  {
  }

  lemma ReducedBinds(tools: Tools, m: nat, formula: Term)
    requires KeepsBinders(tools, m) && BindsAbove(formula, m)
    ensures BindsAbove(tools.simplify(if tools.qe(formula).Some? then tools.qe(formula).value else formula), m)
  {
  }

  lemma ReducedMeans(tools: Tools, formula: Term, b: Env)
    requires Eliminates(tools.qe) && Simplifies(tools.simplify)
    ensures Holds(tools.simplify(if tools.qe(formula).Some? then tools.qe(formula).value else formula), b) <==>
        Holds(formula, b)
  {
    SimplifiedValue(tools.simplify, if tools.qe(formula).Some? then tools.qe(formula).value else formula, b);
  }

  /* ---- the jump at a loop entry ---- */

  /** What a jump over a whole nest promises: from every state the path condition admits, the loop
      runs to its exit without a failed assertion in it or in any child, in exactly `count`
      iterations, and leaves with the store of the jump. */
  ghost predicate ExactJump(checks: seq<Term>, test: Test, body: Code, m: nat, before: Explored, jump: Explored,
      count: Term) {
    && |before.cur| == m == |jump.cur| && jump.pc == before.pc
    && forall e: Env, s: State | |s| == m && Holds(before.pc, Store(e, m, s)) ::
         JumpedFrom(checks, test, body, m, before, jump, count, e, s)
  }

  ghost predicate JumpedFrom(checks: seq<Term>, test: Test, body: Code, m: nat, before: Explored, jump: Explored,
      count: Term,
                             e: Env, s: State)
    requires |s| == m == |before.cur| == |jump.cur|
  {
    var u := Reached(before, m, e, s);
    !LoopFails(checks, test, body, e, u)
    && exists trace ::
         && LoopRuns(checks, test, body, e, u, trace)
         && |trace| - 1 == Eval(count, Store(e, m, s)) && End(trace) == Reached(jump, m, e, s)
  }

  /** From every state of the path the nest runs to its exit. */
  ghost predicate AlwaysExits(checks: seq<Term>, test: Test, body: Code, m: nat, before: Explored) {
    |before.cur| == m && forall e: Env, s: State | |s| == m && Holds(before.pc, Store(e, m, s)) ::
      exists trace :: LoopRuns(checks, test, body, e, Reached(before, m, e, s), trace)
  }

  /** accelerate_nested, at a loop entry whose current values are `before`. Given a summary, a solver
      that decides jumps exactly when the nest runs to its exit from every state of the path. */
  method AccelerateNested(checks: seq<Term>, test: Test, body: Code, m: nat, before: Explored, tools: Tools)
    returns (jump: Option<(Explored, Term)>, ghost found: Option<Summary>)
    requires AllScalar(checks, m) && Scalar(test.left, m) && Scalar(test.right, m) && WellScoped(body, m)
        && Trusted(tools, m)
    requires NestedSummaries.Shaped(before, m)
    ensures jump.Some? ==> ExactJump(checks, test, body, m, before, jump.value.0, jump.value.1)
    ensures jump.Some? ==> found.Some?
    ensures found == SummaryFrom(checks, test, body, m, tools)
    ensures Decides(tools.solver) ==>
      (jump.Some? <==> Summarisable(checks, test, body, m, tools) && AlwaysExits(checks, test, body, m, before))
    ensures found.Some? ==> Exact(checks, test, body, m, found.value)
    ensures Decides(tools.solver) && found.Some? ==> (jump.Some? <==> AlwaysExits(checks, test, body, m, before))
  {
    var summary := BuildNestedSummary(checks, test, body, m, tools);
    found := summary;
    if summary.None? { return None, found; }
    var sum := summary.value;
    ExactShape(checks, test, body, m, sum);
    EntryDecided(checks, test, body, m, before, sum, tools.solver);
    var query := EntryQuery(before, m, sum);
    if !tools.solver(query).Unsat? { return None, found; }
    Refuted(tools, m, query);
    var after := AfterChild(before, body, m, sum);
    var count := tools.simplify(Replace(sum.count, ParamMap(Params(m), before.cur)));
    jump := Some((after, count));
    hide *;
    EntryJump(checks, test, body, m, before, sum, tools, after, count);
  }

  /** The entry query has a model exactly if the nest does not run to its exit from some state. */
  lemma EntryDecided(checks: seq<Term>, test: Test, body: Code, m: nat, before: Explored, sum: Summary, solver: Solver)
    requires NestedSummaries.Shaped(before, m) && Exact(checks, test, body, m, sum) && |sum.values| == m
        && |before.cur| == m
    requires Sound(solver)
    ensures solver(EntryQuery(before, m, sum)).Unsat? ==> AlwaysExits(checks, test, body, m, before)
    ensures Decides(solver) && AlwaysExits(checks, test, body, m, before) ==> solver(EntryQuery(before, m, sum)).Unsat?
  {
    hide Scalar, Replace, ParamMap, Eval, LoopRuns, Exact, EntryQuery, Reached;
    var query := EntryQuery(before, m, sum);
    if solver(query).Unsat? {
      forall e: Env, s: State | |s| == m && Holds(before.pc, Store(e, m, s))
        ensures exists trace :: LoopRuns(checks, test, body, e, Reached(before, m, e, s), trace)
      {
        assert !Holds(query, Store(e, m, s));
        ChildDomain(m, before, sum, checks, test, body, e, s);
        ExactHere(checks, test, body, m, sum, e, Reached(before, m, e, s));
      }
    } else if solver(query).Sat? {
      var e := solver(query).model;
      var s := seq(m, i requires 0 <= i < m => Lookup(e, i));
      OwnStore(query, e, m, s);
      EntryOutside(checks, test, body, m, before, sum, e, s);
      ExactHere(checks, test, body, m, sum, e, Reached(before, m, e, s));
      assert !AlwaysExits(checks, test, body, m, before);
    }
  }

  lemma ExactHere(checks: seq<Term>, test: Test, body: Code, m: nat, sum: Summary, e: Env, u: State)
    requires Exact(checks, test, body, m, sum) && |u| == m && |sum.values| == m
    ensures Holds(sum.domain, Store(e, m, u)) ==> exists trace :: LoopRuns(checks, test, body, e, u, trace)
    ensures forall trace | LoopRuns(checks, test, body, e, u, trace) :: Holds(sum.domain, Store(e, m, u))
  {
    hide Eval;
    assert ExactAt(checks, test, body, m, sum, e, u);
    if Holds(sum.domain, Store(e, m, u)) {
      var trace :| LoopRuns(checks, test, body, e, u, trace);
    }
  }

  lemma OwnStore(t: Term, e: Env, m: nat, s: State)
    requires |s| == m && forall i | 0 <= i < m :: s[i] == Lookup(e, i)
    ensures Holds(t, Store(e, m, s)) <==> Holds(t, e)
  {
    EvalAgree(t, Store(e, m, s), e);
  }

  lemma EntryOutside(checks: seq<Term>, test: Test, body: Code, m: nat, before: Explored, sum: Summary, e: Env,
      s: State)
    requires NestedSummaries.Shaped(before, m) && Exact(checks, test, body, m, sum) && |s| == m
    requires Holds(EntryQuery(before, m, sum), Store(e, m, s))
    ensures Holds(before.pc, Store(e, m, s)) && !Holds(sum.domain, Store(e, m, Reached(before, m, e, s)))
  {
    hide Scalar, Replace, ParamMap, Eval, BindsAbove, Occurs, ExactAt;
    DomainMeans(sum.domain, m, before, e, s);
  }

  lemma EntryJump(checks: seq<Term>, test: Test, body: Code, m: nat, before: Explored, sum: Summary, tools: Tools,
                  after: Explored, count: Term)
    requires NestedSummaries.Shaped(before, m) && Exact(checks, test, body, m, sum) && |sum.values| == m
        && Trusted(tools, m)
    requires |before.cur| == m && forall e :: !Holds(EntryQuery(before, m, sum), e)
    requires after == AfterChild(before, body, m, sum)
    requires count == tools.simplify(Replace(sum.count, ParamMap(Params(m), before.cur)))
    ensures ExactJump(checks, test, body, m, before, after, count)
  {
    hide Scalar, Replace, ParamMap, Eval, Exact, EntryQuery, AfterChild, Modifies, LoopRuns, LoopFails, Trusted,
        ExactAt;
    ChildKeeps(before, body, m, sum);
    SamePath(before, body, m, sum);
    TrustedParts(tools, m);
    forall e: Env, s: State | |s| == m && Holds(before.pc, Store(e, m, s))
      ensures JumpedFrom(checks, test, body, m, before, after, count, e, s)
    {
      assert !Holds(EntryQuery(before, m, sum), Store(e, m, s));
      EntryJumpAt(checks, test, body, m, before, sum, tools.simplify, e, s);
    }
  }

  lemma SamePath(before: Explored, body: Code, m: nat, sum: Summary)
    requires |before.cur| == m == |sum.values|
    ensures AfterChild(before, body, m, sum).pc == before.pc
  {
  }

  lemma EntryJumpAt(checks: seq<Term>, test: Test, body: Code, m: nat, before: Explored, sum: Summary,
      simplify: Rewriter, e: Env, s: State)
    requires NestedSummaries.Shaped(before, m) && Exact(checks, test, body, m, sum) && |sum.values| == m && |s| == m
        && Simplifies(simplify)
    requires |before.cur| == m && |AfterChild(before, body, m, sum).cur| == m
    requires !Holds(EntryQuery(before, m, sum), Store(e, m, s)) && Holds(before.pc, Store(e, m, s))
    ensures JumpedFrom(checks, test, body, m, before, AfterChild(before, body, m, sum),
                       simplify(Replace(sum.count, ParamMap(Params(m), before.cur))), e, s)
  {
    hide Scalar, Replace, ParamMap, Eval, EntryQuery, AfterChild, Modifies, LoopRuns, LoopFails, SummaryShaped,
        Simplifies;
    var u := Reached(before, m, e, s);
    ChildDomain(m, before, sum, checks, test, body, e, s);
    assert ExactAt(checks, test, body, m, sum, e, u);
    var trace :| LoopRuns(checks, test, body, e, u, trace);
    ChildValues(checks, test, body, m, sum, before, e, s, trace);
    LoopDoesNotFail(checks, test, body, e, u, trace);
    CountShape(sum, m);
    SubstMeans(sum.count, m, before, e, s);
    SimplifiedValue(simplify, Replace(sum.count, ParamMap(Params(m), before.cur)), Store(e, m, s));
  }

  lemma CountShape(sum: Summary, m: nat)
    requires SummaryShaped(sum, m)
    ensures Scalar(sum.count, m)
  {
  }
}
