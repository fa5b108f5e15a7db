/** Bottom-up summaries of loop nests: one symbolic iteration, a certified closed form, an exact domain. */
module NestedSummaries {
  import opened Terms
  import opened ClosedForms
  import opened LoopNests
  import opened CountTemplate
  import opened Acceleration

  /** What is known along one symbolic iteration: the path condition, the scalars as terms over the
      scalars at the start, and the error obligations met so far. */
  datatype Explored = Explored(pc: Term, cur: seq<Term>, err: Term)

  datatype Summary = Summary(domain: Term, count: Term, values: seq<Term>)

  ghost predicate Shaped(x: Explored, m: nat) {
    Scalar(x.pc, m) && Scalar(x.err, m) && |x.cur| == m && AllScalar(x.cur, m)
  }

  /** The store an exploration has reached, from a store at its start. */
  ghost function Reached(x: Explored, m: nat, e: Env, s: State): (u: State)
    requires |s| == m && |x.cur| == m
    ensures |u| == m
  {
    EvalAll(x.cur, Store(e, m, s))
  }

  /** One exploration continues another through a piece of code, at one starting store: the path
      condition says that the code runs to its end, the new store is where it ends, and the error
      obligations say that it fails. */
  ghost predicate TracksAt(code: Code, m: nat, before: Explored, after: Explored, e: Env, s: State)
    requires |s| == m && |before.cur| == m && |after.cur| == m
  {
    var b, u := Store(e, m, s), Reached(before, m, e, s);
    && (Holds(after.pc, b) <==> Holds(before.pc, b) && exists a :: LoopNests.Runs(code, e, u, a))
    && (Holds(after.pc, b) ==> LoopNests.Runs(code, e, u, Reached(after, m, e, s)))
    && (Holds(after.err, b) <==> Holds(before.err, b) || (Holds(before.pc, b) && Fails(code, e, u)))
  }

  ghost predicate Tracks(code: Code, m: nat, before: Explored, after: Explored) {
    && Shaped(before, m) && Shaped(after, m)
    && (forall e: Env, s: State | |s| == m :: TracksAt(code, m, before, after, e, s))
    && (forall x | 0 <= x < m && !Modifies(code, x) :: after.cur[x] == before.cur[x])
  }

  ghost predicate SummaryShaped(sum: Summary, m: nat) {
    && BindsAbove(sum.domain, m) && (forall id: nat :: Occurs(id, sum.domain) ==> id < m)
    && Scalar(sum.count, m) && |sum.values| == m && AllScalar(sum.values, m)
  }

  /** The summary is exact at a store: its domain holds if and only if the loop runs to its exit,
      and then the loop makes exactly `count` iterations and leaves with `values`. */
  ghost predicate ExactAt(checks: seq<Term>, test: Test, body: Code, m: nat, sum: Summary, e: Env, s: State)
    requires |s| == m && |sum.values| == m
  {
    var b := Store(e, m, s);
    && (Holds(sum.domain, b) <==> exists trace :: LoopRuns(checks, test, body, e, s, trace))
    && (forall trace | LoopRuns(checks, test, body, e, s, trace) ::
          |trace| - 1 == Eval(sum.count, b) && End(trace) == EvalAll(sum.values, b))
  }

  ghost predicate Exact(checks: seq<Term>, test: Test, body: Code, m: nat, sum: Summary) {
    SummaryShaped(sum, m) && forall e: Env, s: State | |s| == m :: ExactAt(checks, test, body, m, sum, e, s)
  }

  /* ---- the statements of an iteration ---- */

  lemma SubstScalar(t: Term, m: nat, cur: seq<Term>)
    requires Scalar(t, m) && |cur| == m && AllScalar(cur, m)
    ensures Scalar(Replace(t, ParamMap(Params(m), cur)), m)
  {
    hide QuantifierFree, Occurs, Replace;
    var mp := ParamMap(Params(m), cur);
    ReplaceQuantifierFree(t, mp);
    forall id: nat | Occurs(id, Replace(t, mp)) ensures id < m { OccursReplace(id, t, mp); }
  }

  /** A term rewritten to the current values is read at the store they denote. */
  lemma SubstMeans(t: Term, m: nat, x: Explored, e: Env, s: State)
    requires Scalar(t, m) && |x.cur| == m && |s| == m
    ensures Eval(Replace(t, ParamMap(Params(m), x.cur)), Store(e, m, s)) == Eval(t, Store(e, m, Reached(x, m, e, s)))
  {
    hide Occurs, QuantifierFree, Replace, Eval;
    NoCapture(t, ParamMap(Params(m), x.cur));
    EvalParams(t, Params(m), x.cur, Store(e, m, s), Store(e, m, Reached(x, m, e, s)));
  }

  function AfterCheck(x: Explored, cond: Term): Explored {
    Explored(Conj(x.pc, cond), x.cur, Disj(x.err, Conj(x.pc, Negate(cond))))
  }

  lemma AfterCheckShaped(x: Explored, cond: Term, m: nat)
    requires Shaped(x, m) && Scalar(cond, m)
    ensures Shaped(AfterCheck(x, cond), m)
  {
    NegateScalar(cond, m);
    BinaryScalar(And, x.pc, cond, m);
    BinaryScalar(And, x.pc, Negate(cond), m);
    BinaryScalar(Or, x.err, Conj(x.pc, Negate(cond)), m);
  }

  lemma NegateScalar(t: Term, m: nat)
    requires Scalar(t, m)
    ensures Scalar(Negate(t), m)
  {
    assert [t][0] == t;
  }

  /** Tracking goes through the first statement, then the rest. */
  lemma TrackAssign(x: nat, value: Term, next: Code, m: nat, before: Explored, mid: Explored, after: Explored)
    requires x < m && Scalar(value, m) && Shaped(before, m)
    requires mid == before.(cur := before.cur[x := Replace(value, ParamMap(Params(m), before.cur))])
    requires Tracks(next, m, mid, after)
    ensures Tracks(Assign(x, value, next), m, before, after)
  {
    hide Scalar, Replace, ParamMap, Fails, Eval, LoopNests.Runs;
    forall e: Env, s: State | |s| == m ensures TracksAt(Assign(x, value, next), m, before, after, e, s) {
      SubstMeans(value, m, before, e, s);
      var u := Reached(before, m, e, s);
      assert Reached(mid, m, e, s) == Assigned(x, value, e, u);
      assert TracksAt(next, m, mid, after, e, s);
      StepAssign(x, value, next, e, u);
    }
  }

  lemma StepAssign(x: nat, value: Term, next: Code, e: Env, u: State)
    ensures forall a :: LoopNests.Runs(Assign(x, value, next), e, u, a) <==>
        LoopNests.Runs(next, e, Assigned(x, value, e, u), a)
    ensures Fails(Assign(x, value, next), e, u) <==> Fails(next, e, Assigned(x, value, e, u))
  {
  }

  lemma StepCheck(cond: Term, next: Code, e: Env, u: State)
    ensures forall a :: LoopNests.Runs(Check(cond, next), e, u, a) <==>
        Holds(cond, Store(e, |u|, u)) && LoopNests.Runs(next, e, u, a)
    ensures Fails(Check(cond, next), e, u) <==> !Holds(cond, Store(e, |u|, u)) || Fails(next, e, u)
  {
  }

  lemma TrackCheck(cond: Term, next: Code, m: nat, before: Explored, mid: Explored, after: Explored)
    requires Scalar(cond, m) && Shaped(before, m)
    requires mid == AfterCheck(before, Replace(cond, ParamMap(Params(m), before.cur)))
    requires Tracks(next, m, mid, after)
    ensures Tracks(Check(cond, next), m, before, after)
  {
    hide Scalar, Replace, ParamMap, Fails, Eval, LoopNests.Runs;
    forall e: Env, s: State | |s| == m ensures TracksAt(Check(cond, next), m, before, after, e, s) {
      SubstMeans(cond, m, before, e, s);
      assert Reached(mid, m, e, s) == Reached(before, m, e, s);
      assert TracksAt(next, m, mid, after, e, s);
      StepCheck(cond, next, e, Reached(before, m, e, s));
    }
  }

  /** A path that does not come back: nothing returns, the obligations stay. */
  function Dead(x: Explored): Explored { Explored(Flag(false), x.cur, x.err) }

  lemma FlagScalar(b: bool, m: nat)
    ensures Scalar(Flag(b), m)
    ensures forall e :: Holds(Flag(b), e) <==> b
  {
  }

  /** An infeasible path needs no exploration. */
  lemma TrackDead(code: Code, m: nat, before: Explored)
    requires Shaped(before, m) && forall e :: !Holds(before.pc, e)
    ensures Tracks(code, m, before, Dead(before))
  {
    hide Scalar, Fails, Eval, LoopNests.Runs;
    FlagScalar(false, m);
    forall e: Env, s: State | |s| == m ensures TracksAt(code, m, before, Dead(before), e, s) {
      assert !Holds(before.pc, Store(e, m, s));
    }
  }

  /** Reaching an error call is an error obligation. */
  function AfterError(x: Explored): Explored { Dead(x).(err := Disj(x.err, x.pc)) }

  lemma TrackError(m: nat, before: Explored)
    requires Shaped(before, m)
    ensures Tracks(Error, m, before, AfterError(before))
  {
    hide Scalar, Eval;
    FlagScalar(false, m);
    BinaryScalar(Or, before.err, before.pc, m);
    forall e: Env, s: State | |s| == m ensures TracksAt(Error, m, before, AfterError(before), e, s) {
      assert forall a :: !LoopNests.Runs(Error, e, Reached(before, m, e, s), a);
    }
  }

  /** One side of a branch on a condition over the current values. */
  function Side(x: Explored, cond: Term, taken: bool): Explored {
    x.(pc := Conj(x.pc, if taken then cond else Negate(cond)))
  }

  lemma SideShaped(x: Explored, cond: Term, taken: bool, m: nat)
    requires Shaped(x, m) && Scalar(cond, m)
    ensures Shaped(Side(x, cond, taken), m)
  {
    hide Scalar;
    NegateScalar(cond, m);
    BinaryScalar(And, x.pc, cond, m);
    BinaryScalar(And, x.pc, Negate(cond), m);
  }

  /** Both sides together, when at most one of them comes back. */
  function Joined(l: Explored, r: Explored, leftLive: bool): Explored {
    Explored(if leftLive then l.pc else r.pc, if leftLive then l.cur else r.cur, Disj(l.err, r.err))
  }

  lemma StepBranch(cond: Term, thn: Code, els: Code, e: Env, u: State)
    ensures forall a :: LoopNests.Runs(Branch(cond, thn, els), e, u, a) <==>
      if Holds(cond, Store(e, |u|, u)) then LoopNests.Runs(thn, e, u, a) else LoopNests.Runs(els, e, u, a)
    ensures Fails(Branch(cond, thn, els), e, u) <==>
      if Holds(cond, Store(e, |u|, u)) then Fails(thn, e, u) else Fails(els, e, u)
  {
  }

  /** The exploration of a branch of which one side does not come back. */
  lemma TrackBranch(cond: Term, thn: Code, els: Code, m: nat, before: Explored, l: Explored, r: Explored,
      leftLive: bool)
    requires Scalar(cond, m) && Shaped(before, m)
    requires var c := Replace(cond, ParamMap(Params(m), before.cur));
      Tracks(thn, m, Side(before, c, true), l) && Tracks(els, m, Side(before, c, false), r)
    requires if leftLive then r.pc == Flag(false) else l.pc == Flag(false)
    ensures Tracks(Branch(cond, thn, els), m, before, Joined(l, r, leftLive))
  {
    hide Scalar, Replace, ParamMap, Fails, Eval, LoopNests.Runs, TracksAt, Modifies;
    var c := Replace(cond, ParamMap(Params(m), before.cur));
    var after := Joined(l, r, leftLive);
    BinaryScalar(Or, l.err, r.err, m);
    forall e: Env, s: State | |s| == m ensures TracksAt(Branch(cond, thn, els), m, before, after, e, s) {
      assert TracksAt(thn, m, Side(before, c, true), l, e, s);
      assert TracksAt(els, m, Side(before, c, false), r, e, s);
      TrackBranchAt(cond, thn, els, m, before, l, r, leftLive, e, s);
    }
    forall x | 0 <= x < m && !Modifies(Branch(cond, thn, els), x) ensures after.cur[x] == before.cur[x] {
      BranchModifies(cond, thn, els, x);
    }
  }

  lemma BranchModifies(cond: Term, thn: Code, els: Code, x: nat)
    ensures Modifies(Branch(cond, thn, els), x) <==> Modifies(thn, x) || Modifies(els, x)
  {
  }

  lemma TrackBranchAt(cond: Term, thn: Code, els: Code, m: nat, before: Explored, l: Explored, r: Explored,
      leftLive: bool,
                      e: Env, s: State)
    requires Scalar(cond, m) && |before.cur| == m == |l.cur| == |r.cur| && |s| == m
    requires var c := Replace(cond, ParamMap(Params(m), before.cur));
      TracksAt(thn, m, Side(before, c, true), l, e, s) && TracksAt(els, m, Side(before, c, false), r, e, s)
    requires if leftLive then r.pc == Flag(false) else l.pc == Flag(false)
    ensures TracksAt(Branch(cond, thn, els), m, before, Joined(l, r, leftLive), e, s)
  {
    hide Scalar, Replace, ParamMap, Fails, Eval, LoopNests.Runs, Store;
    var u := Reached(before, m, e, s);
    SubstMeans(cond, m, before, e, s);
    StepBranch(cond, thn, els, e, u);
    FlagScalar(false, m);
    var c := Replace(cond, ParamMap(Params(m), before.cur));
    assert Reached(Side(before, c, true), m, e, s) == u == Reached(Side(before, c, false), m, e, s);
    if leftLive { assert Reached(Joined(l, r, leftLive), m, e, s) == Reached(l, m, e, s); }
    else { assert Reached(Joined(l, r, leftLive), m, e, s) == Reached(r, m, e, s); }
  }

  /* ---- a child loop, replaced by its summary ---- */

  lemma {:induction false} AboveIsApart(t: Term, m: nat, cur: seq<Term>)
    requires BindsAbove(t, m) && |cur| == m && AllScalar(cur, m)
    ensures CaptureFree(t, ParamMap(Params(m), cur))
  {
    hide Occurs, QuantifierFree;
    match t
    case App(_, args) =>
      forall i | 0 <= i < |args| ensures CaptureFree(args[i], ParamMap(Params(m), cur)) {
        AboveIsApart(args[i], m, cur);
      }
    case Ite(c, a, b) => AboveIsApart(c, m, cur); AboveIsApart(a, m, cur); AboveIsApart(b, m, cur);
    case Quant(_, x, body) =>
      AboveIsApart(body, m, cur);
      forall u | u in ParamMap(Params(m), cur) ensures !Occurs(x, u) && !Occurs(x, ParamMap(Params(m), cur)[u]) {
        var i :| 0 <= i < m && u == Var(Params(m)[i]);
        VarOccurs(x, i);
      }
    case _ =>
  }

  lemma VarOccurs(x: nat, y: nat)
    ensures Occurs(x, Var(y)) <==> x == y
  {
  }

  /** A summary's domain, invoked on the current values, is the domain at the store they denote. */
  lemma DomainMeans(domain: Term, m: nat, x: Explored, e: Env, s: State)
    requires BindsAbove(domain, m) && (forall id: nat :: Occurs(id, domain) ==> id < m)
    requires |x.cur| == m && AllScalar(x.cur, m) && |s| == m
    ensures Eval(Replace(domain, ParamMap(Params(m), x.cur)), Store(e, m, s)) ==
        Eval(domain, Store(e, m, Reached(x, m, e, s)))
  {
    hide Occurs, QuantifierFree, Replace, Eval, BindsAbove, CaptureFree;
    AboveIsApart(domain, m, x.cur);
    EvalParams(domain, Params(m), x.cur, Store(e, m, s), Store(e, m, Reached(x, m, e, s)));
  }

  /** The jump over a child: its outputs take the summarised values, other scalars stay. */
  function AfterChild(x: Explored, body: Code, m: nat, sum: Summary): Explored
    requires |x.cur| == m == |sum.values|
  {
    x.(cur := seq(m, v requires 0 <= v < m =>
      if Modifies(body, v) then Replace(sum.values[v], ParamMap(Params(m), x.cur)) else x.cur[v]))
  }

  lemma AfterChildShaped(x: Explored, body: Code, m: nat, sum: Summary)
    requires Shaped(x, m) && SummaryShaped(sum, m)
    ensures Shaped(AfterChild(x, body, m, sum), m)
  {
    hide Scalar, Replace, BindsAbove, Occurs;
    forall v | 0 <= v < m ensures Scalar(AfterChild(x, body, m, sum).cur[v], m) {
      SubstScalar(sum.values[v], m, x.cur);
    }
  }

  /** What is asked of the solver before a child may be jumped over. */
  function EntryQuery(x: Explored, m: nat, sum: Summary): Term
    requires |x.cur| == m
  {
    Conj(x.pc, Negate(Replace(sum.domain, ParamMap(Params(m), x.cur))))
  }

  lemma TrackNest(checks: seq<Term>, test: Test, body: Code, next: Code, m: nat, sum: Summary,
                  before: Explored, mid: Explored, after: Explored)
    requires Shaped(before, m) && Exact(checks, test, body, m, sum) && |sum.values| == m
    requires forall e :: !Holds(EntryQuery(before, m, sum), e)
    requires mid == AfterChild(before, body, m, sum)
    requires Tracks(next, m, mid, after)
    ensures Tracks(Nest(checks, test, body, next), m, before, after)
  {
    hide Scalar, Replace, ParamMap, Fails, Eval, LoopNests.Runs, Exact, EntryQuery, AfterChild, TracksAt, Modifies,
        LoopRuns;
    forall e: Env, s: State | |s| == m ensures TracksAt(Nest(checks, test, body, next), m, before, after, e, s) {
      assert !Holds(EntryQuery(before, m, sum), Store(e, m, s));
      assert TracksAt(next, m, mid, after, e, s);
      TrackNestAt(checks, test, body, next, m, sum, before, mid, after, e, s);
    }
    ChildKeeps(before, body, m, sum);
    forall x | 0 <= x < m && !Modifies(Nest(checks, test, body, next), x) ensures after.cur[x] == before.cur[x] {
      NestModifies(checks, test, body, next, x);
    }
  }

  lemma NestModifies(checks: seq<Term>, test: Test, body: Code, next: Code, x: nat)
    ensures Modifies(Nest(checks, test, body, next), x) <==> Modifies(body, x) || Modifies(next, x)
  {
  }

  lemma ChildKeeps(x: Explored, body: Code, m: nat, sum: Summary)
    requires |x.cur| == m == |sum.values|
    ensures |AfterChild(x, body, m, sum).cur| == m
    ensures forall v | 0 <= v < m && !Modifies(body, v) :: AfterChild(x, body, m, sum).cur[v] == x.cur[v]
  {
  }

  lemma TrackNestAt(checks: seq<Term>, test: Test, body: Code, next: Code, m: nat, sum: Summary,
                    before: Explored, mid: Explored, after: Explored, e: Env, s: State)
    requires Shaped(before, m) && Exact(checks, test, body, m, sum) && |sum.values| == m && |s| == m
    requires !Holds(EntryQuery(before, m, sum), Store(e, m, s))
    requires mid == AfterChild(before, body, m, sum) && |after.cur| == m && |mid.cur| == m
    requires TracksAt(next, m, mid, after, e, s)
    ensures TracksAt(Nest(checks, test, body, next), m, before, after, e, s)
  {
    hide Scalar, Replace, ParamMap, Fails, Eval, LoopNests.Runs, LoopRuns, Modifies, SummaryShaped;
    var b, u := Store(e, m, s), Reached(before, m, e, s);
    if Holds(before.pc, b) {
      ChildDomain(m, before, sum, checks, test, body, e, s);
      assert ExactAt(checks, test, body, m, sum, e, u);
      var trace :| LoopRuns(checks, test, body, e, u, trace);
      ChildValues(checks, test, body, m, sum, before, e, s, trace);
      StepNest(checks, test, body, next, e, u, trace);
    }
  }

  lemma ChildDomain(m: nat, before: Explored, sum: Summary, checks: seq<Term>, test: Test, body: Code, e: Env, s: State)
    requires Shaped(before, m) && Exact(checks, test, body, m, sum) && |s| == m
    requires !Holds(EntryQuery(before, m, sum), Store(e, m, s)) && Holds(before.pc, Store(e, m, s))
    ensures Holds(sum.domain, Store(e, m, Reached(before, m, e, s)))
  {
    hide Scalar, Replace, ParamMap, Eval, ExactAt, BindsAbove, Occurs;
    DomainMeans(sum.domain, m, before, e, s);
  }

  lemma ChildValues(checks: seq<Term>, test: Test, body: Code, m: nat, sum: Summary, before: Explored,
                    e: Env, s: State, trace: seq<State>)
    requires Shaped(before, m) && Exact(checks, test, body, m, sum) && |s| == m && |sum.values| == m
    requires LoopRuns(checks, test, body, e, Reached(before, m, e, s), trace)
    ensures |AfterChild(before, body, m, sum).cur| == m
    ensures Reached(AfterChild(before, body, m, sum), m, e, s) == End(trace)
  {
    hide Scalar, Replace, ParamMap, Eval, LoopRuns, Modifies, BindsAbove, Occurs;
    var u := Reached(before, m, e, s);
    LoopKeeps(checks, test, body, e, u, trace);
    assert ExactAt(checks, test, body, m, sum, e, u);
    forall v | 0 <= v < m ensures Reached(AfterChild(before, body, m, sum), m, e, s)[v] == End(trace)[v] {
      if Modifies(body, v) { SubstMeans(sum.values[v], m, before, e, s); }
    }
  }

  lemma StepNest(checks: seq<Term>, test: Test, body: Code, next: Code, e: Env, u: State, trace: seq<State>)
    requires LoopRuns(checks, test, body, e, u, trace)
    ensures forall a :: LoopNests.Runs(Nest(checks, test, body, next), e, u, a) <==>
        LoopNests.Runs(next, e, End(trace), a)
    ensures Fails(Nest(checks, test, body, next), e, u) <==> Fails(next, e, End(trace))
  {
    hide LoopRuns, LoopFails;
    LoopDoesNotFail(checks, test, body, e, u, trace);
    forall other | LoopRuns(checks, test, body, e, u, other) ensures other == trace {
      OneTrace(checks, test, body, e, u, trace, other);
    }
  }

  /* ---- one iteration, and the domain of the whole loop ---- */

  /** One symbolic iteration: when it returns to the header and where, when it leaves, and when it
      fails. */
  datatype Iteration = Iteration(stay: Term, leave: Term, cur: seq<Term>, err: Term)

  ghost predicate IterationAt(checks: seq<Term>, test: Test, body: Code, m: nat, it: Iteration, e: Env, s: State)
    requires |s| == m && |it.cur| == m
  {
    var b := Store(e, m, s);
    && (Holds(it.stay, b) <==>
        ChecksHold(checks, e, s) && Continues(test, e, s) && exists a :: LoopNests.Runs(body, e, s, a))
    && (Holds(it.stay, b) ==> LoopNests.Runs(body, e, s, EvalAll(it.cur, b)))
    && (Holds(it.leave, b) <==> ChecksHold(checks, e, s) && !Continues(test, e, s))
    && (Holds(it.err, b) <==> FailsAt(checks, test, body, e, s))
  }

  ghost predicate Iterates(checks: seq<Term>, test: Test, body: Code, m: nat, it: Iteration) {
    && Scalar(it.stay, m) && Scalar(it.leave, m) && Scalar(it.err, m) && |it.cur| == m && AllScalar(it.cur, m)
    && (forall e: Env, s: State | |s| == m :: IterationAt(checks, test, body, m, it, e, s))
    && (forall x | 0 <= x < m && !Modifies(body, x) :: it.cur[x] == Var(x))
  }

  /** The composite's map is the map of the iteration. */
  ghost predicate SameMap(oneStep: seq<Term>, it: Iteration, m: nat) {
    |oneStep| == m == |it.cur|
        && forall e: Env, s: State | |s| == m :: EvalAll(oneStep, Store(e, m, s)) == EvalAll(it.cur, Store(e, m, s))
  }

  /** The summary domain at a store: the exit is taken at the n-th iterate, every earlier iterate
      returns, and no iterate up to the n-th fails. */
  ghost predicate DomainAt(it: Iteration, oneStep: seq<Term>, m: nat, e: Env, s: State, n: int)
    requires |s| == m == |oneStep|
  {
    && n >= 0 && Holds(it.leave, Store(e, m, Trajectory(oneStep, m, e, s, n)))
    && (forall t: nat | t < n :: Holds(it.stay, Store(e, m, Trajectory(oneStep, m, e, s, t))))
    && (forall t: nat | t <= n :: !Holds(it.err, Store(e, m, Trajectory(oneStep, m, e, s, t))))
  }

  lemma NextPoint(it: Iteration, oneStep: seq<Term>, m: nat, e: Env, s: State, t: nat)
    requires SameMap(oneStep, it, m) && |s| == m
    ensures Trajectory(oneStep, m, e, s, 0) == s
    ensures Trajectory(oneStep, m, e, s, t + 1) == EvalAll(it.cur, Store(e, m, Trajectory(oneStep, m, e, s, t)))
  {
    hide Eval;
    var u := Trajectory(oneStep, m, e, s, t);
    assert EvalAll(oneStep, Store(e, m, u)) == EvalAll(it.cur, Store(e, m, u));
  }

  /** If the domain holds, the loop runs: exactly n iterations, through the iterates. */
  lemma DomainRuns(checks: seq<Term>, test: Test, body: Code, m: nat, it: Iteration, oneStep: seq<Term>,
                   e: Env, s: State, n: nat)
    requires Iterates(checks, test, body, m, it) && SameMap(oneStep, it, m) && |s| == m
    requires DomainAt(it, oneStep, m, e, s, n)
    ensures LoopRuns(checks, test, body, e, s, seq(n + 1, t requires 0 <= t <= n => Trajectory(oneStep, m, e, s, t)))
  {
    hide Eval, LoopNests.Runs, FailsAt, ChecksHold, Continues, Scalar, Trajectory, Iterates, IterationAt, SameMap;
    SameWidth(oneStep, it, m);
    var trace := seq(n + 1, t requires 0 <= t <= n => Trajectory(oneStep, m, e, s, t));
    NextPoint(it, oneStep, m, e, s, 0);
    forall t | 0 <= t < |trace| - 1
      ensures ChecksHold(checks, e, trace[t]) && Continues(test, e, trace[t])
          && LoopNests.Runs(body, e, trace[t], trace[t + 1])
    {
      NextPoint(it, oneStep, m, e, s, t);
      IteratesHere(checks, test, body, m, it, e, trace[t]);
      assert Holds(it.stay, Store(e, m, Trajectory(oneStep, m, e, s, t)));
    }
    IteratesHere(checks, test, body, m, it, e, trace[n]);
  }

  lemma IteratesHere(checks: seq<Term>, test: Test, body: Code, m: nat, it: Iteration, e: Env, s: State)
    requires Iterates(checks, test, body, m, it) && |s| == m
    ensures |it.cur| == m
    ensures var b := Store(e, m, s);
      && (Holds(it.stay, b) ==>
          ChecksHold(checks, e, s) && Continues(test, e, s) && LoopNests.Runs(body, e, s, EvalAll(it.cur, b)))
      && (Holds(it.leave, b) ==> ChecksHold(checks, e, s) && !Continues(test, e, s))
  {
    hide Eval, LoopNests.Runs, FailsAt, ChecksHold, Continues, Scalar;
    assert IterationAt(checks, test, body, m, it, e, s);
  }

  /** A loop that runs to its exit goes through the iterates. */
  lemma {:induction false} RunFollows(checks: seq<Term>, test: Test, body: Code, m: nat, it: Iteration,
      oneStep: seq<Term>,
                                      e: Env, s: State, trace: seq<State>, t: nat)
    requires Iterates(checks, test, body, m, it) && SameMap(oneStep, it, m) && |s| == m
    requires Iterations(checks, test, body, e, s, trace) && t < |trace|
    ensures trace[t] == Trajectory(oneStep, m, e, s, t)
    ensures t < |trace| - 1 ==> Holds(it.stay, Store(e, m, Trajectory(oneStep, m, e, s, t)))
  {
    hide Eval, LoopNests.Runs, FailsAt, ChecksHold, Continues, Scalar, Trajectory;
    NextPoint(it, oneStep, m, e, s, 0);
    if t > 0 {
      var r := t - 1;
      RunFollows(checks, test, body, m, it, oneStep, e, s, trace, r);
      NextPoint(it, oneStep, m, e, s, r);
      assert IterationAt(checks, test, body, m, it, e, trace[r]);
      assert LoopNests.Runs(body, e, trace[r], trace[r + 1]);
      OneRun(body, e, trace[r], trace[r + 1], EvalAll(it.cur, Store(e, m, trace[r])));
    }
    assert IterationAt(checks, test, body, m, it, e, trace[t]);
    if t < |trace| - 1 { assert LoopNests.Runs(body, e, trace[t], trace[t + 1]); }
  }

  /** If the loop runs to its exit, the domain holds at the least break, which is its iteration
      count. */
  lemma RunInDomain(checks: seq<Term>, test: Test, body: Code, m: nat, it: Iteration, oneStep: seq<Term>, count: Term,
                    e: Env, s: State, trace: seq<State>)
    requires Iterates(checks, test, body, m, it) && SameMap(oneStep, it, m) && |s| == m
    requires LeastBreak(count, test, oneStep, m, e, s)
    requires LoopRuns(checks, test, body, e, s, trace)
    ensures |trace| - 1 == Eval(count, Store(e, m, s))
    ensures End(trace) == Trajectory(oneStep, m, e, s, |trace| - 1)
    ensures DomainAt(it, oneStep, m, e, s, |trace| - 1)
  {
    hide Eval, LoopNests.Runs, FailsAt, ChecksHold, Continues, Scalar, Trajectory, Iterates, Iterations;
    TraceNonempty(checks, test, body, e, s, trace);
    var n := |trace| - 1;
    forall t: nat | t <= n ensures trace[t] == Trajectory(oneStep, m, e, s, t)
      && (t < n ==> Holds(it.stay, Store(e, m, Trajectory(oneStep, m, e, s, t))))
    {
      RunFollows(checks, test, body, m, it, oneStep, e, s, trace, t);
    }
    LastLeaves(checks, test, body, m, it, e, s, trace);
    forall t: nat | t <= n ensures !Holds(it.err, Store(e, m, trace[t])) && (t < n ==> Continues(test, e, trace[t])) {
      NoErrorAt(checks, test, body, m, it, e, s, trace, t);
    }
    var c := Eval(count, Store(e, m, s));
    var k: nat := if c < n then c else n;
    assert Continues(test, e, Trajectory(oneStep, m, e, s, k)) <==> k < c;
  }

  lemma TraceNonempty(checks: seq<Term>, test: Test, body: Code, e: Env, s: State, trace: seq<State>)
    requires LoopRuns(checks, test, body, e, s, trace)
    ensures |trace| >= 1 && Iterations(checks, test, body, e, s, trace)
  {
  }

  lemma LastLeaves(checks: seq<Term>, test: Test, body: Code, m: nat, it: Iteration, e: Env, s: State,
      trace: seq<State>)
    requires Iterates(checks, test, body, m, it) && |s| == m
    requires LoopRuns(checks, test, body, e, s, trace)
    ensures |trace| >= 1 && |End(trace)| == m && !Continues(test, e, End(trace))
        && Holds(it.leave, Store(e, m, End(trace)))
  {
    hide Eval, LoopNests.Runs, FailsAt, ChecksHold, Continues, Scalar;
    LoopKeeps(checks, test, body, e, s, trace);
    assert IterationAt(checks, test, body, m, it, e, End(trace));
  }

  lemma NoErrorAt(checks: seq<Term>, test: Test, body: Code, m: nat, it: Iteration, e: Env, s: State,
      trace: seq<State>, t: nat)
    requires Iterates(checks, test, body, m, it) && |s| == m
    requires LoopRuns(checks, test, body, e, s, trace) && t < |trace|
    ensures |trace[t]| == m && !Holds(it.err, Store(e, m, trace[t]))
    ensures t < |trace| - 1 ==> Continues(test, e, trace[t])
  {
    hide Eval, LoopNests.Runs, FailsAt, ChecksHold, Continues, Scalar;
    IterationsKeep(checks, test, body, e, s, trace, t);
    LoopDoesNotFail(checks, test, body, e, s, trace);
    assert Iterations(checks, test, body, e, s, trace[..t + 1]);
    assert End(trace[..t + 1]) == trace[t];
    assert IterationAt(checks, test, body, m, it, e, trace[t]);
  }

  /* ---- the domain as a formula ---- */

  lemma ScalarAgree(t: Term, m: nat, e: Env, e': Env)
    requires Scalar(t, m) && e.fns == e'.fns && forall id: nat | id < m :: Lookup(e, id) == Lookup(e', id)
    ensures Eval(t, e) == Eval(t, e')
  {
    EvalAgree(t, e, e');
  }

  /** A scalar term rewritten to terms of known value is read at the store of those values. */
  lemma TermAtPoint(t: Term, m: nat, images: seq<Term>, b: Env, e: Env, u: State)
    requires Scalar(t, m) && |images| == m == |u| && EvalAll(images, b) == u && b.fns == e.fns
    ensures Eval(Replace(t, ParamMap(Params(m), images)), b) == Eval(t, Store(e, m, u))
  {
    hide Occurs, QuantifierFree, Replace, Eval;
    NoCapture(t, ParamMap(Params(m), images));
    assert forall i :: 0 <= i < m ==> u[i] == EvalAll(images, b)[i];
    EvalParams(t, Params(m), images, b, Store(e, m, u));
  }

  lemma {:induction false} TrajectoryAgree(it: Iteration, oneStep: seq<Term>, m: nat, e: Env, e': Env, s: State, t: nat)
    requires SameMap(oneStep, it, m) && AllScalar(it.cur, m) && |s| == m && e.fns == e'.fns
    ensures Trajectory(oneStep, m, e, s, t) == Trajectory(oneStep, m, e', s, t)
  {
    hide Eval, Scalar, Trajectory, SameMap;
    SameWidth(oneStep, it, m);
    NextPoint(it, oneStep, m, e, s, 0);
    NextPoint(it, oneStep, m, e', s, 0);
    if t > 0 {
      TrajectoryAgree(it, oneStep, m, e, e', s, t - 1);
      NextPoint(it, oneStep, m, e, s, t - 1);
      NextPoint(it, oneStep, m, e', s, t - 1);
      var u := Trajectory(oneStep, m, e, s, t - 1);
      forall i | 0 <= i < m ensures EvalAll(it.cur, Store(e, m, u))[i] == EvalAll(it.cur, Store(e', m, u))[i] {
        ScalarAgree(it.cur[i], m, Store(e, m, u), Store(e', m, u));
      }
    }
  }

  lemma SameWidth(oneStep: seq<Term>, it: Iteration, m: nat)
    requires SameMap(oneStep, it, m)
    ensures |oneStep| == m == |it.cur|
  {
  }

  /** The closed forms with the induction variable replaced by a count. */
  function ClosedAtTerm(closed: seq<Term>, ind: nat, count: Term, simplify: Rewriter): seq<Term> {
    seq(|closed|, i requires 0 <= i < |closed| => simplify(Replace(closed[i], map[Var(ind) := count])))
  }

  /** Everything known about the closed form of an iteration. */
  ghost predicate Solved(it: Iteration, oneStep: seq<Term>, closed: seq<Term>, m: nat, ind: nat) {
    && SameMap(oneStep, it, m) && AllScalar(it.cur, m) && |closed| == m && Plain(closed)
    && ind >= m && Closes(oneStep, closed, Params(m), ind)
  }

  /** Read where the count has value n, the closed forms are the n-th point of the trajectory. */
  lemma ClosedIsPoint(it: Iteration, oneStep: seq<Term>, closed: seq<Term>, m: nat, ind: nat, count: Term,
                      simplify: Rewriter, b: Env, e: Env, s: State, n: nat)
    requires Solved(it, oneStep, closed, m, ind) && |s| == m && Simplifies(simplify)
    requires QuantifierFree(count) && Eval(count, b) == n && b.fns == e.fns
    requires forall i | 0 <= i < m :: Lookup(b, i) == s[i]
    ensures |oneStep| == m
    ensures EvalAll(ClosedAtTerm(closed, ind, count, simplify), b) == Trajectory(oneStep, m, e, s, n)
  {
    hide Occurs, QuantifierFree, Replace, Eval, Simplifies, SameMap, Scalar;
    SameWidth(oneStep, it, m);
    TrajectoryAgree(it, oneStep, m, e, b, s, n);
    var images := ClosedAtTerm(closed, ind, count, simplify);
    var point := At(b, Params(m), s, ind, n);
    assert EvalAll(closed, point) == Trajectory(oneStep, m, b, s, n);
    forall i | 0 <= i < m ensures EvalAll(images, b)[i] == EvalAll(closed, point)[i] {
      ClosedComponent(closed[i], m, ind, count, simplify, b, s, n);
    }
  }

  lemma ClosedComponent(closed: Term, m: nat, ind: nat, count: Term, simplify: Rewriter, b: Env, s: State, n: nat)
    requires QuantifierFree(closed) && QuantifierFree(count) && Eval(count, b) == n && ind >= m && |s| == m
        && Simplifies(simplify)
    requires forall i | 0 <= i < m :: Lookup(b, i) == s[i]
    ensures Eval(simplify(Replace(closed, map[Var(ind) := count])), b) == Eval(closed, At(b, Params(m), s, ind, n))
  {
    hide Occurs, QuantifierFree, Replace, Simplifies;
    var mp := map[Var(ind) := count];
    SimplifiedValue(simplify, Replace(closed, mp), b);
    NoCapture(closed, mp);
    EvalReplace(closed, mp, b, Set(b, ind, n));
    EvalAgree(closed, Set(b, ind, n), At(b, Params(m), s, ind, n));
  }

  function UpTo(probe: nat, count: Term): Term {
    Conj(AtMost(Num(0), Var(probe)), AtMost(Var(probe), count))
  }

  /** The summary domain: count, exit, returning trajectory, and no error along it. */
  function DomainFormula(it: Iteration, m: nat, count: Term, trajectory: seq<Term>, final: seq<Term>, probe: nat): Term
    requires |trajectory| == m == |final|
  {
    Conj(Conj(Conj(AtMost(Num(0), count), Replace(it.leave, ParamMap(Params(m), final))),
              ForAll(probe, Implies(InRange(probe, count), Replace(it.stay, ParamMap(Params(m), trajectory))))),
         ForAll(probe, Implies(UpTo(probe, count), Negate(Replace(it.err, ParamMap(Params(m), trajectory))))))
  }

  lemma DomainParts(it: Iteration, m: nat, count: Term, trajectory: seq<Term>, final: seq<Term>, probe: nat, b: Env)
    requires |trajectory| == m == |final|
    ensures Holds(DomainFormula(it, m, count, trajectory, final, probe), b) <==>
      && 0 <= Eval(count, b) && Holds(Replace(it.leave, ParamMap(Params(m), final)), b)
      && (forall t: int :: 0 <= t < Eval(count, Set(b, probe, t)) ==>
          Holds(Replace(it.stay, ParamMap(Params(m), trajectory)), Set(b, probe, t)))
      && (forall t: int :: 0 <= t <= Eval(count, Set(b, probe, t)) ==>
          !Holds(Replace(it.err, ParamMap(Params(m), trajectory)), Set(b, probe, t)))
  {
    hide Replace, ParamMap, Occurs;
    var stay, err := Replace(it.stay, ParamMap(Params(m), trajectory)),
        Replace(it.err, ParamMap(Params(m), trajectory));
    assert Eval(Num(0), b) == 0;
    assert Holds(AtMost(Num(0), count), b) <==> 0 <= Eval(count, b);
    forall t: int
      ensures Holds(Implies(InRange(probe, count), stay), Set(b, probe, t)) <==>
        (0 <= t < Eval(count, Set(b, probe, t)) ==> Holds(stay, Set(b, probe, t)))
    {
      InRangeMeans(probe, count, Set(b, probe, t));
    }
    forall t: int
      ensures Holds(Implies(UpTo(probe, count), Negate(err)), Set(b, probe, t)) <==>
        (0 <= t <= Eval(count, Set(b, probe, t)) ==> !Holds(err, Set(b, probe, t)))
    {
      UpToMeans(probe, count, Set(b, probe, t));
    }
  }

  lemma UpToMeans(probe: nat, count: Term, e: Env)
    ensures Holds(UpTo(probe, count), e) <==> 0 <= Lookup(e, probe) <= Eval(count, e)
  {
    assert Eval(Var(probe), e) == Lookup(e, probe) && Eval(Num(0), e) == 0;
  }

  ghost predicate IterationScalar(it: Iteration, m: nat) {
    Scalar(it.stay, m) && Scalar(it.leave, m) && Scalar(it.err, m)
  }

  /** At a point of the trajectory named by the probe, a rewritten condition is the condition there. */
  lemma ProbePoint(cond: Term, it: Iteration, oneStep: seq<Term>, closed: seq<Term>, m: nat, ind: nat, probe: nat,
                   simplify: Rewriter, e: Env, s: State, t: nat)
    requires Solved(it, oneStep, closed, m, ind) && |s| == m && Simplifies(simplify) && Scalar(cond, m) && probe >= m
    ensures |oneStep| == m && |ClosedAtTerm(closed, ind, Var(probe), simplify)| == m
    ensures Eval(Replace(cond, ParamMap(Params(m), ClosedAtTerm(closed, ind, Var(probe), simplify))),
        Set(Store(e, m, s), probe, t))
         == Eval(cond, Store(e, m, Trajectory(oneStep, m, e, s, t)))
  {
    hide Occurs, QuantifierFree, Replace, Eval, Simplifies, Scalar, Solved, Trajectory;
    var b := Set(Store(e, m, s), probe, t);
    VarPlain(probe, b);
    ClosedIsPoint(it, oneStep, closed, m, ind, Var(probe), simplify, b, e, s, t);
    TermAtPoint(cond, m, ClosedAtTerm(closed, ind, Var(probe), simplify), b, e, Trajectory(oneStep, m, e, s, t));
  }

  lemma VarPlain(x: nat, b: Env)
    ensures QuantifierFree(Var(x)) && Eval(Var(x), b) == Lookup(b, x)
  {
  }

  lemma ProbedEverywhere(cond: Term, it: Iteration, oneStep: seq<Term>, closed: seq<Term>, m: nat, ind: nat, probe: nat,
                         simplify: Rewriter, e: Env, s: State)
    requires Solved(it, oneStep, closed, m, ind) && |s| == m && Simplifies(simplify) && Scalar(cond, m) && probe >= m
    ensures |oneStep| == m && |ClosedAtTerm(closed, ind, Var(probe), simplify)| == m
    ensures forall t: nat ::
      Holds(Replace(cond, ParamMap(Params(m), ClosedAtTerm(closed, ind, Var(probe), simplify))),
          Set(Store(e, m, s), probe, t))
      <==> Holds(cond, Store(e, m, Trajectory(oneStep, m, e, s, t)))
  {
    hide Occurs, QuantifierFree, Replace, Eval, Simplifies, Scalar, Solved, Trajectory, Set, ClosedAtTerm, ParamMap;
    ProbePoint(cond, it, oneStep, closed, m, ind, probe, simplify, e, s, 0);
    forall t: nat
      ensures Holds(Replace(cond, ParamMap(Params(m), ClosedAtTerm(closed, ind, Var(probe), simplify))),
          Set(Store(e, m, s), probe, t))
        <==> Holds(cond, Store(e, m, Trajectory(oneStep, m, e, s, t)))
    {
      ProbePoint(cond, it, oneStep, closed, m, ind, probe, simplify, e, s, t);
    }
  }

  lemma CountIgnoresProbe(count: Term, m: nat, probe: nat, e: Env, s: State)
    requires Scalar(count, m) && |s| == m && probe >= m
    ensures forall t: int :: Eval(count, Set(Store(e, m, s), probe, t)) == Eval(count, Store(e, m, s))
  {
    hide Eval, Scalar;
    forall t: int ensures Eval(count, Set(Store(e, m, s), probe, t)) == Eval(count, Store(e, m, s)) {
      ScalarAgree(count, m, Set(Store(e, m, s), probe, t), Store(e, m, s));
    }
  }

  lemma DomainMeansAt(it: Iteration, oneStep: seq<Term>, closed: seq<Term>, m: nat, ind: nat, probe: nat, count: Term,
                      simplify: Rewriter, e: Env, s: State)
    requires Solved(it, oneStep, closed, m, ind) && IterationScalar(it, m) && Scalar(count, m)
    requires |s| == m && Simplifies(simplify) && probe >= m
    requires |ClosedAtTerm(closed, ind, Var(probe), simplify)| == m == |ClosedAtTerm(closed, ind, count, simplify)|
    ensures |oneStep| == m
    ensures
      var n := Eval(count, Store(e, m, s));
      var domain :=
          DomainFormula(it, m, count, ClosedAtTerm(closed, ind, Var(probe), simplify),
          ClosedAtTerm(closed, ind, count, simplify), probe);
      Holds(domain, Store(e, m, s)) <==> DomainAt(it, oneStep, m, e, s, n)
  {
    hide Occurs, QuantifierFree, Replace, Eval, Simplifies, Solved, Trajectory, DomainFormula, ClosedAtTerm, ParamMap,
        Scalar,
         Set, Store, Params;
    var b := Store(e, m, s);
    var n := Eval(count, b);
    SolvedWidth(it, oneStep, closed, m, ind);
    DomainParts(it, m, count, ClosedAtTerm(closed, ind, Var(probe), simplify),
        ClosedAtTerm(closed, ind, count, simplify), probe, b);
    CountIgnoresProbe(count, m, probe, e, s);
    ProbedEverywhere(it.stay, it, oneStep, closed, m, ind, probe, simplify, e, s);
    ProbedEverywhere(it.err, it, oneStep, closed, m, ind, probe, simplify, e, s);
    if n >= 0 {
      FinalPoint(it, oneStep, closed, m, ind, count, simplify, e, s);
    }
  }

  lemma SolvedWidth(it: Iteration, oneStep: seq<Term>, closed: seq<Term>, m: nat, ind: nat)
    requires Solved(it, oneStep, closed, m, ind)
    ensures |oneStep| == m == |closed|
  {
  }

  lemma FinalPoint(it: Iteration, oneStep: seq<Term>, closed: seq<Term>, m: nat, ind: nat, count: Term,
                   simplify: Rewriter, e: Env, s: State)
    requires Solved(it, oneStep, closed, m, ind) && Scalar(count, m) && Scalar(it.leave, m)
    requires |s| == m && Simplifies(simplify) && Eval(count, Store(e, m, s)) >= 0
    ensures |oneStep| == m && |ClosedAtTerm(closed, ind, count, simplify)| == m
    ensures var n := Eval(count, Store(e, m, s));
      && EvalAll(ClosedAtTerm(closed, ind, count, simplify), Store(e, m, s)) == Trajectory(oneStep, m, e, s, n)
      && Eval(Replace(it.leave, ParamMap(Params(m), ClosedAtTerm(closed, ind, count, simplify))), Store(e, m, s))
         == Eval(it.leave, Store(e, m, Trajectory(oneStep, m, e, s, n)))
  {
    hide Occurs, Replace, Eval, Simplifies, Solved, Trajectory;
    var b := Store(e, m, s);
    ClosedIsPoint(it, oneStep, closed, m, ind, count, simplify, b, e, s, Eval(count, b));
    TermAtPoint(it.leave, m, ClosedAtTerm(closed, ind, count, simplify), b, e,
        Trajectory(oneStep, m, e, s, Eval(count, b)));
  }

  /** The summary theorem: with a certified closed form and a count that is the least break, the
      domain formula holds exactly where the loop runs to its exit, and then the count and the
      values are the loop's. */
  lemma SummaryIsExact(checks: seq<Term>, test: Test, body: Code, m: nat, it: Iteration, oneStep: seq<Term>,
      closed: seq<Term>,
                       ind: nat, probe: nat, count: Term, simplify: Rewriter, domain: Term, e: Env, s: State)
    requires Iterates(checks, test, body, m, it) && Solved(it, oneStep, closed, m, ind) && Scalar(count, m)
    requires |s| == m && Simplifies(simplify) && probe >= m && |oneStep| == m
    requires LeastBreak(count, test, oneStep, m, e, s)
    requires |ClosedAtTerm(closed, ind, Var(probe), simplify)| == m == |ClosedAtTerm(closed, ind, count, simplify)|
    requires Holds(domain, Store(e, m, s)) <==>
      Holds(DomainFormula(it, m, count, ClosedAtTerm(closed, ind, Var(probe), simplify),
          ClosedAtTerm(closed, ind, count, simplify), probe), Store(e, m, s))
    ensures ExactAt(checks, test, body, m, Summary(domain, count, ClosedAtTerm(closed, ind, count, simplify)), e, s)
  {
    hide Occurs, QuantifierFree, Replace, Eval, Simplifies, Solved, Trajectory, DomainFormula, ClosedAtTerm, Iterates,
        Scalar,
         LoopRuns, LeastBreak, DomainAt, Store, IterationScalar, SameMap, AllScalar;
    var b := Store(e, m, s);
    var n := Eval(count, b);
    IterationShape(checks, test, body, m, it);
    DomainMeansAt(it, oneStep, closed, m, ind, probe, count, simplify, e, s);
    SolvedMap(it, oneStep, closed, m, ind);
    if Holds(domain, b) {
      CountNonNegative(it, oneStep, m, e, s, n);
      DomainRuns(checks, test, body, m, it, oneStep, e, s, n);
    }
    forall trace | LoopRuns(checks, test, body, e, s, trace)
      ensures Holds(domain, b) && |trace| - 1 == n
          && End(trace) == EvalAll(ClosedAtTerm(closed, ind, count, simplify), b)
    {
      RunInDomain(checks, test, body, m, it, oneStep, count, e, s, trace);
      RunValues(it, oneStep, closed, m, ind, count, simplify, e, s);
    }
  }

  lemma RunValues(it: Iteration, oneStep: seq<Term>, closed: seq<Term>, m: nat, ind: nat, count: Term,
                  simplify: Rewriter, e: Env, s: State)
    requires Solved(it, oneStep, closed, m, ind) && IterationScalar(it, m) && Scalar(count, m)
    requires |s| == m == |oneStep| && Simplifies(simplify)
        && DomainAt(it, oneStep, m, e, s, Eval(count, Store(e, m, s)))
    ensures Eval(count, Store(e, m, s)) >= 0
    ensures EvalAll(ClosedAtTerm(closed, ind, count, simplify), Store(e, m, s))
         == Trajectory(oneStep, m, e, s, Eval(count, Store(e, m, s)))
  {
    hide Occurs, Replace, Eval, Simplifies, Solved, Trajectory, DomainAt, ClosedAtTerm, Scalar, Store;
    CountNonNegative(it, oneStep, m, e, s, Eval(count, Store(e, m, s)));
    FinalPoint(it, oneStep, closed, m, ind, count, simplify, e, s);
  }

  lemma CountNonNegative(it: Iteration, oneStep: seq<Term>, m: nat, e: Env, s: State, n: int)
    requires |s| == m == |oneStep| && DomainAt(it, oneStep, m, e, s, n)
    ensures n >= 0
  {
  }

  lemma IterationShape(checks: seq<Term>, test: Test, body: Code, m: nat, it: Iteration)
    requires Iterates(checks, test, body, m, it)
    ensures IterationScalar(it, m) && |it.cur| == m && AllScalar(it.cur, m)
  {
  }

  lemma SolvedMap(it: Iteration, oneStep: seq<Term>, closed: seq<Term>, m: nat, ind: nat)
    requires Solved(it, oneStep, closed, m, ind)
    ensures SameMap(oneStep, it, m)
  {
  }
}
