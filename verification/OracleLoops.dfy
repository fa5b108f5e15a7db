/** Loops left by a nondeterministic Boolean at the header: the "any finite n" exit, with the oracle
    sequence that reaches it. */
module OracleLoops {
  import opened Terms
  import opened PathWords
  import opened ClosedForms
  import opened Acceleration
  import opened HeaderJumps
  import opened Wrappers

  /** The header branch: on the oracle, or on its negation; one successor stays in the loop. */
  datatype Control = Control(firstInside: bool, negated: bool, oracle: nat) {
    function ContinueValue(): bool { firstInside != negated }

    /** The branch taken when the oracle answers b. */
    predicate Stays(b: bool) {
      if b != negated then firstInside else !firstInside
    }
  }

  lemma StaysOnContinue(control: Control, b: bool)
    ensures control.Stays(b) <==> b == control.ContinueValue()
  {
  }

  /** The four shapes of the branch: which answer stays. */
  lemma StaysTable(oracle: nat)
    ensures Control(true, false, oracle).Stays(true) && !Control(true, false, oracle).Stays(false)
    ensures Control(false, true, oracle).Stays(true) && !Control(false, true, oracle).Stays(false)
    ensures Control(true, true, oracle).Stays(false) && !Control(true, true, oracle).Stays(true)
    ensures Control(false, false, oracle).Stays(false) && !Control(false, false, oracle).Stays(true)
  {
  }

  /* ---- the concrete loop: one oracle value per header visit ---- */

  /** A path is taken after the oracle answered b: its guard may test the answer. */
  ghost predicate Taken(raw: Loop, control: Control, p: Symbol, b: bool, e: Env, s: State)
    requires WellFormed(raw) && |s| == |raw.params|
  {
    p in raw.trs && Holds(raw.trs[p].guard, Set(Bind(e, raw.params, s), control.oracle, B(b)))
  }

  /** The loop consumes exactly these oracle values and leaves with header state t. A value that
      stays with no path enabled has no continuation. */
  ghost predicate ExitsUnder(raw: Loop, control: Control, e: Env, s: State, values: seq<bool>, t: State)
    requires WellFormed(raw) && |s| == |raw.params|
    decreases |values|
  {
    values != [] &&
    if !control.Stays(values[0]) then |values| == 1 && t == s
    else exists p :: Taken(raw, control, p, values[0], e, s)
                  && ExitsUnder(raw, control, e, Step(raw.trs[p], raw.params, e, s), values[1..], t)
  }

  /** n continue values, then one that leaves. */
  function Canonical(control: Control, n: nat): seq<bool> {
    if n == 0 then [!control.ContinueValue()] else [control.ContinueValue()] + Canonical(control, n - 1)
  }

  /* ---- projecting the oracle out of the guards ---- */

  /** project_nondet_control: the oracle's answer replaced by the continue value. */
  function Project(guard: Term, control: Control): Term {
    Replace(guard, map[Var(control.oracle) := Flag(control.ContinueValue())])
  }

  function Projected(raw: Loop, control: Control): Loop {
    Loop(raw.params, map p | p in raw.trs :: Transition(Project(raw.trs[p].guard, control), raw.trs[p].updates))
  }

  lemma ProjectedWellFormed(raw: Loop, control: Control)
    requires WellFormed(raw)
    ensures WellFormed(Projected(raw, control))
  {
    forall p | p in raw.trs ensures QuantifierFree(Project(raw.trs[p].guard, control)) {
      ReplaceQuantifierFree(raw.trs[p].guard, map[Var(control.oracle) := Flag(control.ContinueValue())]);
    }
  }

  /** The projected guard is the guard under the one answer that stays. */
  lemma ProjectionIsExact(raw: Loop, control: Control, p: Symbol, b: bool, e: Env, s: State)
    requires WellFormed(raw) && WellFormed(Projected(raw, control)) && |s| == |raw.params|
    requires control.Stays(b)
    ensures Taken(raw, control, p, b, e, s) <==> Enabled(Projected(raw, control), p, e, s)
  {
    if p in raw.trs {
      var m := map[Var(control.oracle) := Flag(control.ContinueValue())];
      NoCapture(raw.trs[p].guard, m);
      EvalReplace(raw.trs[p].guard, m, Bind(e, raw.params, s), Set(Bind(e, raw.params, s), control.oracle, B(b)));
    }
  }

  /* ---- the exits of a stable path ---- */

  /** From s on, no path but p is ever enabled along p's closed form. */
  ghost predicate Stable(loop: Loop, p: Symbol, sol: Solution, e: Env, s: State)
    requires WellFormed(loop) && |s| == |loop.params| == |sol.oneStep|
  {
    forall n: nat, q :: q != p ==> !Enabled(loop, q, e, Iterated(loop, sol, e, s, n))
  }

  /** The path may be repeated n times: its guard, with the definedness of its updates, holds at
      every iterate before the n-th. */
  ghost predicate Repeatable(loop: Loop, sol: Solution, e: Env, s: State, n: nat)
    requires WellFormed(loop) && |s| == |loop.params| == |sol.oneStep|
  {
    forall t: nat | t < n :: GuardAt(loop, sol, e, s, t)
  }

  lemma {:induction false} IterateFront(oneStep: seq<Term>, params: seq<nat>, e: Env, s: State, n: nat)
    requires |params| == |s| == |oneStep| && Distinct(params)
    ensures Iterate(oneStep, params, e, Iterate(oneStep, params, e, s, 1), n) == Iterate(oneStep, params, e, s, n + 1)
  {
    if n > 0 { IterateFront(oneStep, params, e, s, n - 1); }
  }

  /** One step of a stable path: the rest of the trajectory is stable, and repeating n + 1 times is
      one enabled step and n repetitions from there. */
  lemma StableStep(loop: Loop, p: Symbol, sol: Solution, e: Env, s: State)
    requires WellFormed(loop) && |s| == |loop.params| == |sol.oneStep| && Stable(loop, p, sol, e, s)
    ensures Stable(loop, p, sol, e, Iterated(loop, sol, e, s, 1))
    ensures forall m: nat | m > 0 :: Repeatable(loop, sol, e, s, m) <==>
      GuardAt(loop, sol, e, s, 0) && Repeatable(loop, sol, e, Iterated(loop, sol, e, s, 1), m - 1)
    ensures forall m: nat | m > 0 ::
        Iterated(loop, sol, e, s, m) == Iterated(loop, sol, e, Iterated(loop, sol, e, s, 1), m - 1)
  {
    hide Enabled, WellFormed, Iterate;
    ParamsDistinct(loop);
    var s1 := Iterated(loop, sol, e, s, 1);
    forall n: nat ensures Iterated(loop, sol, e, s1, n) == Iterated(loop, sol, e, s, n + 1) {
      IterateFront(sol.oneStep, loop.params, e, s, n);
    }
    forall m: nat | m > 0
      ensures Repeatable(loop, sol, e, s, m) <==> GuardAt(loop, sol, e, s, 0) && Repeatable(loop, sol, e, s1, m - 1)
    {
      RepeatableFront(loop, sol, e, s, m);
    }
  }

  lemma RepeatableFront(loop: Loop, sol: Solution, e: Env, s: State, m: nat)
    requires WellFormed(loop) && |s| == |loop.params| == |sol.oneStep| && m > 0
    ensures Repeatable(loop, sol, e, s, m) <==>
      GuardAt(loop, sol, e, s, 0) && Repeatable(loop, sol, e, Iterated(loop, sol, e, s, 1), m - 1)
  {
    hide Enabled, WellFormed, Iterate;
    ParamsDistinct(loop);
    var s1 := Iterated(loop, sol, e, s, 1);
    forall n: nat ensures GuardAt(loop, sol, e, s1, n) <==> GuardAt(loop, sol, e, s, n + 1) {
      IterateFront(sol.oneStep, loop.params, e, s, n);
    }
    if GuardAt(loop, sol, e, s, 0) && Repeatable(loop, sol, e, s1, m - 1) {
      forall t: nat | t < m ensures GuardAt(loop, sol, e, s, t) {
        if t > 0 { assert GuardAt(loop, sol, e, s1, t - 1); }
      }
    }
    if Repeatable(loop, sol, e, s, m) {
      forall t: nat | t < m - 1 ensures GuardAt(loop, sol, e, s1, t) { assert GuardAt(loop, sol, e, s, t + 1); }
    }
  }

  /** The composite of a one-symbol word is the path itself. */
  lemma SinglePath(loop: Loop, p: Symbol, ind: nat, sol: Solution, e: Env, s: State)
    requires WellFormed(loop) && Solves(loop, [p], ind, sol) && |s| == |loop.params|
    ensures |sol.oneStep| == |s| && p in loop.trs
    ensures GuardAt(loop, sol, e, s, 0) <==> Enabled(loop, p, e, s)
    ensures Iterated(loop, sol, e, s, 1) == Step(loop.trs[p], loop.params, e, s)
  {
    hide Composite, Closes, Enabled, Runs, WellFormed;
    SolvesShape(loop, [p], ind, sol);
    SingleComposable(loop, p, ind, sol);
    NextIterate(loop, [p], ind, sol, e, s, 1);
    CompositeStep(loop, [p], ind, sol, e, s);
    RunsOne(loop, p, e, s);
    SingleAlong(loop, p, e, s);
    assert Iterated(loop, sol, e, s, 0) == s;
  }

  lemma SingleComposable(loop: Loop, p: Symbol, ind: nat, sol: Solution)
    requires WellFormed(loop) && Solves(loop, [p], ind, sol)
    ensures Composable([p], loop.trs, |loop.params|) && p in loop.trs
  {
    assert [p][0] == p;
  }

  lemma SingleAlong(loop: Loop, p: Symbol, e: Env, s: State)
    requires WellFormed(loop) && |s| == |loop.params| && Composable([p], loop.trs, |loop.params|) && p in loop.trs
    ensures Along([p], loop.trs, loop.params, e, s) == Step(loop.trs[p], loop.params, e, s)
  {
    assert [p][..0] == [];
  }

  /** Over all finite oracle sequences the exits are exactly the iterates of the path that can be
      reached, and the sequence that reaches the n-th is n continue values and one exit value. */
  lemma {:induction false} FiniteExits(raw: Loop, control: Control, p: Symbol, ind: nat, sol: Solution,
                                       e: Env, s: State, values: seq<bool>, t: State)
    requires WellFormed(raw) && WellFormed(Projected(raw, control)) && |s| == |raw.params|
    requires Solves(Projected(raw, control), [p], ind, sol) && |sol.oneStep| == |s|
    requires Stable(Projected(raw, control), p, sol, e, s)
    ensures ExitsUnder(raw, control, e, s, values, t) <==>
      values != [] && values == Canonical(control, |values| - 1)
      && Repeatable(Projected(raw, control), sol, e, s, |values| - 1)
      && t == Iterated(Projected(raw, control), sol, e, s, |values| - 1)
    decreases |values|
  {
    hide Solves, Stable, WellFormed, Taken, GuardAt, Projected, Enabled, Repeatable;
    var loop := Projected(raw, control);
    SameParams(raw, control);
    if values != [] {
      var b, rest := values[0], values[1..];
      StaysOnContinue(control, b);
      assert values == [b] + rest;
      if !control.Stays(b) {
        ZeroRepeats(loop, sol, e, s);
        if |values| > 1 { assert Canonical(control, |values| - 1)[0] == control.ContinueValue(); }
      } else {
        StableStep(loop, p, sol, e, s);
        SinglePath(loop, p, ind, sol, e, s);
        var s1 := Iterated(loop, sol, e, s, 1);
        OnlyPath(raw, control, p, sol, e, s, b);
        FiniteExits(raw, control, p, ind, sol, e, s1, rest, t);
        assert ExitsUnder(raw, control, e, s, values, t) <==>
          Enabled(loop, p, e, s) && ExitsUnder(raw, control, e, s1, rest, t);
        if |values| > 1 {
          var tail := Canonical(control, |values| - 2);
          assert Canonical(control, |values| - 1) == [control.ContinueValue()] + tail;
          assert values == Canonical(control, |values| - 1) <==> rest == tail by {
            if values == [control.ContinueValue()] + tail { assert values[1..] == tail; }
          }
        }
      }
    }
  }

  lemma ZeroRepeats(loop: Loop, sol: Solution, e: Env, s: State)
    requires WellFormed(loop) && |s| == |loop.params| == |sol.oneStep|
    ensures Repeatable(loop, sol, e, s, 0) && Iterated(loop, sol, e, s, 0) == s
  {
  }

  lemma SameParams(raw: Loop, control: Control)
    ensures Projected(raw, control).params == raw.params
    ensures forall p :: p in Projected(raw, control).trs <==> p in raw.trs
    ensures forall p :: p in raw.trs ==> Projected(raw, control).trs[p].updates == raw.trs[p].updates
  {
  }

  /** Along a stable path the body can only take that path. */
  lemma OnlyPath(raw: Loop, control: Control, p: Symbol, sol: Solution, e: Env, s: State, b: bool)
    requires WellFormed(raw) && WellFormed(Projected(raw, control)) && |s| == |raw.params| == |sol.oneStep|
    requires Projected(raw, control).params == raw.params
    requires Stable(Projected(raw, control), p, sol, e, s) && control.Stays(b)
    ensures Taken(raw, control, p, b, e, s) <==> Enabled(Projected(raw, control), p, e, s)
    ensures forall q :: q != p ==> !Taken(raw, control, q, b, e, s)
    ensures p in raw.trs ==>
      Step(Projected(raw, control).trs[p], raw.params, e, s) == Step(raw.trs[p], raw.params, e, s)
  {
    hide WellFormed, Taken, Enabled;
    var loop := Projected(raw, control);
    forall q ensures Taken(raw, control, q, b, e, s) <==> Enabled(loop, q, e, s) {
      ProjectionIsExact(raw, control, q, b, e, s);
    }
    assert Iterated(loop, sol, e, s, 0) == s;
    forall q | q != p ensures !Enabled(loop, q, e, s) {
      assert !Enabled(loop, q, e, Iterated(loop, sol, e, s, 0));
    }
  }

  /* ---- the accelerated exit ---- */

  /** An exit jump: the state at the exit, and the recorded oracle calls as a sequence in the probe
      with its length. */
  datatype ExitJump = ExitJump(state: Symbolic, sequence: Term, length: Term)

  ghost function OracleValues(jump: ExitJump, probe: nat, e: Env): seq<bool> {
    var n := if Eval(jump.length, e) < 0 then 0 else Eval(jump.length, e);
    seq(n, i requires 0 <= i < n => Holds(jump.sequence, Set(e, probe, i)))
  }

  /** The closed forms read at a named iteration from the current values. */
  function Trajectory(loop: Loop, sol: Solution, header: seq<Term>, ind: nat, name: nat, simplify: Rewriter): seq<Term>
    requires Distinct(loop.params) && |header| == |loop.params|
  {
    var closed := ClosedFromCurrent(loop, sol, header);
    seq(|closed|, i requires 0 <= i < |closed| => simplify(Replace(closed[i], map[Var(ind) := Var(name)])))
  }

  lemma TrajectoryMeans(loop: Loop, st: Symbolic, star: Word, ind: nat, name: nat, sol: Solution, simplify: Rewriter,
      e: Env)
    requires Ready(loop, star, ind, sol, st.header) && Distinct(loop.params) && Lookup(e, name) >= 0
        && Simplifies(simplify)
    ensures |Trajectory(loop, sol, st.header, ind, name, simplify)| == |loop.params|
    ensures EvalAll(Trajectory(loop, sol, st.header, ind, name, simplify), e)
         == Iterated(loop, sol, e, HeaderState(st, e), Lookup(e, name))
  {
    hide Composite, Closes, Replace, Occurs, QuantifierFree, Unused, DependsOn, WellFormed, Eval, ClosedFromCurrent,
        Iterate;
    var closed, m := ClosedFromCurrent(loop, sol, st.header), map[Var(ind) := Var(name)];
    JumpHeader(loop, st, star, ind, name, sol, e);
    var trajectory := Trajectory(loop, sol, st.header, ind, name, simplify);
    forall i | 0 <= i < |closed| ensures Eval(trajectory[i], e) == Eval(Replace(closed[i], m), e) {
      assert Eval(simplify(Replace(closed[i], m)), e) == Eval(Replace(closed[i], m), e);
    }
    assert EvalAll(trajectory, e) == EvalAll(ReplaceAll(closed, m), e);
  }

  /** The guards of the other paths along the trajectory. */
  function OtherEnabled(loop: Loop, symbols: seq<Symbol>, p: Symbol, trajectory: seq<Term>): seq<Term>
    requires Distinct(loop.params) && |trajectory| == |loop.params|
  {
    if symbols == [] then []
    else
      var rest := OtherEnabled(loop, symbols[1..], p, trajectory);
      if symbols[0] == p || symbols[0] !in loop.trs then rest
      else [Replace(loop.trs[symbols[0]].guard, ParamMap(loop.params, trajectory))] + rest
  }

  lemma {:induction false} OtherEnabledHas(loop: Loop, symbols: seq<Symbol>, p: Symbol, trajectory: seq<Term>,
      q: Symbol)
    requires Distinct(loop.params) && |trajectory| == |loop.params| && q in symbols && q != p && q in loop.trs
    ensures Replace(loop.trs[q].guard, ParamMap(loop.params, trajectory)) in OtherEnabled(loop, symbols, p, trajectory)
  {
    hide Replace, ParamMap;
    if symbols[0] != q { OtherEnabledHas(loop, symbols[1..], p, trajectory, q); }
  }

  lemma {:induction false} OtherEnabledFrom(loop: Loop, symbols: seq<Symbol>, p: Symbol, trajectory: seq<Term>, i: nat)
    returns (q: Symbol)
    requires Distinct(loop.params) && |trajectory| == |loop.params| && i < |OtherEnabled(loop, symbols, p, trajectory)|
    ensures q in symbols && q != p && q in loop.trs
    ensures OtherEnabled(loop, symbols, p, trajectory)[i] ==
        Replace(loop.trs[q].guard, ParamMap(loop.params, trajectory))
  {
    hide Replace, ParamMap;
    if symbols[0] == p || symbols[0] !in loop.trs { q := OtherEnabledFrom(loop, symbols[1..], p, trajectory, i); }
    else if i == 0 { q := symbols[0]; }
    else { q := OtherEnabledFrom(loop, symbols[1..], p, trajectory, i - 1); }
  }

  function StabilityQuery(loop: Loop, symbols: seq<Symbol>, p: Symbol, path: Term, probe: nat,
      trajectory: seq<Term>): Term
    requires Distinct(loop.params) && |trajectory| == |loop.params|
  {
    Conj(Conj(path, AtMost(Num(0), Var(probe))), DisjAll(OtherEnabled(loop, symbols, p, trajectory)))
  }

  /** An unsat stability query proves that no other path is enabled anywhere on the trajectory. */
  lemma StabilityProved(loop: Loop, symbols: seq<Symbol>, st: Symbolic, p: Symbol, ind: nat, count: nat, probe: nat,
                        sol: Solution, simplify: Rewriter, e: Env)
    requires Ready(loop, [p], ind, sol, st.header) && Distinct(loop.params) && Simplifies(simplify)
    requires FreshNames(loop, st, ind, count, probe) && !Occurs(probe, st.path)
    requires forall q :: q in loop.trs ==> q in symbols
    requires |Trajectory(loop, sol, st.header, ind, probe, simplify)| == |loop.params|
    requires forall e' ::
        !Holds(StabilityQuery(loop, symbols, p, st.path, probe,
        Trajectory(loop, sol, st.header, ind, probe, simplify)), e')
    requires Holds(st.path, e)
    ensures Stable(loop, p, sol, e, HeaderState(st, e))
  {
    hide Replace, Ready, FreshNames, Trajectory, StabilityQuery, OtherEnabled, ParamMap, Occurs, Simplifies,
        WellFormed, Enabled, Iterate;
    ReadyParts(loop, [p], ind, sol, st.header);
    forall n: nat, q | q != p ensures !Enabled(loop, q, e, Iterated(loop, sol, e, HeaderState(st, e), n)) {
      var en := Set(e, probe, n);
      assert !Holds(StabilityQuery(loop, symbols, p, st.path, probe,
          Trajectory(loop, sol, st.header, ind, probe, simplify)), en);
      StabilityAt(loop, symbols, st, p, ind, count, probe, sol, simplify, e, n, q);
    }
  }

  /** A model of the stability query is a state of the path from which another path becomes enabled. */
  lemma Unstable(loop: Loop, symbols: seq<Symbol>, st: Symbolic, p: Symbol, ind: nat, count: nat, probe: nat,
                 sol: Solution, simplify: Rewriter, e: Env)
    requires Ready(loop, [p], ind, sol, st.header) && Distinct(loop.params) && Simplifies(simplify)
    requires FreshNames(loop, st, ind, count, probe)
    requires |Trajectory(loop, sol, st.header, ind, probe, simplify)| == |loop.params|
    requires Holds(StabilityQuery(loop, symbols, p, st.path, probe,
        Trajectory(loop, sol, st.header, ind, probe, simplify)), e)
    ensures WellFormed(loop) && |st.header| == |loop.params| == |sol.oneStep|
    ensures Holds(st.path, e) && !Stable(loop, p, sol, e, HeaderState(st, e))
  {
    hide Replace, Trajectory, OtherEnabled, ParamMap, Occurs, Simplifies, WellFormed, Iterate, Composite, Closes,
        Unused, DependsOn, Plain, Mentions, Eval;
    var trajectory := Trajectory(loop, sol, st.header, ind, probe, simplify);
    ZeroBelow(probe, e);
    var others := OtherEnabled(loop, symbols, p, trajectory);
    var i :| 0 <= i < |others| && Holds(others[i], e);
    var q := OtherEnabledFrom(loop, symbols, p, trajectory, i);
    TrajectoryMeans(loop, st, [p], ind, probe, sol, simplify, e);
    var mid := Iterated(loop, sol, e, HeaderState(st, e), Lookup(e, probe));
    TransitionsPlain(loop);
    GuardOver(loop.trs, q, loop.params);
    GuardInState(loop, loop.trs[q].guard, trajectory, e, mid);
    assert Enabled(loop, q, e, mid);
  }

  lemma ReadyParts(loop: Loop, star: Word, ind: nat, sol: Solution, header: seq<Term>)
    requires Ready(loop, star, ind, sol, header)
    ensures WellFormed(loop) && Solves(loop, star, ind, sol) && |header| == |loop.params| == |sol.oneStep|
  {
  }

  lemma StabilityAt(loop: Loop, symbols: seq<Symbol>, st: Symbolic, p: Symbol, ind: nat, count: nat, probe: nat,
                    sol: Solution, simplify: Rewriter, e: Env, n: nat, q: Symbol)
    requires Ready(loop, [p], ind, sol, st.header) && Distinct(loop.params) && Simplifies(simplify)
    requires FreshNames(loop, st, ind, count, probe) && !Occurs(probe, st.path)
    requires forall q' :: q' in loop.trs ==> q' in symbols
    requires |Trajectory(loop, sol, st.header, ind, probe, simplify)| == |loop.params|
    requires !Holds(StabilityQuery(loop, symbols, p, st.path, probe,
        Trajectory(loop, sol, st.header, ind, probe, simplify)), Set(e, probe, n))
    requires Holds(st.path, e) && q != p
    ensures WellFormed(loop) && |st.header| == |loop.params| == |sol.oneStep|
    ensures !Enabled(loop, q, e, Iterated(loop, sol, e, HeaderState(st, e), n))
  {
    hide Replace, Trajectory, OtherEnabled, ParamMap, Occurs, Simplifies, WellFormed, Iterate, Composite, Closes,
        Unused, DependsOn, Plain, Mentions, Eval;
    var en, s := Set(e, probe, n), HeaderState(st, e);
    var trajectory := Trajectory(loop, sol, st.header, ind, probe, simplify);
    TrajectoryMeans(loop, st, [p], ind, probe, sol, simplify, en);
    SetAgrees(e, probe, n);
    EvalUnused(st.header, e, en, probe);
    IteratedAgree(loop, [p], ind, sol, e, en, probe, s, n);
    var mid := Iterated(loop, sol, e, s, n);
    if q in loop.trs {
      EvalAgree(st.path, e, en);
      ZeroBelow(probe, en);
      OtherEnabledHas(loop, symbols, p, trajectory, q);
      assert !Holds(Replace(loop.trs[q].guard, ParamMap(loop.params, trajectory)), en);
      TransitionsPlain(loop);
      GuardOver(loop.trs, q, loop.params);
      GuardInState(loop, loop.trs[q].guard, trajectory, en, mid);
      EnabledAgree(loop, q, e, en, probe, mid);
    }
  }

  lemma ZeroBelow(x: nat, e: Env)
    ensures Holds(AtMost(Num(0), Var(x)), e) <==> 0 <= Lookup(e, x)
  {
  }

  lemma TransitionsPlain(loop: Loop)
    requires WellFormed(loop)
    ensures PlainTransitions(loop.trs)
  {
  }

  function IterationsFormula(loop: Loop, sol: Solution, count: nat, probe: nat, trajectory: seq<Term>): Term
    requires Distinct(loop.params) && |trajectory| == |loop.params|
  {
    Conj(AtMost(Num(0), Var(count)),
         ForAll(probe, Implies(InRange(probe, Var(count)), Replace(sol.guard, ParamMap(loop.params, trajectory)))))
  }

  lemma CountNonnegative(loop: Loop, sol: Solution, count: nat, probe: nat, trajectory: seq<Term>, e: Env)
    requires Distinct(loop.params) && |trajectory| == |loop.params|
        && Holds(IterationsFormula(loop, sol, count, probe, trajectory), e)
    ensures Lookup(e, count) >= 0
  {
    hide ForAll, Implies;
    ZeroBelow(count, e);
  }

  /** The iterations formula says that the path can be repeated that often. */
  lemma IterationsMean(loop: Loop, st: Symbolic, star: Word, ind: nat, count: nat, probe: nat, sol: Solution,
                       simplify: Rewriter, e: Env)
    requires Ready(loop, star, ind, sol, st.header) && Distinct(loop.params) && Simplifies(simplify)
    requires FreshNames(loop, st, ind, count, probe)
    requires |Trajectory(loop, sol, st.header, ind, probe, simplify)| == |loop.params|
    ensures WellFormed(loop) && |st.header| == |loop.params| == |sol.oneStep|
    ensures Holds(IterationsFormula(loop, sol, count, probe, Trajectory(loop, sol, st.header, ind, probe, simplify)),
        e) <==>
      Lookup(e, count) >= 0 && Repeatable(loop, sol, e, HeaderState(st, e), Lookup(e, count))
  {
    hide Replace, Trajectory, ParamMap, Occurs, Simplifies, WellFormed, Iterate, Composite, Closes, Unused, DependsOn,
        Plain,
         GuardAt, Eval, InRange, Implies;
    var trajectory := Trajectory(loop, sol, st.header, ind, probe, simplify);
    var k, s := Lookup(e, count), HeaderState(st, e);
    ZeroBelow(count, e);
    var body := Implies(InRange(probe, Var(count)), Replace(sol.guard, ParamMap(loop.params, trajectory)));
    forall t: int ensures Holds(body, Set(e, probe, t)) <==> (0 <= t < k ==> GuardAt(loop, sol, e, s, t)) {
      IterationAt(loop, st, star, ind, count, probe, sol, simplify, e, t);
    }
    if k >= 0 {
      if forall t: int :: Holds(body, Set(e, probe, t)) {
        forall t: nat | t < k ensures GuardAt(loop, sol, e, s, t) { assert Holds(body, Set(e, probe, t)); }
      }
      if Repeatable(loop, sol, e, s, k) {
        forall t: int ensures Holds(body, Set(e, probe, t)) {}
      }
    }
  }

  lemma IterationAt(loop: Loop, st: Symbolic, star: Word, ind: nat, count: nat, probe: nat, sol: Solution,
                    simplify: Rewriter, e: Env, t: int)
    requires Ready(loop, star, ind, sol, st.header) && Distinct(loop.params) && Simplifies(simplify)
    requires FreshNames(loop, st, ind, count, probe)
    requires |Trajectory(loop, sol, st.header, ind, probe, simplify)| == |loop.params|
    ensures Holds(Implies(InRange(probe, Var(count)),
                          Replace(sol.guard,
                              ParamMap(loop.params, Trajectory(loop, sol, st.header, ind, probe, simplify)))),
                              Set(e, probe, t))
        <==> (0 <= t < Lookup(e, count) ==> GuardAt(loop, sol, e, HeaderState(st, e), t))
  {
    hide Replace, Trajectory, ParamMap, Occurs, Simplifies, WellFormed, Iterate, Composite, Closes, Unused, DependsOn,
        Plain, InRange;
    var et, s := Set(e, probe, t), HeaderState(st, e);
    var trajectory := Trajectory(loop, sol, st.header, ind, probe, simplify);
    InRangeMeans(probe, Var(count), et);
    assert Eval(Var(count), et) == Lookup(e, count);
    if 0 <= t < Lookup(e, count) {
      TrajectoryMeans(loop, st, star, ind, probe, sol, simplify, et);
      SetAgrees(e, probe, t);
      EvalUnused(st.header, e, et, probe);
      GuardIsOver(loop, star, sol);
      IterateAgree(loop, sol, e, et, probe, s, t);
      GuardInState(loop, sol.guard, trajectory, et, Iterated(loop, sol, et, s, t));
    }
  }

  /** What the accelerated exit is: from every source state, over all finite oracle sequences, the
      exits of the concrete loop are the states of the jump, and the recorded sequence is the one
      that drives the loop there. */
  ghost predicate ExactExit(raw: Loop, control: Control, st: Symbolic, defined: Term, count: nat, probe: nat,
      jump: ExitJump) {
    && Shaped(raw, st)
    && |jump.state.header| == |raw.params|
    && (forall e :: Holds(jump.state.path, e) ==> Holds(st.path, e) && Lookup(e, count) >= 0)
    && (forall e :: Holds(st.path, e) ==> Holds(defined, e))
    && (forall e: Env, values, t | Holds(st.path, e) ::
          ExitsUnder(raw, control, e, HeaderState(st, e), values, t) <==>
              exists k: nat :: ExitAt(jump, count, probe, e, k, values, t))
  }

  ghost predicate ExitAt(jump: ExitJump, count: nat, probe: nat, e: Env, k: nat, values: seq<bool>, t: State) {
    var ek := Set(e, count, k);
    Holds(jump.state.path, ek) && values == OracleValues(jump, probe, ek) && t == HeaderState(jump.state, ek)
  }

  /** No other path becomes enabled along the trajectory of the star, from any state of the path. */
  ghost predicate StableFrom(loop: Loop, st: Symbolic, star: Word, ind: nat, sol: Solution) {
    && Shaped(loop, st) && Solves(loop, star, ind, sol) && |sol.oneStep| == |loop.params| && |star| == 1
    && forall e | Holds(st.path, e) :: Stable(loop, star[0], sol, e, HeaderState(st, e))
  }

  /** The star is one symbol with a closed form, along which no other path is enabled from any state of
      the path, and the header values are defined there. */
  ghost predicate Exitable(loop: Loop, st: Symbolic, star: Word, ind: nat, defined: Term, simplify: Rewriter,
      recurrence: Recurrence)
    requires Distinct(loop.params)
  {
    && Solvable(star, loop.trs, loop.params, ind, simplify, recurrence)
    && (exists sol :: StableFrom(loop, st, star, ind, sol)) && forall e | Holds(st.path, e) :: Holds(defined, e)
  }

  /** All solutions of a star are stable from the same states. */
  lemma StableAlike(loop: Loop, st: Symbolic, star: Word, ind: nat, a: Solution, b: Solution)
    requires StableFrom(loop, st, star, ind, a) && Solves(loop, star, ind, b) && |b.oneStep| == |loop.params|
    ensures StableFrom(loop, st, star, ind, b)
  {
    hide WellFormed, Solves, Iterated, Enabled;
    forall e | Holds(st.path, e) ensures Stable(loop, star[0], b, e, HeaderState(st, e)) {
      assert Stable(loop, star[0], a, e, HeaderState(st, e));
      forall n: nat ensures Iterated(loop, b, e, HeaderState(st, e), n) == Iterated(loop, a, e, HeaderState(st, e), n) {
        SolutionsAlike(loop, star, ind, a, b, e, HeaderState(st, e), n);
      }
    }
  }

  lemma AnyStable(loop: Loop, st: Symbolic, star: Word, ind: nat, defined: Term, sol: Solution, simplify: Rewriter,
      recurrence: Recurrence)
    requires Distinct(loop.params) && Solvable(star, loop.trs, loop.params, ind, simplify, recurrence)
    requires WellFormed(loop) && Solves(loop, star, ind, sol) && |sol.oneStep| == |loop.params|
    ensures Exitable(loop, st, star, ind, defined, simplify, recurrence) <==>
      StableFrom(loop, st, star, ind, sol) && forall e | Holds(st.path, e) :: Holds(defined, e)
  {
    hide WellFormed, Solves, Solvable, StableFrom;
    if other :| StableFrom(loop, st, star, ind, other) { StableAlike(loop, st, star, ind, other, sol); }
  }

  /** accelerate_arbitrary_finite. `symbols` lists the enumerated paths; `defined` says that the
      incoming header values are defined. With a solver that decides there is a result exactly for a
      star of one symbol with a closed form, defined header values, and no other path enabled along
      the way. */
  method AccelerateArbitraryFinite(raw: Loop, control: Control, symbols: seq<Symbol>, st: Symbolic, defined: Term,
      star: Word,
                                   ind: nat, count: nat, probe: nat,
                                   simplify: Rewriter, recurrence: Recurrence, solver: Solver)
    returns (result: Option<ExitJump>)
    requires Shaped(raw, st) && FreshNames(Projected(raw, control), st, ind, count, probe) && !Occurs(probe, st.path)
    requires forall q :: q in raw.trs ==> q in symbols
    requires Simplifies(simplify) && ProposesPlain(recurrence) && Sound(solver)
    ensures result.Some? ==> ExactExit(raw, control, st, defined, count, probe, result.value)
    ensures Distinct(Projected(raw, control).params)
    ensures result.Some? ==> Exitable(Projected(raw, control), st, star, ind, defined, simplify, recurrence)
    ensures Decides(solver) && Exitable(Projected(raw, control), st, star, ind, defined, simplify, recurrence) ==>
        result.Some?
  {
    hide *;
    ProjectedSolvable(raw, control, st, ind, count, probe);
    var loop := Projected(raw, control);
    result := None;
    var solution := SolveComposite(star, loop.trs, loop.params, ind, simplify, recurrence, solver);
    OneSymbol(loop, st, star, ind, defined, simplify, recurrence);
    if solution.None? || |star| != 1 { return; }
    var sol, p := solution.value, star[0];
    assert star == [p];
    DefinedQuery(st.path, defined, solver);
    if !solver(Conj(st.path, Negate(defined))).Unsat? { return; }
    OracleReady(raw, control, st, p, ind, count, probe, sol);
    AnyStable(loop, st, star, ind, defined, sol, simplify, recurrence);
    var trajectory := Trajectory(loop, sol, st.header, ind, probe, simplify);
    var values := Trajectory(loop, sol, st.header, ind, count, simplify);
    TrajectoryWidth(loop, sol, st.header, ind, probe, simplify);
    StabilityDecided(loop, symbols, st, p, ind, count, probe, sol, simplify, solver);
    if !solver(StabilityQuery(loop, symbols, p, st.path, probe, trajectory)).Unsat? { return; }
    SolverRefutes(solver, StabilityQuery(loop, symbols, p, st.path, probe, trajectory));
    var state := Symbolic(Conj(st.path, IterationsFormula(loop, sol, count, probe, trajectory)), values);
    var jump := ExitJump(state,
                         Ite(Less(Var(probe), Var(count)), Flag(control.ContinueValue()),
                             Flag(!control.ContinueValue())),
                         Plus(Var(count), Num(1)));
    ExitIsExact(raw, control, symbols, st, defined, p, ind, count, probe, sol, simplify, jump);
    result := Some(jump);
  }

  lemma ProjectedSolvable(raw: Loop, control: Control, st: Symbolic, ind: nat, count: nat, probe: nat)
    requires Shaped(raw, st) && FreshNames(Projected(raw, control), st, ind, count, probe)
    ensures var loop := Projected(raw, control);
      && WellFormed(loop) && loop.params == raw.params && Distinct(raw.params) && ind !in loop.params
      && Shaped(loop, st) && PlainTransitions(loop.trs) && !Mentions(loop.trs, ind)
          && forall q | q in loop.trs :: q in raw.trs
  {
    hide PlainTransitions, Mentions;
    ProjectedWellFormed(raw, control);
    ParamsOf(raw, control);
    TransitionsPlain(Projected(raw, control));
  }

  lemma OneSymbol(loop: Loop, st: Symbolic, star: Word, ind: nat, defined: Term, simplify: Rewriter,
      recurrence: Recurrence)
    requires Distinct(loop.params)
    ensures Exitable(loop, st, star, ind, defined, simplify, recurrence) ==>
      |star| == 1 && Solvable(star, loop.trs, loop.params, ind, simplify, recurrence)
      && forall e | Holds(st.path, e) :: Holds(defined, e)
  {
    hide Stable, Solves, Shaped, Solvable;
  }

  lemma DefinedQuery(path: Term, defined: Term, solver: Solver)
    requires Sound(solver)
    ensures solver(Conj(path, Negate(defined))).Unsat? ==> forall e | Holds(path, e) :: Holds(defined, e)
    ensures Decides(solver) && (forall e | Holds(path, e) :: Holds(defined, e)) ==>
        solver(Conj(path, Negate(defined))).Unsat?
  {
    var q := Conj(path, Negate(defined));
    if solver(q).Unsat? { assert forall e :: !Holds(q, e); }
    else if solver(q).Sat? { assert Holds(q, solver(q).model); }
  }

  /** The stability query decides stability from every state of the path. */
  lemma StabilityDecided(loop: Loop, symbols: seq<Symbol>, st: Symbolic, p: Symbol, ind: nat, count: nat, probe: nat,
                         sol: Solution, simplify: Rewriter, solver: Solver)
    requires Ready(loop, [p], ind, sol, st.header) && Distinct(loop.params) && Simplifies(simplify) && Sound(solver)
        && Shaped(loop, st)
    requires FreshNames(loop, st, ind, count, probe) && !Occurs(probe, st.path)
    requires forall q :: q in loop.trs ==> q in symbols
    requires |Trajectory(loop, sol, st.header, ind, probe, simplify)| == |loop.params|
    ensures var q :=
        StabilityQuery(loop, symbols, p, st.path, probe, Trajectory(loop, sol, st.header, ind, probe, simplify));
      && (solver(q).Unsat? ==> StableFrom(loop, st, [p], ind, sol))
      && (Decides(solver) && StableFrom(loop, st, [p], ind, sol) ==> solver(q).Unsat?)
  {
    hide Trajectory, StabilityQuery, Occurs, Simplifies, WellFormed, Iterate, Composite, Closes, FreshNames, Stable,
        Eval, Unused, DependsOn;
    var q := StabilityQuery(loop, symbols, p, st.path, probe, Trajectory(loop, sol, st.header, ind, probe, simplify));
    if solver(q).Unsat? {
      SolverRefutes(solver, q);
      forall e | Holds(st.path, e) ensures Stable(loop, p, sol, e, HeaderState(st, e)) {
        StabilityProved(loop, symbols, st, p, ind, count, probe, sol, simplify, e);
      }
    } else if solver(q).Sat? {
      Unstable(loop, symbols, st, p, ind, count, probe, sol, simplify, solver(q).model);
    }
  }

  lemma SolverRefutes(solver: Solver, f: Term)
    requires Sound(solver) && solver(f).Unsat?
    ensures forall e :: !Holds(f, e)
  {
  }

  lemma TrajectoryWidth(loop: Loop, sol: Solution, header: seq<Term>, ind: nat, name: nat, simplify: Rewriter)
    requires Distinct(loop.params) && |header| == |loop.params| == |sol.closed|
    ensures |Trajectory(loop, sol, header, ind, name, simplify)| == |loop.params|
  {
  }

  lemma OracleReady(raw: Loop, control: Control, st: Symbolic, p: Symbol, ind: nat, count: nat, probe: nat,
      sol: Solution)
    requires Shaped(raw, st) && WellFormed(Projected(raw, control))
        && FreshNames(Projected(raw, control), st, ind, count, probe)
    requires Distinct(raw.params)
    requires var loop := Projected(raw, control);
      && Composite([p], loop.trs, raw.params, sol.guard, sol.oneStep)
      && Closes(sol.oneStep, sol.closed, raw.params, ind) && Plain(sol.closed)
    ensures var loop := Projected(raw, control);
      && loop.params == raw.params && Ready(loop, [p], ind, sol, st.header)
      && Distinct(loop.params) && |st.header| == |loop.params| == |sol.closed|
      && WellFormed(loop) && Solves(loop, [p], ind, sol) && |sol.oneStep| == |loop.params|
    ensures forall q :: q in Projected(raw, control).trs ==> q in raw.trs
  {
    hide Composable, Over, AllOver, GuardsAlong, Along, Mentions, WellFormed, DependsOn;
    ParamsOf(raw, control);
    SolutionReady(Projected(raw, control), st, [p], ind, count, probe, sol);
  }

  lemma ParamsOf(raw: Loop, control: Control)
    requires WellFormed(raw) && WellFormed(Projected(raw, control))
    ensures Projected(raw, control).params == raw.params
    ensures forall q :: q in Projected(raw, control).trs ==> q in raw.trs
  {
  }

  lemma {:induction false} CanonicalIndex(control: Control, n: nat)
    ensures |Canonical(control, n)| == n + 1
    ensures forall i :: 0 <= i <= n ==>
      Canonical(control, n)[i] == if i < n then control.ContinueValue() else !control.ContinueValue()
  {
    if n > 0 { CanonicalIndex(control, n - 1); }
  }

  /** The recorded lambda spells the canonical sequence. */
  lemma RecordedSequence(control: Control, count: nat, probe: nat, jump: ExitJump, e: Env)
    requires count != probe && Lookup(e, count) >= 0
    requires jump.sequence ==
        Ite(Less(Var(probe), Var(count)), Flag(control.ContinueValue()), Flag(!control.ContinueValue()))
    requires jump.length == Plus(Var(count), Num(1))
    ensures OracleValues(jump, probe, e) == Canonical(control, Lookup(e, count))
  {
    var k := Lookup(e, count);
    CanonicalIndex(control, k);
    assert Eval(jump.length, e) == Eval(Var(count), e) + Eval(Num(1), e) == k + 1;
    var recorded := OracleValues(jump, probe, e);
    forall i | 0 <= i < k + 1 ensures recorded[i] == Canonical(control, k)[i] {
      var ei := Set(e, probe, i);
      assert Eval(Var(count), ei) == k && Eval(Var(probe), ei) == i;
      var test := Less(Var(probe), Var(count));
      assert Holds(test, ei) <==> i < k;
      assert Eval(jump.sequence, ei) ==
        if Eval(test, ei) != 0 then B(control.ContinueValue()) else B(!control.ContinueValue());
    }
  }

  lemma ExitIsExact(raw: Loop, control: Control, symbols: seq<Symbol>, st: Symbolic, defined: Term, p: Symbol,
                    ind: nat, count: nat, probe: nat, sol: Solution, simplify: Rewriter, jump: ExitJump)
    requires Shaped(raw, st) && WellFormed(Projected(raw, control)) && Projected(raw, control).params == raw.params
    requires FreshNames(Projected(raw, control), st, ind, count, probe) && !Occurs(probe, st.path)
        && Simplifies(simplify)
    requires Ready(Projected(raw, control), [p], ind, sol, st.header) && Distinct(raw.params)
    requires |st.header| == |raw.params| == |sol.closed|
    requires forall q :: q in Projected(raw, control).trs ==> q in symbols
    requires forall e :: Holds(st.path, e) ==> Holds(defined, e)
    requires |Trajectory(Projected(raw, control), sol, st.header, ind, probe, simplify)| == |raw.params|
    requires forall e' :: !Holds(StabilityQuery(Projected(raw, control), symbols, p, st.path, probe,
                                                Trajectory(Projected(raw, control), sol, st.header, ind, probe,
                                                    simplify)), e')
    requires jump.state.path == Conj(st.path, IterationsFormula(Projected(raw, control), sol, count, probe,
                                                Trajectory(Projected(raw, control), sol, st.header, ind, probe,
                                                    simplify)))
    requires jump.state.header == Trajectory(Projected(raw, control), sol, st.header, ind, count, simplify)
    requires jump.sequence ==
        Ite(Less(Var(probe), Var(count)), Flag(control.ContinueValue()), Flag(!control.ContinueValue()))
    requires jump.length == Plus(Var(count), Num(1))
    ensures ExactExit(raw, control, st, defined, count, probe, jump)
  {
    hide Ready, FreshNames, Trajectory, StabilityQuery, IterationsFormula, Projected, WellFormed, Plain, Occurs,
        Simplifies,
         Stable, Repeatable, ExitsUnder, ExitAt, Iterate, Canonical, Eval, QuantifierFree, Distinct;
    var loop := Projected(raw, control);
    ReadyParts(loop, [p], ind, sol, st.header);
    forall e | Holds(jump.state.path, e) ensures Lookup(e, count) >= 0 {
      CountNonnegative(loop, sol, count, probe, Trajectory(loop, sol, st.header, ind, probe, simplify), e);
    }
    assert |jump.state.header| == |raw.params| by { TrajectoryWidth(loop, sol, st.header, ind, count, simplify); }
    forall e: Env, values, t | Holds(st.path, e)
      ensures ExitsUnder(raw, control, e, HeaderState(st, e), values, t) <==>
          exists k: nat :: ExitAt(jump, count, probe, e, k, values, t)
    {
      var s := HeaderState(st, e);
      StabilityProved(loop, symbols, st, p, ind, count, probe, sol, simplify, e);
      FiniteExits(raw, control, p, ind, sol, e, s, values, t);
      forall k: nat ensures ExitAt(jump, count, probe, e, k, values, t) <==>
        Repeatable(loop, sol, e, s, k) && values == Canonical(control, k) && t == Iterated(loop, sol, e, s, k)
      {
        ExitAtMeans(loop, control, st, p, ind, count, probe, sol, simplify, jump, e, k, values, t);
      }
      if k: nat :| ExitAt(jump, count, probe, e, k, values, t) {
        CanonicalIndex(control, k);
      }
    }
  }

  lemma ExitAtMeans(loop: Loop, control: Control, st: Symbolic, p: Symbol, ind: nat, count: nat, probe: nat,
                    sol: Solution, simplify: Rewriter, jump: ExitJump, e: Env, k: nat, values: seq<bool>, t: State)
    requires FreshNames(loop, st, ind, count, probe) && Simplifies(simplify) && Distinct(loop.params)
    requires Ready(loop, [p], ind, sol, st.header)
    requires WellFormed(loop) && |st.header| == |loop.params| == |sol.closed| == |sol.oneStep|
    requires |Trajectory(loop, sol, st.header, ind, probe, simplify)| == |loop.params|
    requires jump.state.path ==
        Conj(st.path,
        IterationsFormula(loop, sol, count, probe, Trajectory(loop, sol, st.header, ind, probe, simplify)))
    requires jump.state.header == Trajectory(loop, sol, st.header, ind, count, simplify)
    requires jump.sequence ==
        Ite(Less(Var(probe), Var(count)), Flag(control.ContinueValue()), Flag(!control.ContinueValue()))
    requires jump.length == Plus(Var(count), Num(1))
    requires Holds(st.path, e)
    ensures ExitAt(jump, count, probe, e, k, values, t) <==>
      Repeatable(loop, sol, e, HeaderState(st, e), k) && values == Canonical(control, k)
      && t == Iterated(loop, sol, e, HeaderState(st, e), k)
  {
    hide Trajectory, IterationsFormula, WellFormed, Plain, Occurs, Simplifies, Iterate, Canonical, Composite, Closes,
        Unused, DependsOn,
         GuardAt, OracleValues;
    var ek, s := Set(e, count, k), HeaderState(st, e);
    HeaderAgree(loop, st, ind, count, probe, e, k);
    SetAgrees(e, count, k);
    IterationsMean(loop, st, [p], ind, count, probe, sol, simplify, ek);
    GuardIsOver(loop, [p], sol);
    forall i: nat ensures Iterated(loop, sol, e, s, i) == Iterated(loop, sol, ek, s, i)
                       && (GuardAt(loop, sol, e, s, i) <==> GuardAt(loop, sol, ek, s, i)) {
      IterateAgree(loop, sol, e, ek, count, s, i);
    }
    TrajectoryMeans(loop, st, [p], ind, count, sol, simplify, ek);
    RecordedSequence(control, count, probe, jump, ek);
  }
}
