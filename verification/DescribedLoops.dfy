/** Programs whose loops are what the accelerator takes them for: a counting loop, a loop driven by its
    input, and every nest, as the program it compiles to. */
module DescribedLoops {
  import opened Terms
  import opened ClosedForms
  import opened Engine
  import opened AcceleratedRuns
  import opened Wrappers
  import W = PathWords
  import A = Acceleration
  import O = OracleLoops
  import L = LoopNests
  import NestedAcceleration
  import I = Instructions

  /* ---- a loop that is described by its path ---- */

  /** while (x < y) x++, with the PHI of its header at 0 and the place after the loop at 4. */
  function CountingProgram(): I.Program {
    [I.Goto(1),
     I.Branch(Claim(Flag(true), App(Lt, [Var(0), Var(1)])), 2, 4),
     I.Store_(0, App(Add, [Var(0), Num(1)])),
     I.Goto(0)]
  }

  /** Its one path, with the bound as the state knows it. */
  function CountingSite(st: SymState, param: nat): Site
    requires |st.memory| == 2
  {
    Site(A.Loop([param], map[1 := Transition(App(Lt, [Var(param), st.memory[1]]), [App(Add, [Var(param), Num(1)])])]),
        [0], 1)
  }

  /** The enumerated path describes the loop, and its header is a PHI: the accelerator's view of this
      program is right from every state. */
  lemma CountingLoopDescribed(base: Env, st: SymState, param: nat)
    requires st.status.RUNNING? && st.pc == 0 && |st.memory| == 2
    requires QuantifierFree(st.memory[1]) && !Occurs(param, st.memory[1])
    ensures var machine := I.MachineOf(CountingProgram(), base);
      AtPhi(machine, CountingSite(st, param), st) && Describes(machine, CountingSite(st, param), st)
  {
    var site, machine := CountingSite(st, param), I.MachineOf(CountingProgram(), base);
    CountingFits(st, param);
    forall e, s: State, p, rest | Holds(st.path, e) && |s| == 1 && A.Enabled(site.loop, p, e, s)
      ensures IterationRuns(machine, site, st, e, s, p, rest)
    {
      CountingIteration(base, st, param, e, s, p, rest);
    }
  }

  lemma CountingFits(st: SymState, param: nat)
    requires |st.memory| == 2 && QuantifierFree(st.memory[1])
    ensures SiteFits(CountingSite(st, param), st)
  {
    var guard, update := [Var(param), st.memory[1]], [Var(param), Num(1)];
    assert QuantifierFree(guard[0]) && QuantifierFree(guard[1]) && QuantifierFree(update[0])
        && QuantifierFree(update[1]);
    assert QuantifierFree(App(Lt, guard)) && QuantifierFree(App(Add, update));
  }

  lemma CountingIteration(base: Env, st: SymState, param: nat, e: Env, s: State, p: W.Symbol, rest: seq<int>)
    requires |st.memory| == 2 && QuantifierFree(st.memory[1]) && !Occurs(param, st.memory[1])
    requires SiteFits(CountingSite(st, param), st) && |s| == 1 && A.Enabled(CountingSite(st, param).loop, p, e, s)
    ensures IterationRuns(I.MachineOf(CountingProgram(), base), CountingSite(st, param), st, e, s, p, rest)
  {
    var site, machine := CountingSite(st, param), I.MachineOf(CountingProgram(), base);
    var x, y := s[0], Eval(st.memory[1], e);
    var here := Bind(e, [param], s);
    assert Lookup(here, [param][0]) == x;
    EvalAgree(st.memory[1], here, e);
    LessMeans(Var(param), st.memory[1], here);
    PlusOne(Var(param), here);
    assert Step(site.loop.trs[p], site.loop.params, e, s) == [x + 1] by {
      assert EvalAll([App(Add, [Var(param), Num(1)])], here) == [x + 1];
    }
    PlacedFirst(EvalAll(st.memory, e), s);
    PlacedFirst(EvalAll(st.memory, e), [x + 1]);
    CountingSteps(base, x, y, rest);
  }

  lemma PlacedFirst(memory: seq<int>, s: State)
    requires |memory| == 2 && |s| == 1
    ensures Placed(memory, [0], s) == [s[0], memory[1]]
  {
    assert [0][..0] == [] && s[..0] == [];
    assert Placed(memory, [], []) == memory;
  }

  lemma LessMeans(a: Term, b: Term, e: Env)
    ensures Eval(App(Lt, [a, b]), e) == B(Eval(a, e) < Eval(b, e))
  {
    EvalApp(Lt, [a, b], e);
  }

  lemma PlusOne(a: Term, e: Env)
    ensures Eval(App(Add, [a, Num(1)]), e) == Eval(a, e) + 1
  {
    EvalApp(Add, [a, Num(1)], e);
    var vs := EvalAll([a, Num(1)], e);
    assert vs[1..] == [1] && Sum([1]) == 1;
  }

  /** One iteration of the program. */
  lemma CountingSteps(base: Env, x: int, y: int, rest: seq<int>)
    requires x < y
    ensures Reaches(I.MachineOf(CountingProgram(), base), Config(1, [x, y], rest), Config(1, [x + 1, y], rest))
  {
    var machine := I.MachineOf(CountingProgram(), base);
    var store := L.Store(base, 2, [x, y]);
    LessMeans(Var(0), Var(1), store);
    PlusOne(Var(0), store);
    assert Lookup(store, 0) == [x, y][0] && Lookup(store, 1) == [x, y][1];
    ReachesNext(machine, Config(1, [x, y], rest), Config(2, [x, y], rest));
    assert [x, y][0 := x + 1] == [x + 1, y];
    ReachesNext(machine, Config(2, [x, y], rest), Config(3, [x + 1, y], rest));
    ReachesNext(machine, Config(3, [x + 1, y], rest), Config(0, [x + 1, y], rest));
    ReachesNext(machine, Config(0, [x + 1, y], rest), Config(1, [x + 1, y], rest));
    ReachesFurther(machine, Config(1, [x, y], rest), Config(2, [x, y], rest), Config(3, [x + 1, y], rest));
    ReachesFurther(machine, Config(1, [x, y], rest), Config(3, [x + 1, y], rest), Config(0, [x + 1, y], rest));
    ReachesFurther(machine, Config(1, [x, y], rest), Config(0, [x + 1, y], rest), Config(1, [x + 1, y], rest));
  }

  /* ---- a loop driven by its input ---- */

  /** while (input()) x++, checked against a bound. The answer is forgotten after the loop. The PHI of
      its header is at 0, the place after the loop at 6. */
  function DrivenProgram(): I.Program {
    [I.Goto(1),
     I.Input(1),
     I.Branch(Claim(Flag(true), Var(1)), 3, 5),
     I.Store_(0, App(Add, [Var(0), Num(1)])),
     I.Goto(0),
     I.Store_(1, Num(0)),
     I.Assert(Claim(Flag(true), App(Lt, [Var(0), Num(10)])))]
  }

  /** Its one path is taken on a true answer. */
  function DrivenLoop(param: nat, oracle: nat): A.Loop {
    A.Loop([param], map[1 := Transition(Var(oracle), [App(Add, [Var(param), Num(1)])])])
  }

  function DrivenControl(oracle: nat): O.Control { O.Control(true, false, oracle) }

  function DrivenExit(param: nat, oracle: nat, count: nat, probe: nat, jump: O.ExitJump): OracleExit {
    OracleExit(Site(DrivenLoop(param, oracle), [0], 1), 6, DrivenControl(oracle), Flag(true), count, probe, jump)
  }

  /** The one path with its oracle describes the loop: its exits are runs of the program on inputs with
      these truth values, and every failing run first leaves the loop. */
  lemma DrivenLoopDescribed(base: Env, st: SymState, param: nat, oracle: nat, count: nat, probe: nat, jump: O.ExitJump)
    requires st.status.RUNNING? && st.pc == 0 && |st.memory| == 2 && st.memory[1] == Num(0) && param != oracle
    ensures var machine, x := I.MachineOf(DrivenProgram(), base), DrivenExit(param, oracle, count, probe, jump);
      AtPhi(machine, x.site, st) && DescribesOracle(machine, x, st)
  {
    var machine, x := I.MachineOf(DrivenProgram(), base), DrivenExit(param, oracle, count, probe, jump);
    DrivenFits(st, x);
    forall e, inputs, t, rest | Holds(st.path, e) && Leaves(x, st, e, inputs, t)
      ensures ExitRuns(machine, x, st, e, inputs, t, rest)
    {
      var s := A.HeaderState(HeaderOf(x.site, st), e);
      DrivenRuns(base, param, oracle, e, s, 0, inputs, t, rest);
      PlacedFirst(EvalAll(st.memory, e), s);
      PlacedFirst(EvalAll(st.memory, e), t);
    }
    forall e, tape | Holds(st.path, e)
        && CanFail(machine, AtHeader(x.site, st, e, A.HeaderState(HeaderOf(x.site, st), e), x.site.entry, tape))
      ensures MustLeave(machine, x, st, e, tape)
    {
      var s := A.HeaderState(HeaderOf(x.site, st), e);
      PlacedFirst(EvalAll(st.memory, e), s);
      DrivenLeaves(base, param, oracle, e, s, 0, tape);
      var inputs, rest, t: State :| tape == inputs + rest && |t| == 1
          && O.ExitsUnder(x.site.loop, x.control, e, s, Truths(inputs), t);
      assert Leaves(x, st, e, inputs, t);
    }
  }

  lemma DrivenFits(st: SymState, x: OracleExit)
    requires |st.memory| == 2 && x.site.cells == [0] && |x.site.loop.params| == 1
    requires x == DrivenExit(x.site.loop.params[0], x.control.oracle, x.count, x.probe, x.jump)
    ensures SiteFits(x.site, st)
  {
    var update := [Var(x.site.loop.params[0]), Num(1)];
    assert QuantifierFree(update[0]) && QuantifierFree(update[1]);
    assert QuantifierFree(App(Add, update));
  }

  /** Under an answer the path is taken exactly if it is true, and counts up. */
  lemma DrivenTaken(param: nat, oracle: nat, b: bool, e: Env, s: State, p: W.Symbol)
    requires param != oracle && |s| == 1 && A.WellFormed(DrivenLoop(param, oracle))
    ensures O.Taken(DrivenLoop(param, oracle), DrivenControl(oracle), p, b, e, s) <==> p == 1 && b
    ensures Step(DrivenLoop(param, oracle).trs[1], [param], e, s) == [s[0] + 1]
  {
    var here := Bind(e, [param], s);
    assert Lookup(here, [param][0]) == s[0];
    PlusOne(Var(param), here);
    assert EvalAll([App(Add, [Var(param), Num(1)])], here) == [s[0] + 1];
    VarMeans(oracle, Set(here, oracle, B(b)));
  }

  /** One visit to the header. */
  lemma DrivenSteps(base: Env, x: int, y: int, v: int, rest: seq<int>)
    ensures Reaches(I.MachineOf(DrivenProgram(), base), Config(1, [x, y], [v] + rest),
      if v != 0 then Config(1, [x + 1, v], rest) else Config(6, [x, 0], rest))
  {
    var machine := I.MachineOf(DrivenProgram(), base);
    var start, store := Config(1, [x, y], [v] + rest), L.Store(base, 2, [x, v]);
    PlusOne(Var(0), store);
    NumMeans(0, store);
    VarMeans(1, store);
    assert Lookup(store, 0) == [x, v][0] && Lookup(store, 1) == [x, v][1];
    assert ([v] + rest)[1..] == rest && [x, y][1 := v] == [x, v];
    ReachesNext(machine, start, Config(2, [x, v], rest));
    if v != 0 {
      ReachesNext(machine, Config(2, [x, v], rest), Config(3, [x, v], rest));
      assert [x, v][0 := x + 1] == [x + 1, v];
      ReachesNext(machine, Config(3, [x, v], rest), Config(4, [x + 1, v], rest));
      ReachesNext(machine, Config(4, [x + 1, v], rest), Config(0, [x + 1, v], rest));
      ReachesNext(machine, Config(0, [x + 1, v], rest), Config(1, [x + 1, v], rest));
      hide *;
      ReachesFurther(machine, start, Config(2, [x, v], rest), Config(3, [x, v], rest));
      ReachesFurther(machine, start, Config(3, [x, v], rest), Config(4, [x + 1, v], rest));
      ReachesFurther(machine, start, Config(4, [x + 1, v], rest), Config(0, [x + 1, v], rest));
      ReachesFurther(machine, start, Config(0, [x + 1, v], rest), Config(1, [x + 1, v], rest));
    } else {
      ReachesNext(machine, Config(2, [x, v], rest), Config(5, [x, v], rest));
      assert [x, v][1 := 0] == [x, 0];
      ReachesNext(machine, Config(5, [x, v], rest), Config(6, [x, 0], rest));
      hide *;
      ReachesFurther(machine, start, Config(2, [x, v], rest), Config(5, [x, v], rest));
      ReachesFurther(machine, start, Config(5, [x, v], rest), Config(6, [x, 0], rest));
    }
  }

  lemma {:induction false} DrivenRuns(base: Env, param: nat, oracle: nat, e: Env, s: State, y: int, inputs: seq<int>,
      t: State, rest: seq<int>)
    requires param != oracle && |s| == 1 && A.WellFormed(DrivenLoop(param, oracle))
    requires O.ExitsUnder(DrivenLoop(param, oracle), DrivenControl(oracle), e, s, Truths(inputs), t)
    ensures |t| == 1
    ensures Reaches(I.MachineOf(DrivenProgram(), base), Config(1, [s[0], y], inputs + rest), Config(6, [t[0], 0], rest))
    decreases |inputs|
  {
    hide A.WellFormed, O.Taken, Reaches, Eval;
    var machine, v, more := I.MachineOf(DrivenProgram(), base), inputs[0], inputs[1..];
    assert Truths(inputs)[1..] == Truths(more) && inputs + rest == [v] + (more + rest);
    DrivenSteps(base, s[0], y, v, more + rest);
    if v == 0 {
      assert more + rest == rest && t == s;
    } else {
      DrivenTaken(param, oracle, true, e, s, 1);
      forall p | O.Taken(DrivenLoop(param, oracle), DrivenControl(oracle), p, true, e, s) ensures p == 1 {
        DrivenTaken(param, oracle, true, e, s, p);
      }
      DrivenRuns(base, param, oracle, e, [s[0] + 1], v, more, t, rest);
      ReachesFurther(machine, Config(1, [s[0], y], inputs + rest), Config(1, [s[0] + 1, v], more + rest),
          Config(6, [t[0], 0], rest));
    }
  }

  /** The loop is left after some of the inputs. */
  ghost predicate DrivenOut(param: nat, oracle: nat, e: Env, s: State, tape: seq<int>)
    requires |s| == 1 && A.WellFormed(DrivenLoop(param, oracle))
  {
    exists inputs, rest, t: State ::
      && tape == inputs + rest && |t| == 1
      && O.ExitsUnder(DrivenLoop(param, oracle), DrivenControl(oracle), e, s, Truths(inputs), t)
  }

  lemma DrivenStuck(base: Env, x: int, y: int)
    ensures !CanFail(I.MachineOf(DrivenProgram(), base), Config(1, [x, y], []))
  {
    assert I.MachineOf(DrivenProgram(), base)(Config(1, [x, y], [])) == Stops;
  }

  /** A failing run reads a false answer. */
  lemma {:induction false} DrivenLeaves(base: Env, param: nat, oracle: nat, e: Env, s: State, y: int, tape: seq<int>)
    requires param != oracle && |s| == 1 && A.WellFormed(DrivenLoop(param, oracle))
    requires CanFail(I.MachineOf(DrivenProgram(), base), Config(1, [s[0], y], tape))
    ensures DrivenOut(param, oracle, e, s, tape)
    decreases |tape|
  {
    hide A.WellFormed, O.Taken, Reaches, Eval, CanFail, I.Next, DrivenProgram;
    var machine := I.MachineOf(DrivenProgram(), base);
    DrivenStuck(base, s[0], y);
    var v, later := tape[0], tape[1..];
    assert tape == [v] + later;
    if v == 0 {
      OutNow(param, oracle, e, s, later);
    } else {
      hide DrivenOut;
      DrivenSteps(base, s[0], y, v, later);
      PassesThrough(machine, Config(1, [s[0], y], tape), Config(1, [s[0] + 1, v], later));
      DrivenLeaves(base, param, oracle, e, [s[0] + 1], v, later);
      OutLater(param, oracle, e, s, v, later);
    }
  }

  lemma OutNow(param: nat, oracle: nat, e: Env, s: State, later: seq<int>)
    requires |s| == 1 && A.WellFormed(DrivenLoop(param, oracle))
    ensures DrivenOut(param, oracle, e, s, [0] + later)
  {
    hide A.WellFormed, O.Taken;
    assert Truths([0]) == [false];
    assert O.ExitsUnder(DrivenLoop(param, oracle), DrivenControl(oracle), e, s, Truths([0]), s);
  }

  lemma OutLater(param: nat, oracle: nat, e: Env, s: State, v: int, later: seq<int>)
    requires param != oracle && |s| == 1 && A.WellFormed(DrivenLoop(param, oracle)) && v != 0
    requires DrivenOut(param, oracle, e, [s[0] + 1], later)
    ensures DrivenOut(param, oracle, e, s, [v] + later)
  {
    hide A.WellFormed, O.Taken, Eval;
    var inputs, rest, t: State :| later == inputs + rest && |t| == 1
        && O.ExitsUnder(DrivenLoop(param, oracle), DrivenControl(oracle), e, [s[0] + 1], Truths(inputs), t);
    DrivenTaken(param, oracle, true, e, s, 1);
    assert Truths([v] + inputs)[1..] == Truths(inputs) && Truths([v] + inputs)[0];
    assert [v] + later == ([v] + inputs) + rest;
  }

  /* ---- every nest, as a program ---- */

  function Always(t: Term): Claim { Claim(Flag(true), t) }

  function Length(code: L.Code): nat
    decreases code, 0
  {
    match code
    case Skip => 1
    case Error => 1
    case Branch(_, thn, els) => 1 + Length(thn) + Length(els)
    case Assign(_, _, next) => 1 + Length(next)
    case Check(_, next) => 1 + Length(next)
    case Nest(checks, _, body, next) => LoopLength(checks, body) + Length(next)
  }

  function LoopLength(checks: seq<Term>, body: L.Code): nat
    decreases body, 1
  {
    |checks| + 1 + Length(body)
  }

  /** The instructions of the code, from a place on; at its end it goes to another place. */
  function Compiled(code: L.Code, at: nat, end: nat): (part: I.Program)
    ensures |part| == Length(code)
    decreases code, 0
  {
    match code
    case Skip => [I.Goto(end)]
    case Error => [I.ReachError]
    case Branch(cond, thn, els) =>
      [I.Branch(Always(cond), at + 1, at + 1 + Length(thn))]
      + Compiled(thn, at + 1, end) + Compiled(els, at + 1 + Length(thn), end)
    case Assign(x, value, next) => [I.Store_(x, value)] + Compiled(next, at + 1, end)
    case Check(cond, next) => [I.Assert(Always(cond))] + Compiled(next, at + 1, end)
    case Nest(checks, test, body, next) =>
      CompiledLoop(checks, test, body, at) + Compiled(next, at + LoopLength(checks, body), end)
  }

  /** A loop: its assertions, its branch, and its body, which goes back to the header. The place after it
      follows. */
  function CompiledLoop(checks: seq<Term>, test: L.Test, body: L.Code, at: nat): (part: I.Program)
    ensures |part| == LoopLength(checks, body)
    decreases body, 1
  {
    var n := |checks|;
    seq(n, i requires 0 <= i < n => I.Assert(Always(checks[i])))
    + [I.Branch(Always(NestedAcceleration.TestTerm(test)), at + n + 1, at + LoopLength(checks, body))]
    + Compiled(body, at + n + 1, at)
  }

  /** The part stands in the program at this place. */
  predicate Sits(program: I.Program, part: I.Program, at: nat) {
    at + |part| <= |program| && program[at..at + |part|] == part
  }

  lemma SitsParts(program: I.Program, a: I.Program, b: I.Program, at: nat)
    requires Sits(program, a + b, at)
    ensures Sits(program, a, at) && Sits(program, b, at + |a|)
  {
    var part := program[at..at + |a + b|];
    assert part[..|a|] == a && part[|a|..] == b;
  }

  lemma SitsAt(program: I.Program, part: I.Program, at: nat, i: nat)
    requires Sits(program, part, at) && i < |part|
    ensures I.Fetch(program, at + i) == part[i]
  {
    assert program[at..at + |part|][i] == part[i];
  }

  ghost predicate AllRead(ts: seq<Term>, m: nat) { forall i | 0 <= i < |ts| :: I.Reads(ts[i], m) }

  /** The terms read the m cells, and their values do not depend on how partial operations are completed. */
  ghost predicate Readable(code: L.Code, m: nat)
    decreases code, 0
  {
    match code
    case Skip => true
    case Error => true
    case Branch(cond, thn, els) => I.Reads(cond, m) && Readable(thn, m) && Readable(els, m)
    case Assign(x, value, next) => x < m && I.Reads(value, m) && Readable(next, m)
    case Check(cond, next) => I.Reads(cond, m) && Readable(next, m)
    case Nest(checks, test, body, next) => ReadableLoop(checks, test, body, m) && Readable(next, m)
  }

  ghost predicate ReadableLoop(checks: seq<Term>, test: L.Test, body: L.Code, m: nat)
    decreases body, 1
  {
    AllRead(checks, m) && I.Reads(test.left, m) && I.Reads(test.right, m) && Readable(body, m)
  }

  /** A condition that reads the cells alone is decided in the machine as in the nest. */
  lemma DecidedAs(t: Term, m: nat, s: State, e: Env, base: Env)
    requires I.Reads(t, m) && |s| == m
    ensures I.Decided(Always(t), base, s) == Some(Holds(t, L.Store(e, m, s)))
    ensures I.Value(t, base, s) == Eval(t, L.Store(e, m, s))
  {
    I.SameMemory(t, m, s, e, base);
    TrueValue(base, s);
    hide Eval;
  }

  lemma TrueValue(base: Env, s: State)
    ensures I.Value(Flag(true), base, s) == 1
  {
  }

  lemma TestDecided(test: L.Test, m: nat, s: State, e: Env, base: Env)
    requires I.Reads(test.left, m) && I.Reads(test.right, m) && |s| == m
    ensures I.Decided(Always(NestedAcceleration.TestTerm(test)), base, s) == Some(L.Continues(test, e, s))
  {
    NestedAcceleration.TestMeans(test, m);
    I.SameMemory(test.left, m, s, e, base);
    I.SameMemory(test.right, m, s, e, base);
    TrueValue(base, s);
    hide Eval, NestedAcceleration.TestTerm, L.Scalar;
    assert L.Continues(test, e, s) == L.Continues(test, base, s);
  }

  /** Where the parts of the code stand. */
  lemma PartsSit(program: I.Program, code: L.Code, at: nat, end: nat)
    requires Sits(program, Compiled(code, at, end), at)
    ensures
      match code
      case Skip => I.Fetch(program, at) == I.Goto(end)
      case Error => I.Fetch(program, at) == I.ReachError
      case Branch(cond, thn, els) =>
        && I.Fetch(program, at) == I.Branch(Always(cond), at + 1, at + 1 + Length(thn))
        && Sits(program, Compiled(thn, at + 1, end), at + 1)
        && Sits(program, Compiled(els, at + 1 + Length(thn), end), at + 1 + Length(thn))
      case Assign(x, value, next) =>
        I.Fetch(program, at) == I.Store_(x, value) && Sits(program, Compiled(next, at + 1, end), at + 1)
      case Check(cond, next) =>
        I.Fetch(program, at) == I.Assert(Always(cond)) && Sits(program, Compiled(next, at + 1, end), at + 1)
      case Nest(checks, test, body, next) =>
        var after := at + LoopLength(checks, body);
        Sits(program, CompiledLoop(checks, test, body, at), at) && Sits(program, Compiled(next, after, end), after)
  {
    hide Sits, CompiledLoop;
    var part := Compiled(code, at, end);
    SitsAt(program, part, at, 0);
    match code
    case Branch(cond, thn, els) =>
      var a, b := Compiled(thn, at + 1, end), Compiled(els, at + 1 + Length(thn), end);
      assert part == part[..1] + a + b;
      SitsParts(program, part[..1] + a, b, at);
      SitsParts(program, part[..1], a, at);
    case Assign(x, value, next) => SitsParts(program, part[..1], Compiled(next, at + 1, end), at);
    case Check(cond, next) => SitsParts(program, part[..1], Compiled(next, at + 1, end), at);
    case Nest(checks, test, body, next) =>
      SitsParts(program, CompiledLoop(checks, test, body, at),
        Compiled(next, at + LoopLength(checks, body), end), at);
    case _ =>
  }

  /** Code that runs to its end does so in the machine. */
  lemma {:induction false} CodeRuns(program: I.Program, base: Env, code: L.Code, at: nat, end: nat, m: nat, e: Env,
      s: State, s': State, rest: seq<int>)
    requires Sits(program, Compiled(code, at, end), at) && Readable(code, m) && |s| == m && L.Runs(code, e, s, s')
    ensures |s'| == m && Reaches(I.MachineOf(program, base), Config(at, s, rest), Config(end, s', rest))
    decreases code, 0
  {
    hide Eval, Reaches, I.Reads, Sits, L.LoopRuns, Compiled, CompiledLoop, Length, LoopLength, ReadableLoop, L.Store,
        I.Fetch;
    var machine := I.MachineOf(program, base);
    PartsSit(program, code, at, end);
    match code
    case Skip => ReachesNext(machine, Config(at, s, rest), Config(end, s, rest));
    case Branch(cond, thn, els) =>
      DecidedAs(cond, m, s, e, base);
      var holds := Holds(cond, L.Store(e, m, s));
      var side, there := if holds then thn else els, if holds then at + 1 else at + 1 + Length(thn);
      CodeRuns(program, base, side, there, end, m, e, s, s', rest);
      Onwards(machine, Config(at, s, rest), Config(there, s, rest), Config(end, s', rest));
    case Assign(x, value, next) =>
      DecidedAs(value, m, s, e, base);
      var t := L.Assigned(x, value, e, s);
      CodeRuns(program, base, next, at + 1, end, m, e, t, s', rest);
      Onwards(machine, Config(at, s, rest), Config(at + 1, t, rest), Config(end, s', rest));
    case Check(cond, next) =>
      DecidedAs(cond, m, s, e, base);
      CodeRuns(program, base, next, at + 1, end, m, e, s, s', rest);
      Onwards(machine, Config(at, s, rest), Config(at + 1, s, rest), Config(end, s', rest));
    case Nest(checks, test, body, next) =>
      var trace :| L.LoopRuns(checks, test, body, e, s, trace) && L.Runs(next, e, L.End(trace), s');
      var after := at + LoopLength(checks, body);
      LoopRunsThere(program, base, checks, test, body, at, m, e, s, trace, rest);
      CodeRuns(program, base, next, after, end, m, e, L.End(trace), s', rest);
      ReachesFurther(machine, Config(at, s, rest), Config(after, L.End(trace), rest), Config(end, s', rest));
  }

  lemma Onwards(machine: Machine, c: Config, d: Config, f: Config)
    requires machine(c) == Go(d) && Reaches(machine, d, f)
    ensures Reaches(machine, c, f)
  {
    hide Reaches;
    ReachesNext(machine, c, d);
    ReachesFurther(machine, c, d, f);
  }

  /** A loop that runs to its exit does so in the machine. */
  lemma {:induction false} LoopRunsThere(program: I.Program, base: Env, checks: seq<Term>, test: L.Test, body: L.Code,
      at: nat, m: nat, e: Env, s: State, trace: seq<State>, rest: seq<int>)
    requires Sits(program, CompiledLoop(checks, test, body, at), at) && ReadableLoop(checks, test, body, m) && |s| == m
    requires L.LoopRuns(checks, test, body, e, s, trace)
    ensures |L.End(trace)| == m
    ensures Reaches(I.MachineOf(program, base), Config(at, s, rest),
      Config(at + LoopLength(checks, body), L.End(trace), rest))
    decreases body, 2
  {
    hide Eval, Reaches, I.Reads, Sits, L.Runs, L.ChecksHold, L.Continues;
    var machine, n := I.MachineOf(program, base), |trace| - 1;
    VisitsRun(program, base, checks, test, body, at, m, e, s, trace, n, rest);
    HeaderRuns(program, base, checks, test, body, at, m, e, trace[n], rest);
    ReachesFurther(machine, Config(at, s, rest), Config(at, trace[n], rest),
      Config(at + LoopLength(checks, body), trace[n], rest));
  }

  /** The first iterations, from header to header. */
  lemma {:induction false} VisitsRun(program: I.Program, base: Env, checks: seq<Term>, test: L.Test, body: L.Code,
      at: nat, m: nat, e: Env, s: State, trace: seq<State>, n: nat, rest: seq<int>)
    requires Sits(program, CompiledLoop(checks, test, body, at), at) && ReadableLoop(checks, test, body, m) && |s| == m
    requires L.Iterations(checks, test, body, e, s, trace) && n < |trace|
    ensures |trace[n]| == m
    ensures Reaches(I.MachineOf(program, base), Config(at, s, rest), Config(at, trace[n], rest))
    decreases body, 1, n
  {
    hide Eval, Reaches, I.Reads, Sits, L.Runs, L.ChecksHold, L.Continues;
    var machine, there := I.MachineOf(program, base), at + |checks| + 1;
    if n == 0 {
      ReachesItself(machine, Config(at, s, rest));
    } else {
      VisitsRun(program, base, checks, test, body, at, m, e, s, trace, n - 1, rest);
      var t := trace[n - 1];
      assert L.ChecksHold(checks, e, t) && L.Continues(test, e, t) && L.Runs(body, e, t, trace[n]);
      HeaderRuns(program, base, checks, test, body, at, m, e, t, rest);
      BodySits(program, checks, test, body, at);
      CodeRuns(program, base, body, there, at, m, e, t, trace[n], rest);
      ReachesFurther(machine, Config(at, t, rest), Config(there, t, rest), Config(at, trace[n], rest));
      ReachesFurther(machine, Config(at, s, rest), Config(at, t, rest), Config(at, trace[n], rest));
    }
  }

  lemma BodySits(program: I.Program, checks: seq<Term>, test: L.Test, body: L.Code, at: nat)
    requires Sits(program, CompiledLoop(checks, test, body, at), at)
    ensures Sits(program, Compiled(body, at + |checks| + 1, at), at + |checks| + 1)
  {
    hide Sits;
    var part, inner := CompiledLoop(checks, test, body, at), Compiled(body, at + |checks| + 1, at);
    assert part == part[..|checks| + 1] + inner;
    SitsParts(program, part[..|checks| + 1], inner, at);
  }

  /** The header, whose assertions hold: to the body or to the place after the loop. */
  lemma HeaderRuns(program: I.Program, base: Env, checks: seq<Term>, test: L.Test, body: L.Code, at: nat, m: nat,
      e: Env, s: State, rest: seq<int>)
    requires Sits(program, CompiledLoop(checks, test, body, at), at) && ReadableLoop(checks, test, body, m) && |s| == m
    requires L.ChecksHold(checks, e, s)
    ensures Reaches(I.MachineOf(program, base), Config(at, s, rest),
      Config(if L.Continues(test, e, s) then at + |checks| + 1 else at + LoopLength(checks, body), s, rest))
  {
    hide Eval, Reaches, I.Reads, Sits, L.Continues, NestedAcceleration.TestTerm;
    var machine, n := I.MachineOf(program, base), |checks|;
    ChecksPass(program, base, checks, test, body, at, m, e, s, n, rest);
    SitsAt(program, CompiledLoop(checks, test, body, at), at, n);
    TestDecided(test, m, s, e, base);
    var next := if L.Continues(test, e, s) then at + n + 1 else at + LoopLength(checks, body);
    ReachesNext(machine, Config(at + n, s, rest), Config(next, s, rest));
    ReachesFurther(machine, Config(at, s, rest), Config(at + n, s, rest), Config(next, s, rest));
  }

  lemma {:induction false} ChecksPass(program: I.Program, base: Env, checks: seq<Term>, test: L.Test, body: L.Code,
      at: nat, m: nat, e: Env, s: State, n: nat, rest: seq<int>)
    requires Sits(program, CompiledLoop(checks, test, body, at), at) && AllRead(checks, m) && |s| == m
    requires n <= |checks| && forall i | 0 <= i < n :: Holds(checks[i], L.Store(e, m, s))
    ensures Reaches(I.MachineOf(program, base), Config(at, s, rest), Config(at + n, s, rest))
  {
    hide Eval, Reaches, I.Reads, Sits;
    var machine := I.MachineOf(program, base);
    if n == 0 {
      ReachesItself(machine, Config(at, s, rest));
    } else {
      ChecksPass(program, base, checks, test, body, at, m, e, s, n - 1, rest);
      SitsAt(program, CompiledLoop(checks, test, body, at), at, n - 1);
      DecidedAs(checks[n - 1], m, s, e, base);
      ReachesNext(machine, Config(at + n - 1, s, rest), Config(at + n, s, rest));
      ReachesFurther(machine, Config(at, s, rest), Config(at + n - 1, s, rest), Config(at + n, s, rest));
    }
  }

  lemma FailsNow(machine: Machine, c: Config)
    requires machine(c) == Violates
    ensures CanFail(machine, c)
  {
    assert After(machine, c, 1) == Violates;
  }

  lemma FailsLater(machine: Machine, c: Config, d: Config)
    requires machine(c) == Go(d) && CanFail(machine, d)
    ensures CanFail(machine, c)
  {
    hide CanFail;
    ReachesNext(machine, c, d);
    PassesThrough(machine, c, d);
  }

  /** Code that fails does so in the machine. */
  lemma {:induction false} CodeFails(program: I.Program, base: Env, code: L.Code, at: nat, end: nat, m: nat, e: Env,
      s: State, rest: seq<int>)
    requires Sits(program, Compiled(code, at, end), at) && Readable(code, m) && |s| == m && L.Fails(code, e, s)
    ensures CanFail(I.MachineOf(program, base), Config(at, s, rest))
    decreases code, 0
  {
    hide Eval, Reaches, I.Reads, Sits, L.LoopRuns, Compiled, CompiledLoop, Length, LoopLength, ReadableLoop, L.Store,
        I.Fetch, CanFail, L.LoopFails;
    var machine := I.MachineOf(program, base);
    PartsSit(program, code, at, end);
    match code
    case Error => FailsNow(machine, Config(at, s, rest));
    case Branch(cond, thn, els) =>
      DecidedAs(cond, m, s, e, base);
      var holds := Holds(cond, L.Store(e, m, s));
      var side, there := if holds then thn else els, if holds then at + 1 else at + 1 + Length(thn);
      CodeFails(program, base, side, there, end, m, e, s, rest);
      FailsLater(machine, Config(at, s, rest), Config(there, s, rest));
    case Assign(x, value, next) =>
      DecidedAs(value, m, s, e, base);
      CodeFails(program, base, next, at + 1, end, m, e, L.Assigned(x, value, e, s), rest);
      FailsLater(machine, Config(at, s, rest), Config(at + 1, L.Assigned(x, value, e, s), rest));
    case Check(cond, next) =>
      DecidedAs(cond, m, s, e, base);
      if Holds(cond, L.Store(e, m, s)) {
        CodeFails(program, base, next, at + 1, end, m, e, s, rest);
        FailsLater(machine, Config(at, s, rest), Config(at + 1, s, rest));
      } else {
        FailsNow(machine, Config(at, s, rest));
      }
    case Nest(checks, test, body, next) =>
      var after := at + LoopLength(checks, body);
      if L.LoopFails(checks, test, body, e, s) {
        LoopFailsThere(program, base, checks, test, body, at, m, e, s, rest);
      } else {
        var trace :| L.LoopRuns(checks, test, body, e, s, trace) && L.Fails(next, e, L.End(trace));
        LoopRunsThere(program, base, checks, test, body, at, m, e, s, trace, rest);
        CodeFails(program, base, next, after, end, m, e, L.End(trace), rest);
        PassesThrough(machine, Config(at, s, rest), Config(after, L.End(trace), rest));
      }
  }

  /** A loop that fails, in an iteration or a child, does so in the machine. */
  lemma {:induction false} LoopFailsThere(program: I.Program, base: Env, checks: seq<Term>, test: L.Test, body: L.Code,
      at: nat, m: nat, e: Env, s: State, rest: seq<int>)
    requires Sits(program, CompiledLoop(checks, test, body, at), at) && ReadableLoop(checks, test, body, m) && |s| == m
    requires L.LoopFails(checks, test, body, e, s)
    ensures CanFail(I.MachineOf(program, base), Config(at, s, rest))
    decreases body, 2
  {
    hide Eval, Reaches, I.Reads, Sits, L.Continues, L.Fails, L.Iterations, CanFail, I.Next, CompiledLoop;
    var machine, there := I.MachineOf(program, base), at + |checks| + 1;
    var trace :| L.Iterations(checks, test, body, e, s, trace) && L.FailsAt(checks, test, body, e, L.End(trace));
    SomeVisit(checks, test, body, e, s, trace);
    var t := L.End(trace);
    VisitsRun(program, base, checks, test, body, at, m, e, s, trace, |trace| - 1, rest);
    if L.ChecksHold(checks, e, t) {
      HeaderRuns(program, base, checks, test, body, at, m, e, t, rest);
      BodySits(program, checks, test, body, at);
      CodeFails(program, base, body, there, at, m, e, t, rest);
      PassesThrough(machine, Config(at, t, rest), Config(there, t, rest));
    } else {
      CheckFails(program, base, checks, test, body, at, m, e, t, |checks|, rest);
    }
    PassesThrough(machine, Config(at, s, rest), Config(at, t, rest));
  }

  lemma SomeVisit(checks: seq<Term>, test: L.Test, body: L.Code, e: Env, s: State, trace: seq<State>)
    requires L.Iterations(checks, test, body, e, s, trace)
    ensures trace != []
  {
  }

  /** The first failing assertion of a header is reached. */
  lemma {:induction false} CheckFails(program: I.Program, base: Env, checks: seq<Term>, test: L.Test, body: L.Code,
      at: nat, m: nat, e: Env, s: State, n: nat, rest: seq<int>)
    requires Sits(program, CompiledLoop(checks, test, body, at), at) && AllRead(checks, m) && |s| == m
    requires n <= |checks| && exists i | 0 <= i < n :: !Holds(checks[i], L.Store(e, m, s))
    ensures CanFail(I.MachineOf(program, base), Config(at, s, rest))
  {
    hide Eval, Reaches, I.Reads, Sits, CanFail;
    var machine, k := I.MachineOf(program, base), n - 1;
    if forall i | 0 <= i < k :: Holds(checks[i], L.Store(e, m, s)) {
      ChecksPass(program, base, checks, test, body, at, m, e, s, k, rest);
      SitsAt(program, CompiledLoop(checks, test, body, at), at, k);
      DecidedAs(checks[k], m, s, e, base);
      FailsNow(machine, Config(at + k, s, rest));
      PassesThrough(machine, Config(at, s, rest), Config(at + k, s, rest));
    } else {
      CheckFails(program, base, checks, test, body, at, m, e, s, k, rest);
    }
  }

  /** Every nest is described by the program it compiles to, wherever that stands: its complete runs are
      runs of the program, and so are its failing ones. */
  lemma NestDescribed(program: I.Program, base: Env, checks: seq<Term>, test: L.Test, body: L.Code, at: nat, m: nat,
      x: NestJump)
    requires Sits(program, CompiledLoop(checks, test, body, at), at) && ReadableLoop(checks, test, body, m)
    requires x.checks == checks && x.test == test && x.body == body && x.exit == at + LoopLength(checks, body)
    ensures DescribesNest(I.MachineOf(program, base), x, at, m)
    ensures forall e, u: State, rest | |u| == m && L.LoopFails(checks, test, body, e, u) ::
      CanFail(I.MachineOf(program, base), Config(at, u, rest))
  {
    hide L.LoopRuns, L.LoopFails, CanFail, Reaches, Sits, ReadableLoop;
    forall e, u: State, trace, rest | |u| == m && L.LoopRuns(checks, test, body, e, u, trace)
      ensures Reaches(I.MachineOf(program, base), Config(at, u, rest), Config(x.exit, L.End(trace), rest))
    {
      LoopRunsThere(program, base, checks, test, body, at, m, e, u, trace, rest);
    }
    forall e, u: State, rest | |u| == m && L.LoopFails(checks, test, body, e, u)
      ensures CanFail(I.MachineOf(program, base), Config(at, u, rest))
    {
      LoopFailsThere(program, base, checks, test, body, at, m, e, u, rest);
    }
  }
}
