/** Accelerated execution meets what the worklist asks of execution: the successors of a header PHI,
    of an oracle loop and of a whole nest stand for the runs of the machine they skip. */
module AcceleratedRuns {
  import opened Terms
  import opened ClosedForms
  import opened Engine
  import opened Wrappers
  import opened Selections
  import W = PathWords
  import A = Acceleration
  import H = HeaderJumps
  import O = OracleLoops
  import L = LoopNests
  import N = NestedSummaries
  import NestedAcceleration
  import I = Instructions

  /* ---- the machine passes through its configurations ---- */

  ghost predicate Reaches(machine: Machine, c: Config, d: Config) { exists n: nat :: After(machine, c, n) == Go(d) }

  lemma {:induction false} StaysViolated(machine: Machine, c: Config, n: nat, k: nat)
    requires After(machine, c, n) == Violates
    ensures After(machine, c, n + k) == Violates
    decreases n
  {
    if n > 0 && machine(c).Go? { StaysViolated(machine, machine(c).next, n - 1, k); }
  }

  lemma ReachesFurther(machine: Machine, c: Config, d: Config, f: Config)
    requires Reaches(machine, c, d) && Reaches(machine, d, f)
    ensures Reaches(machine, c, f)
  {
    var n: nat :| After(machine, c, n) == Go(d);
    var k: nat :| After(machine, d, k) == Go(f);
    AfterAfter(machine, c, n, d, k);
    assert After(machine, c, n + k) == Go(f);
  }

  lemma ReachesItself(machine: Machine, c: Config)
    ensures Reaches(machine, c, c)
  {
    assert After(machine, c, 0) == Go(c);
  }

  lemma ReachesNext(machine: Machine, c: Config, d: Config)
    requires machine(c) == Go(d)
    ensures Reaches(machine, c, d)
  {
    assert After(machine, c, 1) == Go(d);
  }

  /** A run that can fail still can at every configuration it passes through. */
  lemma PassesThrough(machine: Machine, c: Config, d: Config)
    requires Reaches(machine, c, d)
    ensures CanFail(machine, c) <==> CanFail(machine, d)
  {
    var n: nat :| After(machine, c, n) == Go(d);
    if CanFail(machine, c) {
      var k: nat :| After(machine, c, k) == Violates;
      if k <= n { StaysViolated(machine, c, k, n - k); }
      AfterAfter(machine, c, n, d, k - n);
      assert After(machine, d, k - n) == Violates;
    }
    if CanFail(machine, d) {
      var k: nat :| After(machine, d, k) == Violates;
      AfterAfter(machine, c, n, d, k);
      assert After(machine, c, n + k) == Violates;
    }
  }

  /* ---- shortcuts ---- */

  /** Wherever the next state's path holds, the run from the state has got there, on the inputs that the
      next state has recorded in addition. */
  ghost predicate Shortcut(machine: Machine, st: SymState, next: SymState) {
    forall e, rest | Holds(next.path, e) :: ShortcutAt(machine, st, next, e, rest)
  }

  ghost predicate ShortcutAt(machine: Machine, st: SymState, next: SymState, e: Env, rest: seq<int>) {
    && Holds(st.path, e) && |st.calls| <= |next.calls| && st.calls == next.calls[..|st.calls|]
    && Reaches(machine, Standing(st, e, Tape(next.calls[|st.calls|..], e) + rest), Standing(next, e, rest))
  }

  /** The same precision and memory size; more names and more recorded inputs at most. */
  ghost predicate Extends(st: SymState, next: SymState) {
    && st.status.RUNNING? && next.status.RUNNING? && Scoped(next) && st.names <= next.names
        && |next.memory| == |st.memory|
    && next.overApprox == st.overApprox && next.complete == st.complete
  }

  lemma {:induction false} TapeConcat(a: seq<NondetCall>, b: seq<NondetCall>, e: Env)
    ensures Tape(a + b, e) == Tape(a, e) + Tape(b, e)
  {
    hide Eval, CallInputs;
    if b == [] {
      assert a + b == a;
    } else {
      var n := |b| - 1;
      assert (a + b)[..|a + b| - 1] == a + b[..n];
      TapeConcat(a, b[..n], e);
    }
  }

  lemma ShortcutIsSane(machine: Machine, init: SymState, st: SymState, next: SymState)
    requires Sane(machine, init, st) && Extends(st, next) && Shortcut(machine, st, next)
    ensures Sane(machine, init, next)
  {
    hide Eval, Below, Tape, Scoped;
    if Precise(next) {
      forall e, rest | Holds(next.path, e) ensures WitnessedAt(machine, init, next, e, rest) {
        assert ShortcutAt(machine, st, next, e, rest);
        var more := next.calls[|st.calls|..];
        var rest' := Tape(more, e) + rest;
        assert WitnessedAt(machine, init, st, e, rest');
        TapeConcat(st.calls, more, e);
        assert st.calls + more == next.calls;
        assert Tape(st.calls, e) + rest' == Tape(next.calls, e) + rest;
        ReachesFurther(machine, Standing(init, e, Tape(next.calls, e) + rest), Standing(st, e, rest'),
            Standing(next, e, rest));
      }
    }
  }

  /** A failing run that the shortcut stands for goes on from the next state. */
  lemma ShortcutKeepsDanger(machine: Machine, st: SymState, next: SymState, e: Env, rest: seq<int>)
    requires Shortcut(machine, st, next) && Holds(next.path, e) && |st.calls| <= |next.calls|
    requires Danger(machine, st, e, Tape(next.calls[|st.calls|..], e) + rest)
    ensures Danger(machine, next, e, rest)
  {
    hide Eval, CanFail, Tape;
    assert ShortcutAt(machine, st, next, e, rest);
    PassesThrough(machine, Standing(st, e, Tape(next.calls[|st.calls|..], e) + rest), Standing(next, e, rest));
  }

  /* ---- names ---- */

  /** A number above every variable of the term. */
  function NamesIn(t: Term): (n: nat)
    decreases t, 0
  {
    match t
    case Var(v) => v + 1
    case App(_, args) => NamesInAll(args)
    case Ite(c, a, b) => NamesIn(c) + NamesIn(a) + NamesIn(b)
    case Quant(_, _, body) => NamesIn(body)
    case _ => 0
  }

  function NamesInAll(ts: seq<Term>): (n: nat)
    decreases ts, 1
  {
    if ts == [] then 0 else NamesIn(ts[0]) + NamesInAll(ts[1..])
  }

  lemma {:induction false} NamesBound(id: nat, t: Term)
    requires Occurs(id, t)
    ensures id < NamesIn(t)
    decreases t, 0
  {
    match t
    case App(_, args) =>
      var i :| 0 <= i < |args| && Occurs(id, args[i]);
      NamesBoundAll(id, args, i);
    case Ite(c, a, b) =>
      if Occurs(id, c) { NamesBound(id, c); } else if Occurs(id, a) { NamesBound(id, a); } else { NamesBound(id, b); }
    case Quant(_, _, body) => NamesBound(id, body);
    case _ =>
  }

  lemma {:induction false} NamesBoundAll(id: nat, ts: seq<Term>, i: nat)
    requires i < |ts| && Occurs(id, ts[i])
    ensures id < NamesInAll(ts)
    decreases ts, 1
  {
    if i == 0 { NamesBound(id, ts[0]); } else { NamesBoundAll(id, ts[1..], i - 1); }
  }

  lemma BelowNames(t: Term, names: nat)
    requires NamesIn(t) <= names
    ensures Below(t, names)
  {
    forall id: nat | Occurs(id, t) ensures id < names { NamesBound(id, t); }
  }

  lemma AllBelowNames(ts: seq<Term>, names: nat)
    requires NamesInAll(ts) <= names
    ensures forall i | 0 <= i < |ts| :: Below(ts[i], names)
  {
    forall i, id: nat | 0 <= i < |ts| && Occurs(id, ts[i]) ensures id < names { NamesBoundAll(id, ts, i); }
  }

  /** The state with another path and memory, after the instruction, with names enough for them. */
  function Onto(st: SymState, pc: nat, path: Term, memory: seq<Term>, calls: seq<NondetCall>, names: nat): SymState {
    st.(prev := st.pc, pc := pc, path := path, memory := memory, calls := st.calls + calls,
        names := st.names + names + NamesIn(path) + NamesInAll(memory))
  }

  lemma OntoExtends(st: SymState, pc: nat, path: Term, memory: seq<Term>, calls: seq<NondetCall>, names: nat)
    requires Scoped(st) && st.status.RUNNING? && |memory| == |st.memory|
    requires forall i | 0 <= i < |calls| :: CallBelow(calls[i], names)
    ensures Extends(st, Onto(st, pc, path, memory, calls, names))
  {
    hide NamesIn, NamesInAll, Occurs;
    var next := Onto(st, pc, path, memory, calls, names);
    BelowNames(path, next.names);
    AllBelowNames(memory, next.names);
    assert Below(st.claim.defined, next.names) && Below(st.claim.holds, next.names);
    forall i | 0 <= i < |next.calls| ensures CallBelow(next.calls[i], next.names) {
      if i < |st.calls| { assert CallBelow(st.calls[i], st.names) && next.calls[i] == st.calls[i]; }
      else { assert CallBelow(calls[i - |st.calls|], names) && next.calls[i] == calls[i - |st.calls|]; }
    }
  }

  /** A value for a name above the state's changes nothing that the state denotes. */
  lemma NewName(st: SymState, e: Env, name: nat, v: int, rest: seq<int>)
    requires Scoped(st) && name >= st.names
    ensures Holds(st.path, Set(e, name, v)) <==> Holds(st.path, e)
    ensures Standing(st, Set(e, name, v), rest) == Standing(st, e, rest)
  {
    hide Eval, Occurs;
    var e' := Set(e, name, v);
    EvalAgree(st.path, e', e);
    forall i | 0 <= i < |st.memory| ensures Eval(st.memory[i], e') == Eval(st.memory[i], e) {
      assert Below(st.memory[i], st.names);
      EvalAgree(st.memory[i], e', e);
    }
    assert EvalAll(st.memory, e') == EvalAll(st.memory, e);
  }

  /* ---- header variables in memory ---- */

  /** The memory with values in the cells. */
  function Placed<T>(memory: seq<T>, cells: seq<nat>, values: seq<T>): (placed: seq<T>)
    requires |cells| == |values| && AllBelow(cells, |memory|)
    ensures |placed| == |memory|
  {
    if cells == [] then memory
    else
      var n := |cells| - 1;
      Placed(memory, cells[..n], values[..n])[cells[n] := values[n]]
  }

  lemma {:induction false} PlacedOwn<T>(memory: seq<T>, cells: seq<nat>)
    requires AllBelow(cells, |memory|)
    ensures Placed(memory, cells, Picked(memory, cells)) == memory
  {
    if cells != [] {
      var n := |cells| - 1;
      PlacedOwn(memory, cells[..n]);
      assert Picked(memory, cells)[..n] == Picked(memory, cells[..n]);
    }
  }

  lemma {:induction false} PlacedValue(memory: seq<Term>, cells: seq<nat>, values: seq<Term>, e: Env)
    requires |cells| == |values| && AllBelow(cells, |memory|)
    ensures EvalAll(Placed(memory, cells, values), e) == Placed(EvalAll(memory, e), cells, EvalAll(values, e))
  {
    hide Eval;
    if cells != [] {
      var n := |cells| - 1;
      PlacedValue(memory, cells[..n], values[..n], e);
      assert EvalAll(values, e)[..n] == EvalAll(values[..n], e);
      assert EvalAll(Placed(memory, cells, values), e) ==
          EvalAll(Placed(memory, cells[..n], values[..n]), e)[cells[n] := Eval(values[n], e)];
    }
  }

  /** A loop header in the machine: the header variables' cells, and the place after the PHIs. */
  datatype Site = Site(loop: A.Loop, cells: seq<nat>, entry: nat)

  ghost predicate SiteFits(site: Site, st: SymState) {
    A.WellFormed(site.loop) && |site.cells| == |site.loop.params| && AllBelow(site.cells, |st.memory|)
  }

  /** The loop's view of the state. */
  function HeaderOf(site: Site, st: SymState): A.Symbolic
    requires AllBelow(site.cells, |st.memory|)
  {
    A.Symbolic(st.path, Picked(st.memory, site.cells))
  }

  /** The configuration at the loop's entry with a header state in the cells. */
  ghost function AtHeader(site: Site, st: SymState, e: Env, s: State, pc: nat, tape: seq<int>): Config
    requires |s| == |site.cells| && AllBelow(site.cells, |st.memory|)
  {
    Config(pc, Placed(EvalAll(st.memory, e), site.cells, s), tape)
  }

  lemma StandingAtHeader(site: Site, st: SymState, e: Env, rest: seq<int>)
    requires AllBelow(site.cells, |st.memory|) && st.status.RUNNING?
    ensures AtHeader(site, st, e, A.HeaderState(HeaderOf(site, st), e), st.pc, rest) == Standing(st, e, rest)
  {
    hide Eval;
    PlacedOwn(EvalAll(st.memory, e), site.cells);
    assert A.HeaderState(HeaderOf(site, st), e) == Picked(EvalAll(st.memory, e), site.cells);
  }

  /** The state is at the PHI of the site, which only moves on. */
  ghost predicate AtPhi(machine: Machine, site: Site, st: SymState) {
    && st.status.RUNNING? && SiteFits(site, st)
    && forall e, rest | Holds(st.path, e) ::
        machine(Standing(st, e, rest)) == Go(Standing(st, e, rest).(pc := site.entry))
  }

  /** The enumerated paths describe the loop: where one is enabled, the machine runs from header to
      header as it says, without reading an input. */
  ghost predicate Describes(machine: Machine, site: Site, st: SymState)
    requires SiteFits(site, st)
  {
    forall e, s: State, p, rest | Holds(st.path, e) && |s| == |site.loop.params| && A.Enabled(site.loop, p, e, s) ::
      IterationRuns(machine, site, st, e, s, p, rest)
  }

  ghost predicate IterationRuns(machine: Machine, site: Site, st: SymState, e: Env, s: State, p: W.Symbol,
      rest: seq<int>)
    requires SiteFits(site, st) && |s| == |site.loop.params| && A.Enabled(site.loop, p, e, s)
  {
    Reaches(machine, AtHeader(site, st, e, s, site.entry, rest),
            AtHeader(site, st, e, Step(site.loop.trs[p], site.loop.params, e, s), site.entry, rest))
  }

  /** Runs of the loop are runs of the machine. */
  lemma {:induction false} LoopRunsOn(machine: Machine, site: Site, st: SymState, e: Env, s: State, word: W.Word,
      rest: seq<int>)
    requires SiteFits(site, st) && Describes(machine, site, st) && Holds(st.path, e)
    requires |s| == |site.loop.params| && A.Runs(site.loop, word, e, s)
    ensures Reaches(machine, AtHeader(site, st, e, s, site.entry, rest),
                    AtHeader(site, st, e, A.After(site.loop, word, e, s), site.entry, rest))
  {
    hide Eval, A.WellFormed, A.Runs, A.After, A.Enabled, Reaches, Placed;
    if word == [] {
      A.RunsNothing(site.loop, e, s);
      ReachesItself(machine, AtHeader(site, st, e, s, site.entry, rest));
    } else {
      var n := |word| - 1;
      A.RunsSnoc(site.loop, word, e, s);
      LoopRunsOn(machine, site, st, e, s, word[..n], rest);
      var mid := A.After(site.loop, word[..n], e, s);
      assert IterationRuns(machine, site, st, e, mid, word[n], rest);
      ReachesFurther(machine, AtHeader(site, st, e, s, site.entry, rest), AtHeader(site, st, e, mid, site.entry, rest),
                     AtHeader(site, st, e, A.After(site.loop, word, e, s), site.entry, rest));
    }
  }

  /* ---- the header PHI ---- */

  /** A successor of the PHI as a state of the worklist. */
  function PhiState(site: Site, st: SymState, count: nat, s: H.Successor): SymState
    requires AllBelow(site.cells, |st.memory|) && |s.state.header| == |site.cells|
  {
    Onto(st, site.entry, s.state.path, Placed(st.memory, site.cells, s.state.header), [], count + 1)
  }

  /** What HeaderPhi was given and what it returned. */
  datatype Phi = Phi(site: Site, candidates: seq<W.Word>, ind: nat, count: nat, probe: nat,
      successors: seq<H.Successor>)

  ghost predicate PhiDone(machine: Machine, st: SymState, phi: Phi) {
    var site := phi.site;
    && AtPhi(machine, site, st) && Describes(machine, site, st)
    && H.Shaped(site.loop, HeaderOf(site, st))
        && A.FreshNames(site.loop, HeaderOf(site, st), phi.ind, phi.count, phi.probe)
    && phi.count >= st.names
    && H.PhiCases(site.loop, HeaderOf(site, st), phi.candidates, phi.ind, phi.count, phi.successors)
    && forall i | 0 <= i < |phi.successors| :: |phi.successors[i].state.header| == |site.cells|
  }

  function PhiStates(st: SymState, phi: Phi): (states: seq<SymState>)
    requires AllBelow(phi.site.cells, |st.memory|)
    requires forall i | 0 <= i < |phi.successors| :: |phi.successors[i].state.header| == |phi.site.cells|
    ensures |states| == |phi.successors|
  {
    seq(|phi.successors|, i requires 0 <= i < |phi.successors| => PhiState(phi.site, st, phi.count, phi.successors[i]))
  }

  /** A state that goes on with its own header values. */
  lemma OwnShortcut(machine: Machine, site: Site, st: SymState, count: nat, path: Term)
    requires AtPhi(machine, site, st) && forall e | Holds(path, e) :: Holds(st.path, e)
    ensures Shortcut(machine, st,
        PhiState(site, st, count, H.Successor(A.Symbolic(path, Picked(st.memory, site.cells)), None)))
  {
    hide Eval, NamesIn, NamesInAll;
    var next := PhiState(site, st, count, H.Successor(A.Symbolic(path, Picked(st.memory, site.cells)), None));
    PlacedOwn(st.memory, site.cells);
    assert st.calls + [] == st.calls;
    forall e, rest | Holds(next.path, e) ensures ShortcutAt(machine, st, next, e, rest) {
      assert Tape([], e) + rest == rest;
      ReachesNext(machine, Standing(st, e, rest), Standing(next, e, rest));
    }
  }

  /** The jump stands for the whole iterations it skips. */
  lemma JumpShortcut(machine: Machine, st: SymState, phi: Phi, star: W.Word, acc: H.PathAcceleration, sol: Solution)
    requires AtPhi(machine, phi.site, st) && Describes(machine, phi.site, st)
        && H.Shaped(phi.site.loop, HeaderOf(phi.site, st))
    requires H.JumpOf(phi.site.loop, HeaderOf(phi.site, st), star, phi.count, acc, sol, phi.ind)
    ensures |acc.jump.header| == |phi.site.cells|
    ensures Shortcut(machine, st, PhiState(phi.site, st, phi.count, H.Jumped(star, acc)))
  {
    hide Eval, NamesIn, NamesInAll, Placed, Reaches, Describes, A.Iterated, A.GuardAt, A.FirstBreak, A.Solves,
        A.WellFormed, H.JumpOf, H.Shaped, AtPhi;
    AtPhiFits(machine, phi.site, st);
    JumpWidth(phi.site, st, star, phi.count, acc, sol, phi.ind);
    var next := PhiState(phi.site, st, phi.count, H.Jumped(star, acc));
    assert st.calls + [] == st.calls;
    forall e, rest | Holds(next.path, e) ensures ShortcutAt(machine, st, next, e, rest) {
      assert Tape([], e) + rest == rest;
      JumpReaches(machine, st, phi, star, acc, sol, e, rest);
    }
  }

  lemma AtPhiFits(machine: Machine, site: Site, st: SymState)
    requires AtPhi(machine, site, st)
    ensures SiteFits(site, st)
  {
  }

  lemma JumpWidth(site: Site, st: SymState, star: W.Word, count: nat, acc: H.PathAcceleration, sol: Solution, ind: nat)
    requires SiteFits(site, st) && H.JumpOf(site.loop, HeaderOf(site, st), star, count, acc, sol, ind)
    ensures |acc.jump.header| == |site.cells|
  {
  }

  lemma JumpParts(loop: A.Loop, sym: A.Symbolic, star: W.Word, count: nat, acc: H.PathAcceleration, sol: Solution,
      ind: nat, e: Env)
    requires H.JumpOf(loop, sym, star, count, acc, sol, ind)
    ensures H.Shaped(loop, sym) && A.Solves(loop, star, ind, sol) && |sol.oneStep| == |loop.params|
    ensures Holds(acc.jump.path, e) <==>
        Holds(sym.path, e) && A.FirstBreak(loop, sol, e, A.HeaderState(sym, e), Lookup(e, count))
    ensures Holds(acc.jump.path, e) ==> Lookup(e, count) >= 1
    ensures Holds(acc.jump.path, e) ==>
        A.HeaderState(acc.jump, e) == A.Iterated(loop, sol, e, A.HeaderState(sym, e), Lookup(e, count))
    ensures Holds(acc.covered, e) <==> exists k: nat :: A.FirstBreak(loop, sol, e, A.HeaderState(sym, e), k)
  {
    hide Eval, A.Iterated, A.GuardAt, A.Solves, A.WellFormed;
  }

  lemma JumpReaches(machine: Machine, st: SymState, phi: Phi, star: W.Word, acc: H.PathAcceleration, sol: Solution,
      e: Env, rest: seq<int>)
    requires AtPhi(machine, phi.site, st) && Describes(machine, phi.site, st)
    requires H.JumpOf(phi.site.loop, HeaderOf(phi.site, st), star, phi.count, acc, sol, phi.ind)
    requires |acc.jump.header| == |phi.site.cells| && Holds(acc.jump.path, e)
    ensures Holds(st.path, e)
    ensures Reaches(machine, Standing(st, e, rest),
        Standing(PhiState(phi.site, st, phi.count, H.Jumped(star, acc)), e, rest))
  {
    hide Eval, NamesIn, NamesInAll, Placed, Reaches, Describes, A.Runs, A.After, A.Iterated, A.GuardAt, A.Solves,
        A.WellFormed, H.JumpOf;
    var site, sym := phi.site, HeaderOf(phi.site, st);
    JumpParts(site.loop, sym, star, phi.count, acc, sol, phi.ind, e);
    var s, k := A.HeaderState(sym, e), Lookup(e, phi.count);
    A.RunsRepeated(site.loop, star, phi.ind, sol, e, s, k);
    LoopRunsOn(machine, site, st, e, s, W.Repeat(star, k), rest);
    StandingAtHeader(site, st, e, rest);
    ReachesNext(machine, Standing(st, e, rest), AtHeader(site, st, e, s, site.entry, rest));
    PlacedValue(st.memory, site.cells, acc.jump.header, e);
    ReachesFurther(machine, Standing(st, e, rest), AtHeader(site, st, e, s, site.entry, rest),
                   AtHeader(site, st, e, A.HeaderState(acc.jump, e), site.entry, rest));
  }

  /** A failing run goes on from the jump, if some count is a first break, or else from the residual. */
  lemma SplitThreatens(machine: Machine, st: SymState, phi: Phi, star: W.Word, acc: H.PathAcceleration, sol: Solution,
                       e: Env, rest: seq<int>)
    requires PhiDone(machine, st, phi) && Scoped(st) && Danger(machine, st, e, rest)
    requires H.Split(phi.site.loop, HeaderOf(phi.site, st), phi.ind, phi.count, star, acc, sol, phi.successors)
    ensures Threatened(machine, PhiStates(st, phi))
  {
    hide Eval, NamesIn, NamesInAll, Placed, Shortcut, CanFail, Describes, A.FirstBreak, A.FreshNames, A.Solves,
        A.Deterministic,
         H.JumpOf, Scoped, A.AgreeBut, PlainTransitions;
    var site, sym := phi.site, HeaderOf(phi.site, st);
    var states := PhiStates(st, phi);
    JumpParts(site.loop, sym, star, phi.count, acc, sol, phi.ind, e);
    if k: nat :| A.FirstBreak(site.loop, sol, e, A.HeaderState(sym, e), k) {
      var ek := Set(e, phi.count, k);
      H.HeaderAgree(site.loop, sym, phi.ind, phi.count, phi.probe, e, k);
      H.FreshAgree(site.loop, sym, phi.ind, phi.count, phi.probe, e, k);
      H.BreakAgree(site.loop, star, phi.ind, sol, e, ek, phi.count, A.HeaderState(sym, e), k);
      JumpParts(site.loop, sym, star, phi.count, acc, sol, phi.ind, ek);
      NewName(st, e, phi.count, k, rest);
      JumpShortcut(machine, st, phi, star, acc, sol);
      var jump := PhiState(site, st, phi.count, H.Jumped(star, acc));
      GoesOn(machine, st, jump, ek, rest);
      assert states[0] == jump;
    } else {
      var residual := H.Residual(sym, acc);
      assert Holds(residual.path, e);
      OwnShortcut(machine, site, st, phi.count, residual.path);
      var next := PhiState(site, st, phi.count, H.Successor(residual, None));
      GoesOn(machine, st, next, e, rest);
      assert states[1] == next;
    }
  }

  /** Without new inputs, danger carries over a shortcut as it is. */
  lemma GoesOn(machine: Machine, st: SymState, next: SymState, e: Env, rest: seq<int>)
    requires Shortcut(machine, st, next) && next.calls == st.calls + [] && Holds(next.path, e)
        && Danger(machine, st, e, rest)
    ensures Danger(machine, next, e, rest)
  {
    hide Eval, Shortcut, CanFail;
    assert next.calls[|st.calls|..] == [] && Tape([], e) + rest == rest;
    ShortcutKeepsDanger(machine, st, next, e, rest);
  }

  /** Every successor of the PHI is sane. */
  lemma PhiSane(machine: Machine, init: SymState, st: SymState, phi: Phi, i: nat)
    requires Sane(machine, init, st) && PhiDone(machine, st, phi) && i < |phi.successors|
    ensures Sane(machine, init, PhiStates(st, phi)[i])
  {
    hide Eval, NamesIn, NamesInAll, Placed, Shortcut, CanFail, Describes, A.FreshNames, A.WellFormed, H.JumpOf,
        H.Shaped, StatusFits,
         Witnessed;
    var site, sym, s := phi.site, HeaderOf(phi.site, st), phi.successors[i];
    var next := PhiState(site, st, phi.count, s);
    OntoExtends(st, site.entry, s.state.path, Placed(st.memory, site.cells, s.state.header), [], phi.count + 1);
    if phi.successors == [H.Successor(sym, None)] {
      OwnShortcut(machine, site, st, phi.count, st.path);
    } else {
      var star, acc, sol :| star in phi.candidates
          && H.Split(site.loop, sym, phi.ind, phi.count, star, acc, sol, phi.successors);
      if i == 0 { JumpShortcut(machine, st, phi, star, acc, sol); } else {
        OwnShortcut(machine, site, st, phi.count, H.Residual(sym, acc).path);
      }
    }
    ShortcutIsSane(machine, init, st, next);
  }

  /** The successors of a header PHI lose no failing run and keep their witnesses: jump and residual
      meet what the worklist asks of execution. */
  lemma PhiFollows(machine: Machine, init: SymState, st: SymState, phi: Phi)
    requires Sane(machine, init, st) && PhiDone(machine, st, phi)
    ensures I.Follows(machine, init, st, PhiStates(st, phi))
  {
    hide Eval, NamesIn, NamesInAll, Placed, Shortcut, CanFail, Describes, A.FreshNames, A.WellFormed, H.Split,
        H.Shaped, StatusFits,
         Witnessed, Scoped, Threatened;
    var site, sym, states := phi.site, HeaderOf(phi.site, st), PhiStates(st, phi);
    forall i | 0 <= i < |states| ensures Sane(machine, init, states[i]) { PhiSane(machine, init, st, phi, i); }
    forall e, rest | Danger(machine, st, e, rest) ensures Threatened(machine, states) {
      if phi.successors == [H.Successor(sym, None)] {
        OwnShortcut(machine, site, st, phi.count, st.path);
        GoesOn(machine, st, states[0], e, rest);
        OneThreatened(machine, states[0], e, rest);
        assert states == [states[0]];
      } else {
        var star, acc, sol :| star in phi.candidates
            && H.Split(site.loop, sym, phi.ind, phi.count, star, acc, sol, phi.successors);
        SplitThreatens(machine, st, phi, star, acc, sol, e, rest);
      }
    }
  }

  /* ---- loops driven by an oracle ---- */

  ghost function Truths(inputs: seq<int>): (values: seq<bool>)
    ensures |values| == |inputs|
  {
    seq(|inputs|, i requires 0 <= i < |inputs| => inputs[i] != 0)
  }

  /** What AccelerateArbitraryFinite was given and what it returned, and the place after the loop. */
  datatype OracleExit = OracleExit(site: Site, exit: nat, control: O.Control, defined: Term, count: nat, probe: nat,
      jump: O.ExitJump)

  /** The machine runs from the loop's entry to the place after the loop, reading these inputs. */
  ghost predicate ExitRuns(machine: Machine, x: OracleExit, st: SymState, e: Env, inputs: seq<int>, t: State,
      rest: seq<int>)
    requires SiteFits(x.site, st) && |t| == |x.site.cells|
  {
    Reaches(machine, AtHeader(x.site, st, e, A.HeaderState(HeaderOf(x.site, st), e), x.site.entry, inputs + rest),
            AtHeader(x.site, st, e, t, x.exit, rest))
  }

  ghost predicate Leaves(x: OracleExit, st: SymState, e: Env, inputs: seq<int>, t: State)
    requires SiteFits(x.site, st)
  {
    O.ExitsUnder(x.site.loop, x.control, e, A.HeaderState(HeaderOf(x.site, st), e), Truths(inputs), t)
        && |t| == |x.site.cells|
  }

  /** A failing run from the entry first leaves the loop: there is no error inside it. */
  ghost predicate MustLeave(machine: Machine, x: OracleExit, st: SymState, e: Env, tape: seq<int>)
    requires SiteFits(x.site, st)
  {
    exists inputs, rest, t :: tape == inputs + rest && Leaves(x, st, e, inputs, t)
  }

  /** The paths with their oracle describe the loop in the machine. */
  ghost predicate DescribesOracle(machine: Machine, x: OracleExit, st: SymState)
    requires SiteFits(x.site, st)
  {
    && (forall e, inputs, t, rest | Holds(st.path, e) && Leaves(x, st, e, inputs, t) ::
        ExitRuns(machine, x, st, e, inputs, t, rest))
    && (forall e, tape | Holds(st.path, e)
          && CanFail(machine, AtHeader(x.site, st, e, A.HeaderState(HeaderOf(x.site, st), e), x.site.entry, tape)) ::
          MustLeave(machine, x, st, e, tape))
  }

  ghost predicate OracleDone(machine: Machine, st: SymState, x: OracleExit) {
    && AtPhi(machine, x.site, st) && DescribesOracle(machine, x, st) && x.count >= st.names
    && O.ExactExit(x.site.loop, x.control, HeaderOf(x.site, st), x.defined, x.count, x.probe, x.jump)
  }

  function OracleCall(x: OracleExit): NondetCall { Many(x.jump.sequence, x.probe, x.jump.length) }

  function OracleState(st: SymState, x: OracleExit): SymState
    requires AllBelow(x.site.cells, |st.memory|) && |x.jump.state.header| == |x.site.cells|
  {
    Onto(st, x.exit, x.jump.state.path, Placed(st.memory, x.site.cells, x.jump.state.header), [OracleCall(x)],
         x.count + NamesIn(x.jump.sequence) + NamesIn(x.jump.length))
  }

  lemma OracleExtends(st: SymState, x: OracleExit)
    requires Scoped(st) && st.status.RUNNING? && AllBelow(x.site.cells, |st.memory|)
        && |x.jump.state.header| == |x.site.cells|
    ensures Extends(st, OracleState(st, x))
  {
    hide NamesIn, NamesInAll, Scoped, Placed, Occurs;
    var names := x.count + NamesIn(x.jump.sequence) + NamesIn(x.jump.length);
    BelowNames(x.jump.sequence, names);
    BelowNames(x.jump.length, names);
    OntoExtends(st, x.exit, x.jump.state.path, Placed(st.memory, x.site.cells, x.jump.state.header), [OracleCall(x)],
        names);
  }

  /** The recorded call stands for inputs with the recorded truth values. */
  lemma OracleInputs(x: OracleExit, e: Env)
    ensures Tape([OracleCall(x)], e) == CallInputs(OracleCall(x), e)
    ensures Truths(CallInputs(OracleCall(x), e)) == O.OracleValues(x.jump, x.probe, e)
  {
    hide Eval;
    assert [OracleCall(x)][..0] == [];
    assert Tape([], e) + CallInputs(OracleCall(x), e) == CallInputs(OracleCall(x), e);
  }

  /** Setting a name to the value it has changes nothing. */
  lemma OwnName(x: OracleExit, e: Env)
    ensures var ek := Set(e, x.count, Lookup(e, x.count));
      && (Holds(x.jump.state.path, ek) <==> Holds(x.jump.state.path, e))
          && O.OracleValues(x.jump, x.probe, ek) == O.OracleValues(x.jump, x.probe, e)
      && A.HeaderState(x.jump.state, ek) == A.HeaderState(x.jump.state, e)
  {
    hide Eval;
    var ek := Set(e, x.count, Lookup(e, x.count));
    EvalAgree(x.jump.state.path, ek, e);
    EvalAgree(x.jump.length, ek, e);
    forall i | 0 <= i < |x.jump.state.header|
        ensures Eval(x.jump.state.header[i], ek) == Eval(x.jump.state.header[i], e) {
      EvalAgree(x.jump.state.header[i], ek, e);
    }
    forall i: int ensures Holds(x.jump.sequence, Set(ek, x.probe, i)) <==> Holds(x.jump.sequence, Set(e, x.probe, i)) {
      EvalAgree(x.jump.sequence, Set(ek, x.probe, i), Set(e, x.probe, i));
    }
    assert EvalAll(x.jump.state.header, ek) == EvalAll(x.jump.state.header, e);
  }

  lemma OracleShortcut(machine: Machine, st: SymState, x: OracleExit)
    requires OracleDone(machine, st, x)
    ensures Shortcut(machine, st, OracleState(st, x))
  {
    hide Eval, NamesIn, NamesInAll, Placed, Reaches, Tape, CallInputs, O.ExitsUnder, O.OracleValues, A.WellFormed,
        DescribesOracle, Truths;
    var next, sym := OracleState(st, x), HeaderOf(x.site, st);
    forall e, rest | Holds(next.path, e) ensures ShortcutAt(machine, st, next, e, rest) {
      var inputs, t := CallInputs(OracleCall(x), e), A.HeaderState(x.jump.state, e);
      OracleInputs(x, e);
      OwnName(x, e);
      assert O.ExitAt(x.jump, x.count, x.probe, e, Lookup(e, x.count), Truths(inputs), t);
      assert Leaves(x, st, e, inputs, t);
      OracleReaches(machine, st, x, e, inputs, t, rest);
      PlacedValue(st.memory, x.site.cells, x.jump.state.header, e);
      assert next.calls[|st.calls|..] == [OracleCall(x)];
    }
  }

  lemma OracleReaches(machine: Machine, st: SymState, x: OracleExit, e: Env, inputs: seq<int>, t: State, rest: seq<int>)
    requires AtPhi(machine, x.site, st) && DescribesOracle(machine, x, st) && Holds(st.path, e)
        && Leaves(x, st, e, inputs, t)
    ensures Reaches(machine, Standing(st, e, inputs + rest), AtHeader(x.site, st, e, t, x.exit, rest))
  {
    hide Eval, Placed, Reaches, MustLeave, A.WellFormed, O.ExitsUnder;
    var entered := AtHeader(x.site, st, e, A.HeaderState(HeaderOf(x.site, st), e), x.site.entry, inputs + rest);
    StandingAtHeader(x.site, st, e, inputs + rest);
    ReachesNext(machine, Standing(st, e, inputs + rest), entered);
    assert ExitRuns(machine, x, st, e, inputs, t, rest);
    ReachesFurther(machine, Standing(st, e, inputs + rest), entered, AtHeader(x.site, st, e, t, x.exit, rest));
  }

  lemma OracleThreatens(machine: Machine, st: SymState, x: OracleExit, e: Env, tape: seq<int>)
    requires OracleDone(machine, st, x) && Scoped(st) && Danger(machine, st, e, tape)
    ensures Threatened(machine, [OracleState(st, x)])
  {
    hide Eval, NamesIn, NamesInAll, Placed, Reaches, Tape, CallInputs, O.ExitsUnder, O.OracleValues, A.WellFormed,
        CanFail, Truths, Scoped,
         DescribesOracle;
    var site, sym, next := x.site, HeaderOf(x.site, st), OracleState(st, x);
    LeavesSomewhere(machine, st, x, e, tape);
    var inputs, rest, t :| tape == inputs + rest && Leaves(x, st, e, inputs, t);
    OracleReaches(machine, st, x, e, inputs, t, rest);
    PassesThrough(machine, Standing(st, e, tape), AtHeader(site, st, e, t, x.exit, rest));
    assert O.ExitsUnder(site.loop, x.control, e, A.HeaderState(sym, e), Truths(inputs), t);
    var k: nat :| O.ExitAt(x.jump, x.count, x.probe, e, k, Truths(inputs), t);
    var ek := Set(e, x.count, k);
    NewName(st, e, x.count, k, rest);
    PlacedValue(st.memory, site.cells, x.jump.state.header, ek);
    assert Standing(next, ek, rest) == AtHeader(site, st, e, t, x.exit, rest);
    OneThreatened(machine, next, ek, rest);
  }

  lemma LeavesSomewhere(machine: Machine, st: SymState, x: OracleExit, e: Env, tape: seq<int>)
    requires AtPhi(machine, x.site, st) && DescribesOracle(machine, x, st) && Danger(machine, st, e, tape)
    ensures exists inputs, rest, t :: tape == inputs + rest && Leaves(x, st, e, inputs, t)
  {
    hide Eval, Placed, Reaches, Leaves, A.WellFormed, CanFail;
    var entered := AtHeader(x.site, st, e, A.HeaderState(HeaderOf(x.site, st), e), x.site.entry, tape);
    StandingAtHeader(x.site, st, e, tape);
    ReachesNext(machine, Standing(st, e, tape), entered);
    PassesThrough(machine, Standing(st, e, tape), entered);
    assert MustLeave(machine, x, st, e, tape);
  }

  /** The accelerated exit of an oracle loop meets what the worklist asks of execution; the inputs it
      records are those of the run. */
  lemma OracleFollows(machine: Machine, init: SymState, st: SymState, x: OracleExit)
    requires Sane(machine, init, st) && OracleDone(machine, st, x)
    ensures I.Follows(machine, init, st, [OracleState(st, x)])
  {
    hide Eval, NamesIn, NamesInAll, Placed, Shortcut, CanFail, Scoped, Threatened, OracleDone, StatusFits, Witnessed,
        OracleState;
    OracleShape(machine, st, x);
    OracleExtends(st, x);
    OracleShortcut(machine, st, x);
    ShortcutIsSane(machine, init, st, OracleState(st, x));
    forall e, tape | Danger(machine, st, e, tape) ensures Threatened(machine, [OracleState(st, x)]) {
      OracleThreatens(machine, st, x, e, tape);
    }
  }

  lemma OracleShape(machine: Machine, st: SymState, x: OracleExit)
    requires OracleDone(machine, st, x)
    ensures st.status.RUNNING? && AllBelow(x.site.cells, |st.memory|) && |x.jump.state.header| == |x.site.cells|
  {
  }

  /* ---- nests ---- */

  /** What AccelerateNested was given and what it returned, and the place after the nest. */
  datatype NestJump = NestJump(checks: seq<Term>, test: L.Test, body: L.Code, exit: nat, jump: N.Explored, count: Term)

  /** The nest's complete runs are runs of the machine from here to the place after it, on m cells. */
  ghost predicate DescribesNest(machine: Machine, x: NestJump, pc: nat, m: nat) {
    forall e, u: State, trace, rest | |u| == m && L.LoopRuns(x.checks, x.test, x.body, e, u, trace) ::
      Reaches(machine, Config(pc, u, rest), Config(x.exit, L.End(trace), rest))
  }

  ghost predicate NestDone(machine: Machine, st: SymState, x: NestJump) {
    && st.status.RUNNING? && DescribesNest(machine, x, st.pc, |st.memory|)
    && NestedAcceleration.ExactJump(x.checks, x.test, x.body, |st.memory|, N.Explored(st.path, st.memory, Flag(false)),
        x.jump, x.count)
  }

  function NestState(st: SymState, x: NestJump): SymState { Onto(st, x.exit, st.path, x.jump.cur, [], 0) }

  lemma NestShortcut(machine: Machine, st: SymState, x: NestJump)
    requires NestDone(machine, st, x)
    ensures Shortcut(machine, st, NestState(st, x))
  {
    hide Eval, NamesIn, NamesInAll, Reaches, L.LoopRuns, L.LoopFails;
    var next, m := NestState(st, x), |st.memory|;
    var before := N.Explored(st.path, st.memory, Flag(false));
    forall e, rest | Holds(next.path, e) ensures ShortcutAt(machine, st, next, e, rest) {
      var s := seq(m, i requires 0 <= i < m => Lookup(e, i));
      OwnScalars(st.path, st.memory, e, s);
      OwnScalars(st.path, x.jump.cur, e, s);
      assert NestedAcceleration.JumpedFrom(x.checks, x.test, x.body, m, before, x.jump, x.count, e, s);
      var trace :| L.LoopRuns(x.checks, x.test, x.body, e, N.Reached(before, m, e, s), trace)
          && L.End(trace) == N.Reached(x.jump, m, e, s);
      assert next.calls[|st.calls|..] == [] && Tape([], e) + rest == rest && st.calls + [] == st.calls;
    }
  }

  lemma OwnScalars(path: Term, ts: seq<Term>, e: Env, s: State)
    requires forall i | 0 <= i < |s| :: s[i] == Lookup(e, i)
    ensures Holds(path, L.Store(e, |s|, s)) <==> Holds(path, e)
    ensures EvalAll(ts, L.Store(e, |s|, s)) == EvalAll(ts, e)
  {
    hide Eval;
    EvalAgree(path, L.Store(e, |s|, s), e);
    forall i | 0 <= i < |ts| ensures Eval(ts[i], L.Store(e, |s|, s)) == Eval(ts[i], e) {
      EvalAgree(ts[i], L.Store(e, |s|, s), e);
    }
  }

  /** The jump over a whole nest meets what the worklist asks of execution. */
  lemma NestFollows(machine: Machine, init: SymState, st: SymState, x: NestJump)
    requires Sane(machine, init, st) && NestDone(machine, st, x)
    ensures I.Follows(machine, init, st, [NestState(st, x)])
  {
    hide Eval, NamesIn, NamesInAll, Shortcut, CanFail, Scoped, Threatened, StatusFits, Witnessed;
    var next := NestState(st, x);
    OntoExtends(st, x.exit, st.path, x.jump.cur, [], 0);
    NestShortcut(machine, st, x);
    ShortcutIsSane(machine, init, st, next);
    forall e, rest | Danger(machine, st, e, rest) ensures Threatened(machine, [next]) {
      GoesOn(machine, st, next, e, rest);
      OneThreatened(machine, next, e, rest);
    }
  }

  /* ---- accelerated execution ---- */

  /** The state is given up, or reported as failed, which is right: it is exact and some run fails. */
  ghost predicate Marked(machine: Machine, st: SymState, successors: seq<SymState>) {
    || successors == [st.(status := UNKNOWN)]
    || (successors == [st.(status := FAILED)] && StatusFits(machine, st.(status := FAILED)))
  }

  ghost predicate NeverGivesUp(step: Stepper) {
    forall st: SymState, k | st.status.RUNNING? && 0 <= k < |step(st)| :: !step(st)[k].status.UNKNOWN?
  }

  /** The successors of some acceleration of the state. */
  ghost predicate Accelerated(machine: Machine, st: SymState, successors: seq<SymState>) {
    || (exists phi :: PhiDone(machine, st, phi) && successors == PhiStates(st, phi))
    || (exists x :: OracleDone(machine, st, x) && successors == [OracleState(st, x)])
    || (exists x :: NestDone(machine, st, x) && successors == [NestState(st, x)])
  }

  /** Every running state is executed by its instruction, accelerated, given up, or rightly reported as
      failed. */
  ghost predicate Accelerates(step: Stepper, program: I.Program, base: Env) {
    forall st: SymState | st.status.RUNNING? ::
      || step(st) == I.Step(program, st)
      || Accelerated(I.MachineOf(program, base), st, step(st))
      || Marked(I.MachineOf(program, base), st, step(st))
  }

  lemma AcceleratedFollows(machine: Machine, init: SymState, st: SymState, successors: seq<SymState>)
    requires Sane(machine, init, st) && Accelerated(machine, st, successors)
    ensures I.Follows(machine, init, st, successors)
  {
    hide Sane, I.Follows, PhiStates, OracleState, NestState;
    if phi :| PhiDone(machine, st, phi) && successors == PhiStates(st, phi) {
      PhiFollows(machine, init, st, phi);
    } else if x :| OracleDone(machine, st, x) && successors == [OracleState(st, x)] {
      OracleFollows(machine, init, st, x);
    } else {
      var x :| NestDone(machine, st, x) && successors == [NestState(st, x)];
      NestFollows(machine, init, st, x);
    }
  }

  lemma AcceleratedPrecise(machine: Machine, st: SymState, successors: seq<SymState>)
    requires Accelerated(machine, st, successors) && st.status.RUNNING? && Precise(st)
    ensures forall k | 0 <= k < |successors| :: Precise(successors[k])
  {
    hide PhiDone, OracleDone, NestDone, NamesIn, NamesInAll;
  }

  lemma MarkedFollows(machine: Machine, init: SymState, st: SymState, successors: seq<SymState>)
    requires Sane(machine, init, st) && st.status.RUNNING? && Marked(machine, st, successors)
    ensures I.Follows(machine, init, st, successors)
  {
    hide StatusFits, Witnessed, I.Follows;
    assert Scoped(st.(status := UNKNOWN)) && Scoped(st.(status := FAILED));
    assert StatusFits(machine, successors[0]) by { UnknownFits(machine, st); }
    I.Examined(machine, init, st, successors[0]);
  }

  lemma UnknownFits(machine: Machine, st: SymState)
    ensures StatusFits(machine, st.(status := UNKNOWN))
  {
  }

  /** Execution that accelerates loops and nests on the way meets what the worklist asks of it. */
  lemma AcceleratedExecutes(step: Stepper, program: I.Program, base: Env, init: SymState)
    requires I.WellFormed(program, |init.memory|) && Accelerates(step, program, base)
    ensures Executes(step, I.MachineOf(program, base), init)
    ensures NeverGivesUp(step) ==> StaysPrecise(step)
  {
    hide Sane, I.Follows, I.WellFormed, I.Step, Accelerated, Precise, Marked;
    var machine := I.MachineOf(program, base);
    forall st: SymState | st.status.RUNNING? && Sane(machine, init, st) ensures I.Follows(machine, init, st, step(st)) {
      if step(st) == I.Step(program, st) { I.StepFollows(program, base, init, st); }
      else if Accelerated(machine, st, step(st)) { AcceleratedFollows(machine, init, st, step(st)); }
      else { MarkedFollows(machine, init, st, step(st)); }
    }
    I.FollowsMeans(step, machine, init);
    I.StepStaysPrecise(program);
    forall st: SymState, k | st.status.RUNNING? && Precise(st) && 0 <= k < |step(st)| ensures Precise(step(st)[k]) {
      if step(st) == I.Step(program, st) { assert I.StepperOf(program)(st) == step(st); }
      else if Accelerated(machine, st, step(st)) { AcceleratedPrecise(machine, st, step(st)); }
      else { MarkedPrecise(machine, st, step(st)); }
    }
  }

  lemma MarkedPrecise(machine: Machine, st: SymState, successors: seq<SymState>)
    requires Marked(machine, st, successors) && Precise(st)
    ensures forall k | 0 <= k < |successors| :: Precise(successors[k])
  {
    hide StatusFits;
  }

  /** The engine on a program whose loops are accelerated: the verdict is about the program's own runs,
      and there is one exactly if the worklist returns. */
  method VerifyAccelerated(step: Stepper, program: I.Program, constraint: Term, memory: seq<Term>, names: nat,
                           solver: Solver, eval: Evaluator, ghost base: Env, budget: nat)
    returns (verdict: Option<VeriResult>, ending: Ending)
    requires I.WellFormed(program, |memory|) && Accelerates(step, program, base) && Sound(solver) && Evaluates(eval)
    requires Below(constraint, names) && forall i | 0 <= i < |memory| :: Below(memory[i], names)
    ensures
      var start := [I.InitialState(constraint, memory, names)];
      && ending == EndingOf(start, step, solver, budget) && (verdict.Some? <==> ending.Returned?)
      && (verdict.Some? ==> verdict.value == VerdictOf(ResultsOf(start, step, solver, budget)))
    ensures verdict == Some(HOLD) ==> !I.SomeFails(I.MachineOf(program, base), constraint, memory)
    ensures verdict == Some(FAIL) ==> I.SomeFails(I.MachineOf(program, base), constraint, memory)
    ensures verdict.Some? && Decides(solver) && NeverGivesUp(step) ==>
      verdict.value == if I.SomeFails(I.MachineOf(program, base), constraint, memory) then FAIL else HOLD
  {
    hide Executes, Sound, Evaluates, Decides, StaysPrecise, CanFail, Below, Accelerates, NeverGivesUp, EndingOf,
        ResultsOf,
         VerdictOf, I.SomeFails;
    AcceleratedExecutes(step, program, base, I.InitialState(constraint, memory, names));
    verdict, ending := I.RunEngine(step, I.MachineOf(program, base), constraint, memory, names, solver, eval, budget);
  }
}
