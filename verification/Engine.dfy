/** The symbolic-execution worklist and its verdict, over programs that read their inputs from a tape. */
module Engine {
  import opened Terms
  import opened Wrappers

  /* ---- concrete programs ---- */

  datatype Config = Config(pc: nat, memory: seq<int>, tape: seq<int>)

  /** One concrete step: on to another configuration, a violated assertion or error call, or the
      end of the run (a return, a failed assumption, an undefined condition, no input left). */
  datatype Outcome = Go(next: Config) | Violates | Stops

  type Machine = Config -> Outcome

  function After(machine: Machine, c: Config, n: nat): Outcome
    decreases n
  {
    if n == 0 then Go(c)
    else match machine(c)
      case Go(next) => After(machine, next, n - 1)
      case Violates => Violates
      case Stops => Stops
  }

  ghost predicate CanFail(machine: Machine, c: Config) {
    exists n: nat :: After(machine, c, n) == Violates
  }

  lemma {:induction false} AfterAfter(machine: Machine, c: Config, n: nat, d: Config, k: nat)
    requires After(machine, c, n) == Go(d)
    ensures After(machine, c, n + k) == After(machine, d, k)
    decreases n
  {
    if n > 0 { AfterAfter(machine, machine(c).next, n - 1, d, k); }
  }

  /** A run that can fail fails now or in its next configuration. */
  lemma FailsNext(machine: Machine, c: Config)
    ensures CanFail(machine, c) <==> machine(c).Violates? || (machine(c).Go? && CanFail(machine, machine(c).next))
  {
    if n: nat :| After(machine, c, n) == Violates {
      if machine(c).Go? { assert After(machine, machine(c).next, n - 1) == Violates; }
    }
    if machine(c).Violates? { assert After(machine, c, 1) == Violates; }
    if machine(c).Go? && CanFail(machine, machine(c).next) {
      var n: nat :| After(machine, machine(c).next, n) == Violates;
      assert After(machine, c, n + 1) == Violates;
    }
  }

  /* ---- symbolic states ---- */

  datatype Status = RUNNING | TERMINATED | VERIFYING | TESTING | REACH_ERROR | UNKNOWN | FAILED

  /** A condition with its definedness. */
  datatype Claim = Claim(defined: Term, holds: Term)

  /** Recorded inputs: one call, or a call repeated a symbolic number of times. */
  datatype NondetCall = Single(value: Term) | Many(element: Term, index: nat, count: Term)

  datatype SymState = SymState(
    status: Status, pc: nat, prev: nat, path: Term, memory: seq<Term>, claim: Claim,
    calls: seq<NondetCall>, overApprox: bool, complete: bool, names: nat)

  ghost function CallInputs(call: NondetCall, e: Env): seq<int> {
    match call
    case Single(value) => [Eval(value, e)]
    case Many(element, index, count) =>
      var n := Eval(count, e);
      seq(if n < 0 then 0 else n, i requires i >= 0 => Eval(element, Set(e, index, i)))
  }

  /** The inputs that the recorded calls stand for, in execution order. */
  ghost function Tape(calls: seq<NondetCall>, e: Env): seq<int> {
    if calls == [] then [] else Tape(calls[..|calls| - 1], e) + CallInputs(calls[|calls| - 1], e)
  }

  lemma TapeSnoc(calls: seq<NondetCall>, call: NondetCall, e: Env)
    ensures Tape(calls + [call], e) == Tape(calls, e) + CallInputs(call, e)
  {
    assert (calls + [call])[..|calls|] == calls;
  }

  /** A state about to check an assertion has already moved past it; the run has not. */
  function Location(st: SymState): nat {
    if st.status.VERIFYING? then st.prev else st.pc
  }

  ghost function Standing(st: SymState, e: Env, rest: seq<int>): Config {
    Config(Location(st), EvalAll(st.memory, e), rest)
  }

  ghost predicate Danger(machine: Machine, st: SymState, e: Env, rest: seq<int>) {
    Holds(st.path, e) && CanFail(machine, Standing(st, e, rest))
  }

  /** Some run through one of the states can still fail. */
  ghost predicate Threatened(machine: Machine, states: seq<SymState>) {
    exists k, e, rest :: 0 <= k < |states| && Danger(machine, states[k], e, rest)
  }

  /** Every environment of the state's path is the end of a run from the initial state that reads
      exactly the recorded inputs. */
  ghost predicate Witnessed(machine: Machine, init: SymState, st: SymState) {
    forall e, rest | Holds(st.path, e) :: WitnessedAt(machine, init, st, e, rest)
  }

  ghost predicate WitnessedAt(machine: Machine, init: SymState, st: SymState, e: Env, rest: seq<int>) {
    && Holds(init.path, e)
    && exists n: nat :: After(machine, Standing(init, e, Tape(st.calls, e) + rest), n) == Go(Standing(st, e, rest))
  }

  ghost predicate Pending(machine: Machine, st: SymState) {
    forall e, rest | Holds(st.path, e) ::
      machine(Standing(st, e, rest)) ==
        if !Holds(st.claim.defined, e) then Stops
        else if !Holds(st.claim.holds, e) then Violates
        else Go(Config(st.pc, EvalAll(st.memory, e), rest))
  }

  /** What the status of a state promises about the runs through it. */
  ghost predicate StatusFits(machine: Machine, st: SymState) {
    match st.status
    case TERMINATED => forall e, rest | Holds(st.path, e) :: !CanFail(machine, Standing(st, e, rest))
    case VERIFYING => Pending(machine, st)
    case REACH_ERROR => forall e, rest | Holds(st.path, e) :: machine(Standing(st, e, rest)) == Violates
    case FAILED => !st.overApprox && exists e, rest :: Danger(machine, st, e, rest)
    case _ => true
  }

  predicate Precise(st: SymState) { !st.overApprox && st.complete }

  /** Only variables below the state's counter of fresh names occur in it. */
  ghost predicate Scoped(st: SymState) {
    && Below(st.path, st.names) && Below(st.claim.defined, st.names) && Below(st.claim.holds, st.names)
    && (forall i | 0 <= i < |st.memory| :: Below(st.memory[i], st.names))
    && (forall i | 0 <= i < |st.calls| :: CallBelow(st.calls[i], st.names))
  }

  ghost predicate Below(t: Term, names: nat) { forall id: nat :: Occurs(id, t) ==> id < names }

  ghost predicate CallBelow(call: NondetCall, names: nat) {
    match call
    case Single(value) => Below(value, names)
    case Many(element, index, count) => Below(count, names) && forall id: nat :: Occurs(id, element) && id != index ==>
        id < names
  }

  ghost predicate Sane(machine: Machine, init: SymState, st: SymState) {
    && Scoped(st) && StatusFits(machine, st) && init.names <= st.names && |st.memory| == |init.memory|
    && (Precise(st) ==> Witnessed(machine, init, st))
  }

  /* ---- what is asked of instruction execution ---- */

  type Stepper = SymState -> seq<SymState>

  /** Executing a running state loses no failing run, and precise successors stay witnessed. */
  ghost predicate Executes(step: Stepper, machine: Machine, init: SymState) {
    forall st: SymState | st.status.RUNNING? && Sane(machine, init, st) ::
      && (forall k | 0 <= k < |step(st)| :: Sane(machine, init, step(st)[k]))
      && (forall e, rest | Danger(machine, st, e, rest) :: Threatened(machine, step(st)))
  }

  /* ---- captured counterexamples ---- */

  const MAX_I64: int := 0x7fff_ffff_ffff_ffff

  /** The inputs written down for a call: a repetition whose count is not a nonnegative 64-bit
      number is skipped. */
  ghost function CapturedCall(call: NondetCall, e: Env): seq<int> {
    if call.Many? && !(0 <= Eval(call.count, e) <= MAX_I64) then [] else CallInputs(call, e)
  }

  ghost function Captured(calls: seq<NondetCall>, e: Env): seq<int> {
    if calls == [] then [] else Captured(calls[..|calls| - 1], e) + CapturedCall(calls[|calls| - 1], e)
  }

  ghost predicate CountsFit(calls: seq<NondetCall>, e: Env) {
    forall i | 0 <= i < |calls| && calls[i].Many? :: Eval(calls[i].count, e) <= MAX_I64
  }

  /** The inputs written down are the inputs of the run if and only if every repetition count is a
      64-bit number. */
  lemma {:induction false} CapturedIsTape(calls: seq<NondetCall>, e: Env)
    ensures |Captured(calls, e)| <= |Tape(calls, e)|
    ensures Captured(calls, e) == Tape(calls, e) <==> CountsFit(calls, e)
  {
    hide Eval;
    if calls != [] {
      var front, last := calls[..|calls| - 1], calls[|calls| - 1];
      CapturedIsTape(front, e);
      assert |CapturedCall(last, e)| <= |CallInputs(last, e)|;
      assert forall i | 0 <= i < |front| :: calls[i] == front[i];
      if Captured(calls, e) == Tape(calls, e) {
        assert |Captured(front, e)| == |Tape(front, e)|;
        assert Captured(front, e) == Captured(calls, e)[..|Captured(front, e)|];
        assert Tape(front, e) == Tape(calls, e)[..|Tape(front, e)|];
        assert |CapturedCall(last, e)| == |CallInputs(last, e)|;
      }
    }
  }

  /** The failing input: of a call repeated 2^63 times nothing is written down. */
  lemma HugeCountSkipped(value: int, index: nat, e: Env)
    ensures
      var calls := [Many(Num(value), index, Num(0x8000_0000_0000_0000))];
      && Captured(calls, e) == [] && |Tape(calls, e)| == 0x8000_0000_0000_0000
      && (forall v | v in Tape(calls, e) :: v == value)
      && !CountsFit(calls, e) && CountsFit([Many(Num(value), index, Num(0x7fff_ffff_ffff_ffff))], e)
  {
    OneCall(Many(Num(value), index, Num(0x8000_0000_0000_0000)), e);
    CapturedIsTape([Many(Num(value), index, Num(0x8000_0000_0000_0000))], e);
  }

  lemma OneCall(call: NondetCall, e: Env)
    ensures Tape([call], e) == CallInputs(call, e) && Captured([call], e) == CapturedCall(call, e)
  {
    hide CallInputs, CapturedCall;
    assert [call][..0] == [];
  }

  /* ---- the engine ---- */

  datatype VeriResult = HOLD | FAIL | VERIUNKNOWN
  datatype TestResult = FEASIBLE(model: Env) | UNFEASIBLE | TESTUNKNOWN
  datatype Issue = Z3Unknown | OverApproximation | IncompleteCounterexample | UnknownState

  /** How a run of the worklist ends: it may also fail its internal assertion, or be cut off. */
  datatype Ending = Returned | Aborted | CutOff

  ghost predicate AllHold(results: seq<VeriResult>) { forall i | 0 <= i < |results| :: results[i] == HOLD }

  ghost predicate NoneFails(results: seq<VeriResult>) { forall i | 0 <= i < |results| :: results[i] != FAIL }

  /** Some initial configuration fails. */
  ghost predicate Refuted(machine: Machine, init: SymState) {
    exists e, tape :: Holds(init.path, e) && CanFail(machine, Standing(init, e, tape))
  }

  /** The run that reads the inputs of the calls violates at the location. */
  ghost predicate ViolatesAt(machine: Machine, init: SymState, e: Env, tape: seq<int>, location: nat) {
    && Holds(init.path, e)
    && exists n: nat, c :: After(machine, Standing(init, e, tape), n) == Go(c) && c.pc == location
        && machine(c) == Violates
  }

  lemma ViolationRefutes(machine: Machine, init: SymState, e: Env, tape: seq<int>, location: nat)
    requires ViolatesAt(machine, init, e, tape, location)
    ensures Refuted(machine, init)
  {
    var n: nat, c :| After(machine, Standing(init, e, tape), n) == Go(c) && c.pc == location && machine(c) == Violates;
    AfterAfter(machine, Standing(init, e, tape), n, c, 1);
    assert After(machine, c, 1) == Violates;
    assert CanFail(machine, Standing(init, e, tape));
  }

  /** A sane precise state whose run violates right now, with the model at hand. */
  lemma WitnessViolates(machine: Machine, init: SymState, st: SymState, e: Env)
    requires Sane(machine, init, st) && Precise(st) && Holds(st.path, e) && machine(Standing(st, e, [])) == Violates
    ensures ViolatesAt(machine, init, e, Tape(st.calls, e), Location(st))
  {
    hide StatusFits, Scoped, Eval, Tape;
    assert Tape(st.calls, e) + [] == Tape(st.calls, e);
    assert WitnessedAt(machine, init, st, e, []);
    var n: nat :| After(machine, Standing(init, e, Tape(st.calls, e) + []), n) == Go(Standing(st, e, []));
  }

  lemma SummaryRefutes(machine: Machine, init: SymState, st: SymState)
    requires Sane(machine, init, st) && st.status.FAILED? && st.complete
    ensures Refuted(machine, init)
  {
    hide Scoped, Eval, Tape, Below;
    var e, rest :| Danger(machine, st, e, rest);
    assert WitnessedAt(machine, init, st, e, rest);
    var n: nat :| After(machine, Standing(init, e, Tape(st.calls, e) + rest), n) == Go(Standing(st, e, rest));
    var k: nat :| After(machine, Standing(st, e, rest), k) == Violates;
    AfterAfter(machine, Standing(init, e, Tape(st.calls, e) + rest), n, Standing(st, e, rest), k);
    assert CanFail(machine, Standing(init, e, Tape(st.calls, e) + rest));
  }

  /** append_path_condition: the assertion and its definedness join the path. */
  function PathWith(path: Term, claim: Claim): Term {
    Conj(Conj(path, claim.defined), claim.holds)
  }

  function Verified(st: SymState): SymState {
    st.(path := PathWith(st.path, st.claim), status := RUNNING)
  }

  lemma PathWithBelow(path: Term, claim: Claim, names: nat)
    requires Below(path, names) && Below(claim.defined, names) && Below(claim.holds, names)
    ensures Below(PathWith(path, claim), names)
  {
    BinaryBelow(And, path, claim.defined, names);
    BinaryBelow(And, Conj(path, claim.defined), claim.holds, names);
  }

  lemma BinaryBelow(op: Op, a: Term, b: Term, names: nat)
    requires Below(a, names) && Below(b, names)
    ensures Below(App(op, [a, b]), names)
  {
    var args := [a, b];
    forall id: nat | Occurs(id, App(op, args)) ensures id < names {
      var i :| 0 <= i < |args| && Occurs(id, args[i]);
      assert args[i] == a || args[i] == b;
    }
  }

  /** Past an assertion that holds, every run goes on from the state that assumes it. */
  lemma VerifiedContinues(machine: Machine, init: SymState, st: SymState)
    requires Sane(machine, init, st) && st.status.VERIFYING?
    ensures Sane(machine, init, Verified(st))
    ensures forall e, rest | Danger(machine, st, e, rest)
        && !(Holds(st.claim.defined, e) && !Holds(st.claim.holds, e)) ::
      Danger(machine, Verified(st), e, rest)
  {
    hide Eval, Below, CanFail;
    PathWithBelow(st.path, st.claim, st.names);
    var st' := Verified(st);
    forall e, rest | Danger(machine, st, e, rest) && !(Holds(st.claim.defined, e) && !Holds(st.claim.holds, e))
      ensures Danger(machine, st', e, rest)
    {
      FailsNext(machine, Standing(st, e, rest));
    }
    if Precise(st) {
      forall e, rest | Holds(st'.path, e)
        ensures WitnessedAt(machine, init, st', e, rest)
      {
        assert WitnessedAt(machine, init, st, e, rest);
        var c := Standing(init, e, Tape(st.calls, e) + rest);
        var n: nat :| After(machine, c, n) == Go(Standing(st, e, rest));
        AfterAfter(machine, c, n, Standing(st, e, rest), 1);
        assert After(machine, Standing(st, e, rest), 1) == Go(Standing(st', e, rest));
        assert After(machine, c, n + 1) == Go(Standing(st', e, rest));
      }
    }
  }

  lemma TestedIsSane(machine: Machine, init: SymState, st: SymState)
    requires Sane(machine, init, st) && st.status.TESTING?
    ensures Sane(machine, init, st.(status := RUNNING))
    ensures forall e, rest :: Danger(machine, st, e, rest) <==> Danger(machine, st.(status := RUNNING), e, rest)
  {
    hide Eval, Below, CanFail;
    var st' := st.(status := RUNNING);
    assert forall e, rest :: Standing(st', e, rest) == Standing(st, e, rest);
    if Precise(st) {
      forall e, rest | Holds(st'.path, e)
        ensures WitnessedAt(machine, init, st', e, rest)
      {
        assert WitnessedAt(machine, init, st, e, rest);
        var n: nat :| After(machine, Standing(init, e, Tape(st.calls, e) + rest), n) == Go(Standing(st, e, rest));
        assert After(machine, Standing(init, e, Tape(st'.calls, e) + rest), n) == Go(Standing(st', e, rest));
      }
    }
  }

  datatype Turned = Onward | Over | Stuck

  ghost predicate Decisive(results: seq<VeriResult>) { forall i | 0 <= i < |results| :: results[i] != VERIUNKNOWN }

  /** Precise states have only precise successors, none of them given up. */
  ghost predicate StaysPrecise(step: Stepper) {
    forall st: SymState, k | st.status.RUNNING? && Precise(st) && 0 <= k < |step(st)| ::
      Precise(step(st)[k]) && !step(st)[k].status.UNKNOWN?
  }

  /** A popped state through which no run fails can be dropped. */
  lemma NothingThere(machine: Machine, init: SymState, states: seq<SymState>, top: SymState)
    requires Sane(machine, init, top) && (top.status.TERMINATED? || forall e :: !Holds(top.path, e))
    ensures Threatened(machine, states + [top]) ==> Threatened(machine, states)
  {
    hide Eval, Below, CanFail;
    if Threatened(machine, states + [top]) {
      var k, e, rest :| 0 <= k < |states + [top]| && Danger(machine, (states + [top])[k], e, rest);
      assert k < |states| && Danger(machine, states[k], e, rest);
    }
  }

  /** A popped state can be replaced by states that take over its failing runs. */
  lemma Replaced(machine: Machine, states: seq<SymState>, top: SymState, successors: seq<SymState>)
    requires (exists e, rest :: Danger(machine, top, e, rest)) ==> Threatened(machine, successors)
    ensures Threatened(machine, states + [top]) ==> Threatened(machine, states + successors)
  {
    hide Danger;
    if Threatened(machine, states + [top]) {
      var k, e, rest :| 0 <= k < |states + [top]| && Danger(machine, (states + [top])[k], e, rest);
      if k < |states| {
        assert Danger(machine, (states + successors)[k], e, rest);
      } else {
        var j, e', rest' :| 0 <= j < |successors| && Danger(machine, successors[j], e', rest');
        assert Danger(machine, (states + successors)[|states| + j], e', rest');
      }
    }
  }

  lemma HoldsOnward(machine: Machine, init: SymState, st: SymState)
    requires Sane(machine, init, st) && st.status.VERIFYING?
    requires forall e | Holds(st.path, e) && Holds(st.claim.defined, e) :: Holds(st.claim.holds, e)
    ensures (exists e, rest :: Danger(machine, st, e, rest)) ==> Threatened(machine, [Verified(st)])
  {
    VerifiedContinues(machine, init, st);
    if e, rest :| Danger(machine, st, e, rest) {
      OneThreatened(machine, Verified(st), e, rest);
    }
  }

  lemma TestedOnward(machine: Machine, init: SymState, st: SymState)
    requires Sane(machine, init, st) && st.status.TESTING?
    ensures (exists e, rest :: Danger(machine, st, e, rest)) ==> Threatened(machine, [st.(status := RUNNING)])
  {
    TestedIsSane(machine, init, st);
    if e, rest :| Danger(machine, st, e, rest) {
      OneThreatened(machine, st.(status := RUNNING), e, rest);
    }
  }

  lemma Ended(machine: Machine, init: SymState, states: seq<SymState>, top: SymState)
    requires Sane(machine, init, top) && top.status.TERMINATED?
    ensures Threatened(machine, states + [top]) ==> Threatened(machine, states)
  {
    NothingThere(machine, init, states, top);
  }

  lemma Spoilt(results: seq<VeriResult>)
    requires NoneFails(results)
    ensures NoneFails(results + [VERIUNKNOWN]) && !AllHold(results + [VERIUNKNOWN])
  {
    assert (results + [VERIUNKNOWN])[|results|] == VERIUNKNOWN;
  }

  lemma Emptied(machine: Machine)
    ensures !Threatened(machine, [])
  {
  }

  lemma RefutedThreatens(machine: Machine, init: SymState)
    ensures Refuted(machine, init) ==> Threatened(machine, [init])
  {
    if Refuted(machine, init) {
      var e, tape :| Holds(init.path, e) && CanFail(machine, Standing(init, e, tape));
      assert Danger(machine, [init][0], e, tape);
    }
  }

  lemma OneThreatened(machine: Machine, st: SymState, e: Env, rest: seq<int>)
    requires Danger(machine, st, e, rest)
    ensures Threatened(machine, [st])
  {
    assert Danger(machine, [st][0], e, rest);
  }

  lemma Stepped(step: Stepper, machine: Machine, init: SymState, st: SymState)
    requires Executes(step, machine, init) && st.status.RUNNING? && Sane(machine, init, st)
    ensures forall k | 0 <= k < |step(st)| :: Sane(machine, init, step(st)[k])
    ensures (exists e, rest :: Danger(machine, st, e, rest)) ==> Threatened(machine, step(st))
  {
    hide Sane, Danger, Threatened;
  }

  lemma ErrorViolates(machine: Machine, init: SymState, st: SymState, e: Env)
    requires Sane(machine, init, st) && st.status.REACH_ERROR? && Precise(st) && Holds(st.path, e)
    ensures ViolatesAt(machine, init, e, Tape(st.calls, e), st.pc) && Refuted(machine, init)
  {
    hide Eval, Tape, Below, ViolatesAt, Refuted;
    WitnessViolates(machine, init, st, e);
    ViolationRefutes(machine, init, e, Tape(st.calls, e), st.pc);
  }

  /* ---- what the worklist does, as functions of the stack ---- */

  function AssertionQuery(st: SymState): (query: Term)
    ensures forall e ::
      Holds(query, e) <==> Holds(st.path, e) && Holds(st.claim.defined, e) && !Holds(st.claim.holds, e)
  {
    Conj(Conj(st.path, st.claim.defined), Negate(st.claim.holds))
  }

  /** Whether the turn for a state lets the exploration go on. */
  function TurnOf(st: SymState, solver: Solver): Turned {
    match st.status
    case VERIFYING => if solver(AssertionQuery(st)).Sat? && Precise(st) then Over else Onward
    case REACH_ERROR => if solver(st.path).Unsat? then Stuck else Over
    case UNKNOWN => Over
    case FAILED => Over
    case _ => Onward
  }

  /** The results that the turn for a state records. */
  function Recorded(st: SymState, solver: Solver): seq<VeriResult> {
    match st.status
    case VERIFYING =>
      (match solver(AssertionQuery(st))
       case Unsat => [HOLD]
       case Sat(_) => if Precise(st) then [FAIL] else [VERIUNKNOWN]
       case Unknown => [VERIUNKNOWN])
    case REACH_ERROR =>
      (match solver(st.path)
       case Unsat => []
       case Sat(_) => if Precise(st) then [FAIL] else [VERIUNKNOWN]
       case Unknown => [VERIUNKNOWN])
    case TESTING => if solver(st.path).Unknown? then [VERIUNKNOWN] else []
    case UNKNOWN => [VERIUNKNOWN]
    case FAILED => if st.complete then [FAIL] else [VERIUNKNOWN]
    case _ => []
  }

  /** The issue that the turn for a state meets. */
  function IssueOf(st: SymState, solver: Solver): Option<Issue> {
    var imprecise :=
      if st.overApprox then Some(OverApproximation) else if !st.complete then Some(IncompleteCounterexample) else None;
    match st.status
    case VERIFYING =>
      (match solver(AssertionQuery(st))
       case Unsat => None
       case Sat(_) => imprecise
       case Unknown => Some(Z3Unknown))
    case REACH_ERROR =>
      (match solver(st.path)
       case Unsat => None
       case Sat(_) => imprecise
       case Unknown => Some(Z3Unknown))
    case TESTING => if solver(st.path).Unknown? then Some(Z3Unknown) else None
    case UNKNOWN => Some(UnknownState)
    case FAILED => if st.complete then None else Some(IncompleteCounterexample)
    case _ => None
  }

  /** The first issue is kept. */
  function FirstIssue(recorded: bool, kind: Issue, found: Option<Issue>): (bool, Issue) {
    if recorded || found.None? then (recorded, kind) else (true, found.value)
  }

  /** The states that replace a state on the stack, if the exploration goes on. */
  function Successors(st: SymState, step: Stepper, solver: Solver): seq<SymState> {
    match st.status
    case VERIFYING => [Verified(st)]
    case TESTING => if solver(st.path).Sat? then [st.(status := RUNNING)] else []
    case RUNNING => step(st)
    case _ => []
  }

  /** The turn of every kind of state, answer by answer: does the exploration go on, what is recorded, and
      what replaces the state. An assertion that the solver gives no answer about, or that may fail on an
      imprecise path, is recorded and assumed; only an unknown or imprecise error call ends the exploration. */
  lemma TurnTable(st: SymState, step: Stepper, solver: Solver)
    ensures
      var turn, recorded, next := TurnOf(st, solver), Recorded(st, solver), Successors(st, step, solver);
      var exact := !st.overApprox && st.complete;
      && (IssueOf(st, solver) == None <==> VERIUNKNOWN !in recorded)
      && (IssueOf(st, solver) == Some(UnknownState) <==> st.status == UNKNOWN)
      && (IssueOf(st, solver) == Some(Z3Unknown) <==>
            || (st.status == VERIFYING && solver(AssertionQuery(st)).Unknown?)
            || ((st.status == REACH_ERROR || st.status == TESTING) && solver(st.path).Unknown?))
      && (IssueOf(st, solver) == Some(OverApproximation) ==> st.overApprox)
      && (IssueOf(st, solver) == Some(IncompleteCounterexample) ==>
          !st.complete && (st.overApprox ==> st.status == FAILED))
      && (st.status == RUNNING ==> turn == Onward && recorded == [] && next == step(st))
      && (st.status == TERMINATED ==> turn == Onward && recorded == [] && next == [])
      && (st.status == UNKNOWN ==> turn == Over && recorded == [VERIUNKNOWN])
      && (st.status == FAILED ==> turn == Over && recorded == if st.complete then [FAIL] else [VERIUNKNOWN])
      && (st.status == VERIFYING ==>
            var answer := solver(AssertionQuery(st));
            var assumed := st.(path := Conj(Conj(st.path, st.claim.defined), st.claim.holds), status := RUNNING);
            if answer.Unsat? then turn == Onward && recorded == [HOLD] && next == [assumed]
            else if answer.Sat? && exact then turn == Over && recorded == [FAIL]
            else turn == Onward && recorded == [VERIUNKNOWN] && next == [assumed])
      && (st.status == REACH_ERROR ==>
            var answer := solver(st.path);
            if answer.Unsat? then turn == Stuck && recorded == []
            else turn == Over && recorded == if answer.Sat? && exact then [FAIL] else [VERIUNKNOWN])
      && (st.status == TESTING ==>
            var answer := solver(st.path);
            && turn == Onward && recorded == (if answer.Unknown? then [VERIUNKNOWN] else [])
            && next == if answer.Sat? then [st.(status := RUNNING)] else [])
  {
  }

  function NextStack(stack: seq<SymState>, step: Stepper, solver: Solver): seq<SymState>
    requires stack != []
  {
    stack[..|stack| - 1] + Successors(stack[|stack| - 1], step, solver)
  }

  /** The stack after n turns that all let the exploration go on. */
  function StackAfter(stack: seq<SymState>, step: Stepper, solver: Solver, n: nat): Option<seq<SymState>> {
    if n == 0 then Some(stack)
    else match StackAfter(stack, step, solver, n - 1)
      case None => None
      case Some(now) =>
        if now != [] && TurnOf(now[|now| - 1], solver).Onward? then Some(NextStack(now, step, solver)) else None
  }

  /** How a run of the worklist ends. */
  function EndingOf(stack: seq<SymState>, step: Stepper, solver: Solver, budget: nat): Ending
    decreases budget
  {
    if stack == [] then Returned
    else if budget == 0 then CutOff
    else match TurnOf(stack[|stack| - 1], solver)
      case Onward => EndingOf(NextStack(stack, step, solver), step, solver, budget - 1)
      case Over => Returned
      case Stuck => Aborted
  }

  /** The results it records. */
  function ResultsOf(stack: seq<SymState>, step: Stepper, solver: Solver, budget: nat): seq<VeriResult>
    decreases budget
  {
    if stack == [] || budget == 0 then []
    else
      var top := stack[|stack| - 1];
      Recorded(top, solver)
      + if TurnOf(top, solver).Onward? then ResultsOf(NextStack(stack, step, solver), step, solver, budget - 1) else []
  }

  lemma NextTurn(stack: seq<SymState>, step: Stepper, solver: Solver, budget: nat)
    ensures stack == [] ==>
      EndingOf(stack, step, solver, budget) == Returned && ResultsOf(stack, step, solver, budget) == []
    ensures stack != [] && budget == 0 ==>
      EndingOf(stack, step, solver, budget) == CutOff && ResultsOf(stack, step, solver, budget) == []
    ensures stack != [] && budget > 0 ==>
      var top := stack[|stack| - 1];
      var turn, next := TurnOf(top, solver), NextStack(stack, step, solver);
      && (turn.Over? ==> EndingOf(stack, step, solver, budget) == Returned)
      && (turn.Stuck? ==> EndingOf(stack, step, solver, budget) == Aborted)
      && (turn.Onward? ==>
          EndingOf(stack, step, solver, budget) == EndingOf(next, step, solver, budget - 1)
          && ResultsOf(stack, step, solver, budget) ==
              Recorded(top, solver) + ResultsOf(next, step, solver, budget - 1))
      && (!turn.Onward? ==> ResultsOf(stack, step, solver, budget) == Recorded(top, solver))
  {
    hide TurnOf, NextStack, Recorded;
  }

  /** After n turns a state is on top of the stack. */
  ghost predicate OnTop(stack: seq<SymState>, step: Stepper, solver: Solver, n: nat, top: SymState) {
    var now := StackAfter(stack, step, solver, n);
    now.Some? && now.value != [] && now.value[|now.value| - 1] == top
  }

  /** An error state whose path the solver refutes. */
  predicate InfeasibleError(st: SymState, solver: Solver) { st.status.REACH_ERROR? && solver(st.path).Unsat? }

  lemma {:induction false} StackShift(stack: seq<SymState>, step: Stepper, solver: Solver, n: nat)
    requires stack != [] && TurnOf(stack[|stack| - 1], solver).Onward?
    ensures StackAfter(stack, step, solver, n + 1) == StackAfter(NextStack(stack, step, solver), step, solver, n)
  {
    hide TurnOf, NextStack;
    if n > 0 { StackShift(stack, step, solver, n - 1); }
    else { assert StackAfter(stack, step, solver, 0) == Some(stack); }
  }

  /** The worklist is aborted if and only if an infeasible error state comes on top within the budget,
      and cut off if and only if all turns of the budget go on and leave something on the stack. */
  lemma {:induction false} EndsExactly(stack: seq<SymState>, step: Stepper, solver: Solver, budget: nat)
    ensures EndingOf(stack, step, solver, budget) == Aborted <==>
      exists n: nat, top :: n < budget && OnTop(stack, step, solver, n, top) && InfeasibleError(top, solver)
    ensures EndingOf(stack, step, solver, budget) == CutOff <==>
      StackAfter(stack, step, solver, budget).Some? && StackAfter(stack, step, solver, budget).value != []
    decreases budget
  {
    hide NextStack, Successors, AssertionQuery;
    if stack == [] {
      EmptyStays(step, solver, budget);
      forall n: nat, top ensures !OnTop(stack, step, solver, n, top) { EmptyStays(step, solver, n); }
    } else if budget > 0 {
      var top := stack[|stack| - 1];
      assert OnTop(stack, step, solver, 0, top);
      if TurnOf(top, solver).Onward? {
        var next := NextStack(stack, step, solver);
        EndsExactly(next, step, solver, budget - 1);
        StackShift(stack, step, solver, budget - 1);
        forall n: nat, t ensures OnTop(stack, step, solver, n + 1, t) <==> OnTop(next, step, solver, n, t) {
          StackShift(stack, step, solver, n);
        }
        if n: nat, t :| n < budget && OnTop(stack, step, solver, n, t) && InfeasibleError(t, solver) {
          assert n > 0 && OnTop(next, step, solver, n - 1, t);
        }
        if n: nat, t :| n < budget - 1 && OnTop(next, step, solver, n, t) && InfeasibleError(t, solver) {
          assert OnTop(stack, step, solver, n + 1, t);
        }
      } else {
        forall n: nat | n > 0 ensures StackAfter(stack, step, solver, n).None? { HaltsAtOnce(stack, step, solver, n); }
        forall n: nat, t | OnTop(stack, step, solver, n, t) ensures t == top { }
      }
    }
  }

  lemma {:induction false} HaltsAtOnce(stack: seq<SymState>, step: Stepper, solver: Solver, n: nat)
    requires n > 0 && (stack == [] || !TurnOf(stack[|stack| - 1], solver).Onward?)
    ensures StackAfter(stack, step, solver, n).None?
  {
    hide TurnOf, NextStack;
    if n > 1 { HaltsAtOnce(stack, step, solver, n - 1); }
    else { assert StackAfter(stack, step, solver, 0) == Some(stack); }
  }

  lemma EmptyStays(step: Stepper, solver: Solver, n: nat)
    ensures StackAfter([], step, solver, n) == if n == 0 then Some([]) else None
  {
    if n > 0 { HaltsAtOnce([], step, solver, n); }
  }

  /** A larger budget changes nothing once the worklist has come to an end. */
  lemma {:induction false} EndingStays(stack: seq<SymState>, step: Stepper, solver: Solver, budget: nat, larger: nat)
    requires budget <= larger && EndingOf(stack, step, solver, budget) != CutOff
    ensures EndingOf(stack, step, solver, larger) == EndingOf(stack, step, solver, budget)
    ensures ResultsOf(stack, step, solver, larger) == ResultsOf(stack, step, solver, budget)
    decreases budget
  {
    hide NextStack, TurnOf, Recorded;
    if stack != [] && budget > 0 && TurnOf(stack[|stack| - 1], solver).Onward? {
      EndingStays(NextStack(stack, step, solver), step, solver, budget - 1, larger - 1);
    }
  }

  /** The turn of this state finds a failure. */
  ghost predicate Reports(st: SymState, solver: Solver) {
    || (st.status == VERIFYING && solver(AssertionQuery(st)).Sat? && !st.overApprox && st.complete)
    || (st.status == REACH_ERROR && solver(st.path).Sat? && !st.overApprox && st.complete)
    || (st.status == FAILED && st.complete)
  }

  /** Some turn within the budget finds a failure. */
  ghost predicate ReportedWithin(stack: seq<SymState>, step: Stepper, solver: Solver, budget: nat) {
    exists n: nat, top :: n < budget && OnTop(stack, step, solver, n, top) && Reports(top, solver)
  }

  /** A failure is recorded if and only if some turn within the budget finds one, whatever was recorded
      before it, and then the worklist returns. */
  lemma {:induction false} FailsExactly(stack: seq<SymState>, step: Stepper, solver: Solver, budget: nat)
    ensures !NoneFails(ResultsOf(stack, step, solver, budget)) <==> ReportedWithin(stack, step, solver, budget)
    ensures ReportedWithin(stack, step, solver, budget) ==> EndingOf(stack, step, solver, budget) == Returned
    decreases budget
  {
    hide NextStack, TurnOf, Recorded, ReportedWithin, Reports;
    NextTurn(stack, step, solver, budget);
    if stack == [] || budget == 0 {
      NoneReported(stack, step, solver, budget);
    } else {
      var top := stack[|stack| - 1];
      TopReports(top, solver);
      if TurnOf(top, solver).Onward? {
        var next := NextStack(stack, step, solver);
        FailsExactly(next, step, solver, budget - 1);
        ReportedOnward(stack, step, solver, budget);
        EitherFails(Recorded(top, solver), ResultsOf(next, step, solver, budget - 1));
      } else {
        ReportedAtOnce(stack, step, solver, budget);
      }
    }
  }

  lemma NoneReported(stack: seq<SymState>, step: Stepper, solver: Solver, budget: nat)
    requires stack == [] || budget == 0
    ensures !ReportedWithin(stack, step, solver, budget)
  {
    if stack == [] {
      forall n: nat, top ensures !OnTop(stack, step, solver, n, top) { EmptyStays(step, solver, n); }
    }
  }

  lemma TopReports(top: SymState, solver: Solver)
    ensures !NoneFails(Recorded(top, solver)) <==> Reports(top, solver)
    ensures Reports(top, solver) ==> TurnOf(top, solver).Over?
  {
    if Reports(top, solver) { assert Recorded(top, solver)[0] == FAIL; }
  }

  lemma EitherFails(a: seq<VeriResult>, b: seq<VeriResult>)
    ensures NoneFails(a + b) <==> NoneFails(a) && NoneFails(b)
  {
    if NoneFails(a + b) {
      forall i | 0 <= i < |a| ensures a[i] != FAIL { assert (a + b)[i] == a[i]; }
      forall i | 0 <= i < |b| ensures b[i] != FAIL { assert (a + b)[|a| + i] == b[i]; }
    }
  }

  lemma ReportedOnward(stack: seq<SymState>, step: Stepper, solver: Solver, budget: nat)
    requires stack != [] && budget > 0 && TurnOf(stack[|stack| - 1], solver).Onward?
    ensures ReportedWithin(stack, step, solver, budget) <==>
      ReportedWithin(NextStack(stack, step, solver), step, solver, budget - 1)
  {
    var top, next := stack[|stack| - 1], NextStack(stack, step, solver);
    TopReports(top, solver);
    hide NextStack, Recorded, TurnOf, Reports;
    assert forall t | OnTop(stack, step, solver, 0, t) :: t == top;
    forall n: nat, t ensures OnTop(stack, step, solver, n + 1, t) <==> OnTop(next, step, solver, n, t) {
      StackShift(stack, step, solver, n);
    }
    if n: nat, t :| n < budget && OnTop(stack, step, solver, n, t) && Reports(t, solver) {
      assert n > 0 && OnTop(next, step, solver, n - 1, t);
    }
    if n: nat, t :| n < budget - 1 && OnTop(next, step, solver, n, t) && Reports(t, solver) {
      assert OnTop(stack, step, solver, n + 1, t);
    }
  }

  lemma ReportedAtOnce(stack: seq<SymState>, step: Stepper, solver: Solver, budget: nat)
    requires stack != [] && budget > 0 && !TurnOf(stack[|stack| - 1], solver).Onward?
    ensures ReportedWithin(stack, step, solver, budget) <==> Reports(stack[|stack| - 1], solver)
  {
    hide TurnOf, NextStack, Reports;
    var top := stack[|stack| - 1];
    assert OnTop(stack, step, solver, 0, top);
    forall n: nat | n > 0 ensures StackAfter(stack, step, solver, n).None? { HaltsAtOnce(stack, step, solver, n); }
    forall n: nat, t | OnTop(stack, step, solver, n, t) ensures t == top { }
  }

  function VerdictOf(results: seq<VeriResult>): VeriResult {
    if forall i | 0 <= i < |results| :: results[i] == HOLD then HOLD
    else if exists i | 0 <= i < |results| :: results[i] == FAIL then FAIL
    else VERIUNKNOWN
  }

  class Engine {
    const step: Stepper
    const solver: Solver
    const eval: Evaluator
    ghost const machine: Machine
    ghost const init: SymState

    var states: seq<SymState>
    var results: seq<VeriResult>
    var issueRecorded: bool
    var issueKind: Issue
    var violation: Option<nat>
    var inputs: seq<int>
    ghost var refuting: Option<(SymState, Env)>   // the state and model of a captured counterexample

    constructor (step: Stepper, solver: Solver, eval: Evaluator, ghost machine: Machine, ghost init: SymState)
      ensures this.step == step && this.solver == solver && this.eval == eval && this.machine == machine
          && this.init == init
      ensures states == [] && results == [] && !issueRecorded
    {
      this.step, this.solver, this.eval, this.machine, this.init := step, solver, eval, machine, init;
      states, results, issueRecorded, issueKind, violation, inputs, refuting := [], [], false, UnknownState, None, [],
          None;
    }

    ghost predicate Setting()
      reads this
    {
      Sound(solver) && Evaluates(eval) && Executes(step, machine, init) && Sane(machine, init, init)
    }

    /** The invariant of the worklist: every state on the stack is sane, and as long as no result
        spoils the verdict, every failing run continues from some state on the stack. */
    ghost predicate Exploring(stack: seq<SymState>)
      reads this
    {
      && Setting() && NoneFails(results) && (Decisive(results) || issueRecorded)
      && (forall k | 0 <= k < |stack| :: Sane(machine, init, stack[k]))
      && (AllHold(results) && Refuted(machine, init) ==> Threatened(machine, stack))
    }

    /** With a deciding solver and precise execution nothing is ever inconclusive. */
    ghost predicate Conclusive(stack: seq<SymState>)
      reads this
    {
      && Decides(solver) && StaysPrecise(step) && Decisive(results)
      && (forall k | 0 <= k < |stack| :: Precise(stack[k]) && !stack[k].status.UNKNOWN?)
    }

    /** What holds when the worklist returns. A FAIL result is backed by a failing run; if it comes
        from a model, the run reads the inputs of the recorded calls and violates at the reported
        location, and the inputs written down are the captured ones. */
    ghost predicate Concluded()
      reads this
    {
      && (AllHold(results) ==> !Refuted(machine, init)) && (Decisive(results) || issueRecorded)
      && (!NoneFails(results) ==> Refuted(machine, init) && violation.Some?)
      && (!NoneFails(results) && refuting.Some? ==>
            var (st, e) := refuting.value;
            ViolatesAt(machine, init, e, Tape(st.calls, e), violation.value) && inputs == Captured(st.calls, e))
    }

    /** Only the first issue is kept. */
    method RecordIssue(kind: Issue)
      modifies this`issueRecorded, this`issueKind
      ensures issueRecorded
      ensures issueKind == if old(issueRecorded) then old(issueKind) else kind
    {
      if issueRecorded { return; }
      issueRecorded, issueKind := true, kind;
    }

    method CaptureCall(call: NondetCall, model: Env) returns (values: seq<int>)
      requires Evaluates(eval)
      ensures values == CapturedCall(call, model)
    {
      values := [];
      match call
      case Single(value) => values := [eval(value, model)];
      case Many(element, index, count) =>
        var n := eval(count, model);
        if n < 0 || n > MAX_I64 { return; }
        var i := 0;
        while i < n
          invariant 0 <= i <= n && values == CallInputs(call, model)[..i]
        {
          values := values + [eval(element, Set(model, index, i))];
          i := i + 1;
        }
    }

    method CaptureCounterexample(st: SymState, model: Env)
      requires Evaluates(eval)
      modifies this`inputs, this`refuting
      ensures inputs == Captured(st.calls, model) && refuting == Some((st, model))
    {
      hide Eval, CapturedCall;
      inputs := [];
      var i := 0;
      while i < |st.calls|
        invariant 0 <= i <= |st.calls| && inputs == Captured(st.calls[..i], model)
      {
        var values := CaptureCall(st.calls[i], model);
        assert st.calls[..i + 1][..i] == st.calls[..i];
        inputs := inputs + values;
        i := i + 1;
      }
      assert st.calls[..i] == st.calls;
      refuting := Some((st, model));
    }

    /** Is the path feasible? */
    method Test(st: SymState) returns (result: TestResult)
      requires Sound(solver)
      modifies this`issueRecorded, this`issueKind
      ensures result.UNFEASIBLE? ==> forall e :: !Holds(st.path, e)
      ensures result.FEASIBLE? ==> Holds(st.path, result.model)
      ensures result.TESTUNKNOWN? <==> solver(st.path).Unknown?
      ensures result.UNFEASIBLE? <==> solver(st.path).Unsat?
      ensures result.TESTUNKNOWN? ==> issueRecorded
      ensures (issueRecorded, issueKind) == FirstIssue(old(issueRecorded), old(issueKind),
        if result.TESTUNKNOWN? then Some(Z3Unknown) else None)
    {
      match solver(st.path)
      case Unsat => result := UNFEASIBLE;
      case Sat(model) => result := FEASIBLE(model);
      case Unknown =>
        RecordIssue(Z3Unknown);
        result := TESTUNKNOWN;
    }

    /** Does the assertion hold wherever the path reaches it and it is defined? */
    method Verify(st: SymState) returns (result: VeriResult)
      requires Sound(solver) && Evaluates(eval) && Sane(machine, init, st) && st.status.VERIFYING?
      modifies this`issueRecorded, this`issueKind, this`inputs, this`refuting
      ensures result.HOLD? ==> forall e | Holds(st.path, e) && Holds(st.claim.defined, e) :: Holds(st.claim.holds, e)
      ensures result.FAIL? ==>
        && refuting.Some? && refuting.value.0 == st
        && ViolatesAt(machine, init, refuting.value.1, Tape(st.calls, refuting.value.1), st.prev)
        && inputs == Captured(st.calls, refuting.value.1)
      ensures [result] == Recorded(st, solver)
      ensures result.VERIUNKNOWN? || old(issueRecorded) ==> issueRecorded
      ensures !result.FAIL? ==> inputs == old(inputs) && refuting == old(refuting)
      ensures (issueRecorded, issueKind) == FirstIssue(old(issueRecorded), old(issueKind), IssueOf(st, solver))
    {
      hide Eval, Tape, Below, CanFail, Witnessed;
      match solver(AssertionQuery(st))
      case Unsat => result := HOLD;
      case Sat(model) =>
        if st.overApprox || !st.complete {
          RecordIssue(if st.overApprox then OverApproximation else IncompleteCounterexample);
          return VERIUNKNOWN;
        }
        assert Holds(AssertionQuery(st), model);
        WitnessViolates(machine, init, st, model);
        CaptureCounterexample(st, model);
        result := FAIL;
      case Unknown =>
        RecordIssue(Z3Unknown);
        result := VERIUNKNOWN;
    }

    /** A verifying state, just popped. */
    method CheckAssertion(top: SymState) returns (over: bool)
      requires top.status.VERIFYING? && Exploring(states + [top])
      modifies this
      ensures Setting() && results == old(results) + Recorded(top, solver) && over == TurnOf(top, solver).Over?
      ensures (issueRecorded, issueKind) == FirstIssue(old(issueRecorded), old(issueKind), IssueOf(top, solver))
      ensures violation == if Reports(top, solver) then Some(top.prev) else old(violation)
      ensures !over ==> states == old(states) + Successors(top, step, solver)
      ensures !over ==> Exploring(states) && (old(Conclusive(states + [top])) ==> Conclusive(states))
      ensures over ==> Concluded() && !AllHold(results) && (old(Conclusive(states + [top])) ==> Decisive(results))
    {
      hide Eval, Tape, Captured, Below, CanFail, Witnessed, Scoped, Executes, Evaluates, Danger, StatusFits,
          ViolatesAt, Refuted,
           Threatened, PathWith;
      assert Sane(machine, init, (states + [top])[|states|]);
      ghost var before := results;
      var result := Verify(top);
      results := results + [result];
      if result.FAIL? {
        violation := Some(top.prev);
        ViolationRefutes(machine, init, refuting.value.1, Tape(top.calls, refuting.value.1), top.prev);
        assert results[|before|] == FAIL;
        return true;
      }
      VerifiedContinues(machine, init, top);
      if result.HOLD? {
        HoldsOnward(machine, init, top);
        Replaced(machine, states, top, [Verified(top)]);
        assert forall i | 0 <= i < |before| :: before[i] == results[i];
      } else {
        assert results[|before|] == VERIUNKNOWN;
      }
      assert forall k | 0 <= k < |states| :: states[k] == (states + [top])[k];
      states := states + [Verified(top)];
      over := false;
    }

    /** A state that has reached the error call, just popped: stuck if its path is infeasible. */
    method CheckError(top: SymState) returns (turn: Turned)
      requires top.status.REACH_ERROR? && Exploring(states + [top])
      modifies this
      ensures Setting() && results == old(results) + Recorded(top, solver) && turn == TurnOf(top, solver)
      ensures (issueRecorded, issueKind) == FirstIssue(old(issueRecorded), old(issueKind), IssueOf(top, solver))
      ensures violation == if Reports(top, solver) then Some(top.pc) else old(violation)
      ensures turn.Over? ==> Concluded() && !AllHold(results) && (old(Conclusive(states + [top])) ==> Decisive(results))
    {
      hide Eval, Tape, Captured, Below, CanFail, Witnessed, Scoped, Executes, Evaluates, Danger, StatusFits,
          ViolatesAt, Refuted,
           Threatened;
      assert Sane(machine, init, (states + [top])[|states|]);
      ghost var before := results;
      assert Conclusive(states + [top]) ==> Precise((states + [top])[|states|]);
      var result := Test(top);
      match result
      case FEASIBLE(model) =>
        if top.overApprox || !top.complete {
          RecordIssue(if top.overApprox then OverApproximation else IncompleteCounterexample);
          results := results + [VERIUNKNOWN];
          assert results[|before|] == VERIUNKNOWN;
          return Over;
        }
        results := results + [FAIL];
        violation := Some(top.pc);
        ErrorViolates(machine, init, top, model);
        CaptureCounterexample(top, model);
        assert results[|before|] == FAIL;
        return Over;
      case TESTUNKNOWN =>
        RecordIssue(Z3Unknown);
        results := results + [VERIUNKNOWN];
        assert results[|before|] == VERIUNKNOWN;
        return Over;
      case UNFEASIBLE =>
        return Stuck;
    }

    /** A state past a branch or an assumption, just popped. */
    method CheckFeasible(top: SymState)
      requires top.status.TESTING? && Exploring(states + [top])
      modifies this
      ensures results == old(results) + Recorded(top, solver) && states == old(states) + Successors(top, step, solver)
      ensures (issueRecorded, issueKind) == FirstIssue(old(issueRecorded), old(issueKind), IssueOf(top, solver))
      ensures violation == old(violation)
      ensures Exploring(states) && (old(Conclusive(states + [top])) ==> Conclusive(states))
    {
      hide Eval, Tape, Captured, Below, CanFail, Witnessed, Scoped, Executes, Evaluates, Danger, StatusFits, Refuted,
          Threatened;
      assert Sane(machine, init, (states + [top])[|states|]);
      assert forall k | 0 <= k < |states| :: states[k] == (states + [top])[k];
      ghost var before := results;
      assert Conclusive(states + [top]) ==> Precise((states + [top])[|states|]);
      var result := Test(top);
      match result
      case FEASIBLE(_) =>
        TestedIsSane(machine, init, top);
        TestedOnward(machine, init, top);
        Replaced(machine, states, top, [top.(status := RUNNING)]);
        states := states + [top.(status := RUNNING)];
      case TESTUNKNOWN =>
        results := results + [VERIUNKNOWN];
        assert results[|before|] == VERIUNKNOWN;
      case UNFEASIBLE =>
        NothingThere(machine, init, states, top);
    }

    /** A state in which a loop summary has refuted one of its assertions, just popped. */
    method ReportSummaryFailure(top: SymState)
      requires top.status.FAILED? && Exploring(states + [top])
      modifies this
      ensures results == old(results) + Recorded(top, solver)
      ensures (issueRecorded, issueKind) == FirstIssue(old(issueRecorded), old(issueKind), IssueOf(top, solver))
      ensures violation == if Reports(top, solver) then Some(top.pc) else old(violation)
      ensures Setting() && Concluded() && !AllHold(results) && (old(Conclusive(states + [top])) ==> Decisive(results))
    {
      hide Eval, Tape, Captured, Below, CanFail, Witnessed, Scoped, Executes, Evaluates, Danger, StatusFits, Refuted,
          Threatened,
           ViolatesAt;
      assert Sane(machine, init, (states + [top])[|states|]);
      assert Conclusive(states + [top]) ==> Precise((states + [top])[|states|]);
      ghost var before := results;
      if !top.complete {
        RecordIssue(IncompleteCounterexample);
        results := results + [VERIUNKNOWN];
        assert results[|before|] == VERIUNKNOWN;
        return;
      }
      results := results + [FAIL];
      assert results[|before|] == FAIL;
      violation := Some(top.pc);
      refuting := None;
      SummaryRefutes(machine, init, top);
    }

    method Execute(top: SymState)
      requires top.status.RUNNING? && Exploring(states + [top])
      modifies this`states
      ensures states == old(states) + Successors(top, step, solver)
      ensures Exploring(states) && (old(Conclusive(states + [top])) ==> Conclusive(states))
    {
      hide Eval, Sane, Executes, Evaluates, Danger, Refuted, Threatened, Precise, AllHold;
      assert Sane(machine, init, (states + [top])[|states|]);
      assert forall k | 0 <= k < |states| :: states[k] == (states + [top])[k];
      assert Conclusive(states + [top]) ==> Precise((states + [top])[|states|]);
      var successors := step(top);
      Stepped(step, machine, init, top);
      Replaced(machine, states, top, successors);
      states := states + successors;
    }

    /** Processing the state on top of the stack. Stuck: an infeasible error state falls through to
        the assertion that only running states are executed. */
    method Turn() returns (turn: Turned, ghost cur: SymState)
      requires Exploring(states) && states != []
      modifies this
      ensures Setting()
      ensures turn.Onward? ==> Exploring(states) && (old(Conclusive(states)) ==> Conclusive(states))
      ensures turn.Over? ==> Concluded() && !AllHold(results) && (old(Conclusive(states)) ==> Decisive(results))
      ensures cur == old(states[|states| - 1]) && Sane(machine, init, cur)
      ensures turn == TurnOf(cur, solver) && results == old(results) + Recorded(cur, solver)
      ensures (issueRecorded, issueKind) == FirstIssue(old(issueRecorded), old(issueKind), IssueOf(cur, solver))
      ensures violation ==
        if Reports(cur, solver) then Some(if cur.status.VERIFYING? then cur.prev else cur.pc) else old(violation)
      ensures turn.Onward? ==> states == NextStack(old(states), step, solver)
      ensures turn.Onward? ==> states == old(states)[..|old(states)| - 1] + Successors(cur, step, solver)
    {
      hide Eval, Sane, Executes, Evaluates, Refuted, Threatened, Precise, AllHold;
      var top := states[|states| - 1];
      cur := top;
      assert states == states[..|states| - 1] + [top];
      states := states[..|states| - 1];
      match top.status {
      case TERMINATED =>
        Ended(machine, init, states, top);
        turn := Onward;
      case VERIFYING =>
        var over := CheckAssertion(top);
        turn := if over then Over else Onward;
      case REACH_ERROR =>
        turn := CheckError(top);
      case TESTING =>
        CheckFeasible(top);
        turn := Onward;
      case UNKNOWN =>
        RecordIssue(UnknownState);
        ghost var before := results;
        results := results + [VERIUNKNOWN];
        Spoilt(before);
        turn := Over;
      case FAILED =>
        ReportSummaryFailure(top);
        turn := Over;
      case RUNNING =>
        Execute(top);
        turn := Onward;
      }
    }

    /** The worklist, for at most `budget` turns: a program can have endlessly many paths. How it ends
        and what it records are determined by the stack. */
    method Run(budget: nat) returns (ending: Ending, ghost last: Option<SymState>)
      requires Exploring(states)
      modifies this
      ensures Setting()
      ensures ending == EndingOf(old(states), step, solver, budget)
      ensures results == old(results) + ResultsOf(old(states), step, solver, budget)
      ensures ending.Returned? ==> Concluded() && (old(Conclusive(states)) ==> Decisive(results))
      ensures ending.Aborted? ==> last.Some? && Sane(machine, init, last.value) && InfeasibleError(last.value, solver)
    {
      hide Eval, Sane, Executes, Evaluates, Refuted, Threatened, Precise, Sound, Decides, NextStack, Recorded,
          EndingOf, ResultsOf;
      var left := budget;
      last := None;
      while states != []
        invariant 0 <= left <= budget
        invariant Exploring(states) && (old(Conclusive(states)) ==> Conclusive(states))
        invariant EndingOf(states, step, solver, left) == EndingOf(old(states), step, solver, budget)
        invariant results + ResultsOf(states, step, solver, left) ==
            old(results) + ResultsOf(old(states), step, solver, budget)
        decreases left
      {
        NextTurn(states, step, solver, left);
        if left == 0 { return CutOff, None; }
        left := left - 1;
        var turn, cur := Turn();
        if turn.Over? { return Returned, None; }
        if turn.Stuck? { return Aborted, Some(cur); }
      }
      Emptied(machine);
      NextTurn([], step, solver, left);
      ending := Returned;
    }

    /** The verdict on the whole program, and how the worklist ended: there is a verdict exactly if it
        returned, and it is the one of the recorded results. */
    method VerifyProgram(initial: SymState, budget: nat) returns (verdict: Option<VeriResult>, ending: Ending)
      requires initial == init && Setting() && (init.status.RUNNING? || init.status.TESTING?)
      modifies this
      ensures ending == EndingOf([init], step, solver, budget) && (verdict.Some? <==> ending.Returned?)
      ensures results == ResultsOf([init], step, solver, budget)
      ensures verdict.Some? ==> verdict.value == VerdictOf(results)
      ensures verdict == Some(HOLD) <==> ending.Returned? && forall i | 0 <= i < |results| :: results[i] == HOLD
      ensures verdict == Some(FAIL) <==> exists i | 0 <= i < |results| :: results[i] == FAIL
      ensures verdict == Some(FAIL) <==>
        exists n: nat, top :: n < budget && OnTop([init], step, solver, n, top) && Reports(top, solver)
      ensures verdict == Some(HOLD) ==> !Refuted(machine, init)
      ensures verdict == Some(FAIL) ==> Refuted(machine, init) && violation.Some?
      ensures verdict == Some(FAIL) && refuting.Some? ==>
        var (st, e) := refuting.value;
        && ViolatesAt(machine, init, e, Tape(st.calls, e), violation.value)
        && inputs == Captured(st.calls, e)
        && (CountsFit(st.calls, e) ==> ViolatesAt(machine, init, e, inputs, violation.value))
      ensures verdict == Some(VERIUNKNOWN) ==> issueRecorded
      ensures verdict.Some? && Decides(solver) && StaysPrecise(step) && Precise(init) ==>
        verdict.value == if Refuted(machine, init) then FAIL else HOLD
    {
      hide Eval, Sane, Executes, Evaluates, Refuted, Threatened, Precise, Sound, Decides, Tape, Captured, ViolatesAt,
          StaysPrecise, CountsFit, EndingOf, ResultsOf, OnTop, Reports;
      states, results := [], [];
      issueRecorded, violation, inputs, refuting := false, None, [], None;
      states := states + [initial];
      assert states == [init];
      RefutedThreatens(machine, init);
      ghost var last;
      ending, last := Run(budget);
      assert results == ResultsOf([init], step, solver, budget);
      FailsExactly([init], step, solver, budget);
      if !ending.Returned? { return None, ending; }
      if refuting.Some? { CapturedIsTape(refuting.value.0.calls, refuting.value.1); }
      verdict := Some(VerdictOf(results));
    }
  }
}
