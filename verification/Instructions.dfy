/** Symbolic execution of the instructions that steer the engine meets what the engine asks of it. */
module Instructions {
  import opened Terms
  import opened ClosedForms
  import opened LoopNests
  import opened Engine
  import opened Wrappers

  /** The terms of an instruction read memory cell i as variable i. */
  datatype Instruction =
    | Store_(x: nat, value: Term)
    | Input(x: nat)
    | Branch(cond: Claim, onTrue: nat, onFalse: nat)
    | Goto(target: nat)
    | Assume(cond: Claim)
    | Assert(cond: Claim)
    | ReachError
    | Return

  type Program = seq<Instruction>

  function Fetch(program: Program, pc: nat): Instruction {
    if pc < |program| then program[pc] else Return
  }

  /** The value does not depend on how the solver completes partial operations. */
  ghost predicate Determined(t: Term) {
    forall e: Env, f :: Eval(t, Env(e.vars, f)) == Eval(t, e)
  }

  ghost predicate Reads(t: Term, m: nat) { Scalar(t, m) && Determined(t) }

  ghost predicate ClaimReads(c: Claim, m: nat) { Reads(c.defined, m) && Reads(c.holds, m) }

  ghost predicate WellFormed(program: Program, m: nat) {
    forall i | 0 <= i < |program| ::
      match program[i]
      case Store_(x, value) => x < m && Reads(value, m)
      case Input(x) => x < m
      case Branch(cond, _, _) => ClaimReads(cond, m)
      case Assume(cond) => ClaimReads(cond, m)
      case Assert(cond) => ClaimReads(cond, m)
      case _ => true
  }

  /* ---- concrete execution ---- */

  ghost function Value(t: Term, base: Env, memory: seq<int>): int {
    Eval(t, Store(base, |memory|, memory))
  }

  ghost function Decided(c: Claim, base: Env, memory: seq<int>): Option<bool> {
    if Value(c.defined, base, memory) == 0 then None else Some(Value(c.holds, base, memory) != 0)
  }

  ghost function Next(program: Program, base: Env, c: Config): Outcome {
    match Fetch(program, c.pc)
    case Store_(x, value) =>
      if x < |c.memory| then Go(Config(c.pc + 1, c.memory[x := Value(value, base, c.memory)], c.tape)) else Stops
    case Input(x) =>
      if x < |c.memory| && c.tape != [] then Go(Config(c.pc + 1, c.memory[x := c.tape[0]], c.tape[1..])) else Stops
    case Branch(cond, onTrue, onFalse) =>
      (match Decided(cond, base, c.memory)
       case None => Stops
       case Some(b) => Go(c.(pc := if b then onTrue else onFalse)))
    case Goto(target) => Go(c.(pc := target))
    case Assume(cond) => if Decided(cond, base, c.memory) == Some(true) then Go(c.(pc := c.pc + 1)) else Stops
    case Assert(cond) =>
      (match Decided(cond, base, c.memory)
       case None => Stops
       case Some(b) => if b then Go(c.(pc := c.pc + 1)) else Violates)
    case ReachError => Violates
    case Return => Stops
  }

  ghost function MachineOf(program: Program, base: Env): Machine {
    (c: Config) => Next(program, base, c)
  }

  /* ---- symbolic execution ---- */

  function Read(t: Term, st: SymState): Term {
    Replace(t, ParamMap(Params(|st.memory|), st.memory))
  }

  function ReadClaim(c: Claim, st: SymState): Claim { Claim(Read(c.defined, st), Read(c.holds, st)) }

  function Moved(st: SymState, pc: nat): SymState { st.(prev := st.pc, pc := pc) }

  function Assuming(st: SymState, c: Claim, pc: nat): SymState {
    Moved(st, pc).(status := TESTING, path := PathWith(st.path, c))
  }

  function Step(program: Program, st: SymState): seq<SymState> {
    match Fetch(program, st.pc)
    case Store_(x, value) =>
      if x < |st.memory| then [Moved(st, st.pc + 1).(memory := st.memory[x := Read(value, st)])] else []
    case Input(x) =>
      var symbol := Var(st.names);
      if x < |st.memory| then
        [Moved(st, st.pc + 1).(memory := st.memory[x := symbol], calls := st.calls + [Single(symbol)], names :=
            st.names + 1)]
      else []
    case Branch(cond, onTrue, onFalse) =>
      var c := ReadClaim(cond, st);
      [Assuming(st, c, onTrue), Assuming(st, Claim(c.defined, Negate(c.holds)), onFalse)]
    case Goto(target) => [Moved(st, target)]
    case Assume(cond) => [Assuming(st, ReadClaim(cond, st), st.pc + 1)]
    case Assert(cond) => [Moved(st, st.pc + 1).(status := VERIFYING, claim := ReadClaim(cond, st))]
    case ReachError => [st.(status := REACH_ERROR)]
    case Return => [st.(status := TERMINATED)]
  }

  function StepperOf(program: Program): Stepper {
    (st: SymState) => Step(program, st)
  }

  /* ---- symbolic execution follows concrete execution ---- */

  /** A determined term has the same value in any two environments with the same memory. */
  lemma SameMemory(t: Term, m: nat, memory: seq<int>, e: Env, base: Env)
    requires Reads(t, m) && |memory| == m
    ensures Eval(t, Store(e, m, memory)) == Eval(t, Store(base, m, memory))
  {
    hide QuantifierFree, Eval, Occurs;
    var here, there := Store(e, m, memory), Store(base, m, memory);
    var mixed := Env(here.vars, there.fns);
    assert forall id :: Lookup(mixed, id) == Lookup(here, id);
    assert forall id: nat | id < m :: Lookup(mixed, id) == memory[id] == Lookup(there, id);
    EvalAgree(t, mixed, there);
  }

  /** A term read in a state means what the instruction's term means in the memory it denotes. */
  lemma ReadMeans(t: Term, st: SymState, base: Env, e: Env)
    requires Reads(t, |st.memory|)
    ensures Eval(Read(t, st), e) == Value(t, base, EvalAll(st.memory, e))
  {
    hide Occurs, QuantifierFree, Replace, Eval, Determined;
    var m := |st.memory|;
    var memory := EvalAll(st.memory, e);
    NoCapture(t, ParamMap(Params(m), st.memory));
    EvalParams(t, Params(m), st.memory, e, Store(e, m, memory));
    SameMemory(t, m, memory, e, base);
  }

  lemma ClaimMeans(c: Claim, st: SymState, base: Env, e: Env)
    requires ClaimReads(c, |st.memory|)
    ensures var memory := EvalAll(st.memory, e);
      Decided(c, base, memory) == if !Holds(Read(c.defined, st), e) then None else Some(Holds(Read(c.holds, st), e))
  {
    hide Eval;
    ReadMeans(c.defined, st, base, e);
    ReadMeans(c.holds, st, base, e);
  }

  lemma CellMapped(images: seq<Term>, id: nat)
    requires id < |images|
    ensures Var(id) in ParamMap(Params(|images|), images)
  {
    assert Params(|images|)[id] == id;
  }

  lemma ReadBelow(t: Term, st: SymState)
    requires Reads(t, |st.memory|) && Scoped(st)
    ensures Below(Read(t, st), st.names)
  {
    hide QuantifierFree, Replace, Eval;
    var mp := ParamMap(Params(|st.memory|), st.memory);
    forall id: nat | Occurs(id, Read(t, st)) ensures id < st.names {
      if Occurs(id, t) { CellMapped(st.memory, id); }
      OccursReplace(id, t, mp);
      if u :| u in mp && Occurs(id, mp[u]) {
        var i :| 0 <= i < |st.memory| && u == Var(Params(|st.memory|)[i]);
        assert mp[u] == st.memory[i];
      }
    }
  }

  ghost predicate Follows(machine: Machine, init: SymState, st: SymState, successors: seq<SymState>) {
    && (forall k | 0 <= k < |successors| :: Sane(machine, init, successors[k]))
    && (forall e, rest | Danger(machine, st, e, rest) :: Threatened(machine, successors))
  }

  /** The runs through the successor are the runs through the state that take one step. */
  ghost predicate Advances(machine: Machine, st: SymState, next: SymState) {
    forall e, rest | Holds(next.path, e) ::
        Holds(st.path, e) && machine(Standing(st, e, rest)) == Go(Standing(next, e, rest))
  }

  lemma AdvanceIsSane(machine: Machine, init: SymState, st: SymState, next: SymState)
    requires Sane(machine, init, st) && Scoped(next) && (next.status.RUNNING? || next.status.TESTING?)
    requires next.calls == st.calls && next.names == st.names && |next.memory| == |st.memory|
    requires next.overApprox == st.overApprox && next.complete == st.complete
    requires Advances(machine, st, next)
    ensures Sane(machine, init, next)
  {
    hide Eval, Below, Tape;
    if Precise(next) {
      forall e, rest | Holds(next.path, e) ensures WitnessedAt(machine, init, next, e, rest) {
        assert machine(Standing(st, e, rest)) == Go(Standing(next, e, rest));
        assert WitnessedAt(machine, init, st, e, rest);
        var c := Standing(init, e, Tape(st.calls, e) + rest);
        var n: nat :| After(machine, c, n) == Go(Standing(st, e, rest));
        AfterAfter(machine, c, n, Standing(st, e, rest), 1);
        assert After(machine, Standing(st, e, rest), 1) == Go(Standing(next, e, rest));
        assert After(machine, c, n + 1) == Go(Standing(next, e, rest));
      }
    }
  }

  lemma AdvanceKeepsDanger(machine: Machine, st: SymState, next: SymState, e: Env, rest: seq<int>)
    requires Advances(machine, st, next) && Danger(machine, st, e, rest) && Holds(next.path, e)
    ensures Danger(machine, next, e, rest)
  {
    hide Eval, CanFail;
    FailsNext(machine, Standing(st, e, rest));
  }

  /** A step whose only effect is to move on. */
  lemma OneSuccessor(machine: Machine, init: SymState, st: SymState, next: SymState)
    requires Sane(machine, init, st) && Scoped(next) && next.status.RUNNING?
    requires next.calls == st.calls && next.names == st.names && |next.memory| == |st.memory| && next.path == st.path
    requires next.overApprox == st.overApprox && next.complete == st.complete
    requires Advances(machine, st, next)
    ensures Follows(machine, init, st, [next])
  {
    hide Eval, Below, Tape, Sane, Advances, Threatened;
    AdvanceIsSane(machine, init, st, next);
    forall e, rest | Danger(machine, st, e, rest) ensures Threatened(machine, [next]) {
      AdvanceKeepsDanger(machine, st, next, e, rest);
      OneThreatened(machine, next, e, rest);
    }
  }

  /** A state about to be examined: the run has not moved. */
  lemma Examined(machine: Machine, init: SymState, st: SymState, next: SymState)
    requires Sane(machine, init, st) && st.status.RUNNING? && Scoped(next) && StatusFits(machine, next)
    requires next.calls == st.calls && next.names == st.names && next.memory == st.memory && next.path == st.path
    requires next.overApprox == st.overApprox && next.complete == st.complete && Location(next) == st.pc
    ensures Follows(machine, init, st, [next])
  {
    hide Eval, Below, Tape, CanFail, StatusFits, Scoped;
    assert forall e, rest :: Standing(next, e, rest) == Standing(st, e, rest);
    if Precise(next) {
      forall e, rest | Holds(next.path, e) ensures WitnessedAt(machine, init, next, e, rest) {
        assert WitnessedAt(machine, init, st, e, rest);
        var n: nat :| After(machine, Standing(init, e, Tape(st.calls, e) + rest), n) == Go(Standing(st, e, rest));
        assert After(machine, Standing(init, e, Tape(next.calls, e) + rest), n) == Go(Standing(next, e, rest));
      }
    }
    forall e, rest | Danger(machine, st, e, rest) ensures Threatened(machine, [next]) {
      OneThreatened(machine, next, e, rest);
    }
  }

  lemma MemoryBelow(st: SymState, x: nat, value: Term, names: nat, memory: seq<Term>)
    requires Scoped(st) && x < |st.memory| && Below(value, names) && names >= st.names
    requires memory == st.memory[x := value]
    ensures forall i | 0 <= i < |memory| :: Below(memory[i], names)
  {
    forall i | 0 <= i < |memory| ensures Below(memory[i], names) {
      if i != x { assert Below(st.memory[i], st.names); }
    }
  }

  lemma StoreFollows(program: Program, base: Env, init: SymState, st: SymState)
    requires WellFormed(program, |init.memory|) && Sane(MachineOf(program, base), init, st) && st.status.RUNNING?
    requires Fetch(program, st.pc).Store_?
    ensures Follows(MachineOf(program, base), init, st, Step(program, st))
  {
    hide Eval, Below, Tape, CanFail, StatusFits, Reads, Follows, Read, Determined, Scalar, Witnessed;
    var instruction := Fetch(program, st.pc);
    assert Reads(instruction.value, |st.memory|) && instruction.x < |st.memory|;
    var machine := MachineOf(program, base);
    var value := Read(instruction.value, st);
    ReadBelow(instruction.value, st);
    MemoryBelow(st, instruction.x, value, st.names, st.memory[instruction.x := value]);
    var next := Moved(st, st.pc + 1).(memory := st.memory[instruction.x := value]);
    forall e, rest | Holds(next.path, e)
        ensures Holds(st.path, e) && machine(Standing(st, e, rest)) == Go(Standing(next, e, rest)) {
      ReadMeans(instruction.value, st, base, e);
      assert EvalAll(next.memory, e) == EvalAll(st.memory, e)[instruction.x := Eval(value, e)];
    }
    OneSuccessor(machine, init, st, next);
  }

  lemma GotoFollows(program: Program, base: Env, init: SymState, st: SymState)
    requires WellFormed(program, |init.memory|) && Sane(MachineOf(program, base), init, st) && st.status.RUNNING?
    requires Fetch(program, st.pc).Goto?
    ensures Follows(MachineOf(program, base), init, st, Step(program, st))
  {
    hide Eval, Below, Tape, CanFail, StatusFits, Reads, Follows;
    OneSuccessor(MachineOf(program, base), init, st, Moved(st, Fetch(program, st.pc).target));
  }

  lemma ClaimBelow(c: Claim, st: SymState)
    requires ClaimReads(c, |st.memory|) && Scoped(st)
    ensures Below(ReadClaim(c, st).defined, st.names) && Below(ReadClaim(c, st).holds, st.names)
    ensures Below(Negate(ReadClaim(c, st).holds), st.names)
  {
    hide Read;
    ReadBelow(c.defined, st);
    ReadBelow(c.holds, st);
    NegateBelow(Read(c.holds, st), st.names);
  }

  lemma NegateBelow(t: Term, names: nat)
    requires Below(t, names)
    ensures Below(Negate(t), names)
  {
    assert [t][0] == t;
  }

  /** A state that assumes a condition before it moves. */
  lemma AssumingIsSane(machine: Machine, init: SymState, st: SymState, c: Claim, pc: nat)
    requires Sane(machine, init, st) && st.status.RUNNING? && Below(c.defined, st.names) && Below(c.holds, st.names)
    requires forall e, rest | Holds(st.path, e) && Holds(c.defined, e) && Holds(c.holds, e) ::
      machine(Standing(st, e, rest)) == Go(Standing(Assuming(st, c, pc), e, rest))
    ensures Sane(machine, init, Assuming(st, c, pc))
    ensures Advances(machine, st, Assuming(st, c, pc))
  {
    hide Eval, Below, Tape, CanFail;
    PathWithBelow(st.path, c, st.names);
    AdvanceIsSane(machine, init, st, Assuming(st, c, pc));
  }

  lemma AssumeFollows(program: Program, base: Env, init: SymState, st: SymState)
    requires WellFormed(program, |init.memory|) && Sane(MachineOf(program, base), init, st) && st.status.RUNNING?
    requires Fetch(program, st.pc).Assume?
    ensures Follows(MachineOf(program, base), init, st, Step(program, st))
  {
    hide Eval, Below, Tape, CanFail, StatusFits, ClaimReads, Read, Sane, Threatened, Scoped;
    var cond := Fetch(program, st.pc).cond;
    var machine := MachineOf(program, base);
    var c := ReadClaim(cond, st);
    SaneParts(machine, init, st);
    assert ClaimReads(cond, |st.memory|);
    ClaimBelow(cond, st);
    forall e ensures Decided(cond, base, EvalAll(st.memory, e)) == if !Holds(c.defined, e) then None
        else Some(Holds(c.holds, e)) {
      ClaimMeans(cond, st, base, e);
    }
    AssumingIsSane(machine, init, st, c, st.pc + 1);
    forall e, rest | Danger(machine, st, e, rest) ensures Threatened(machine, Step(program, st)) {
      FailsNext(machine, Standing(st, e, rest));
      AdvanceKeepsDanger(machine, st, Assuming(st, c, st.pc + 1), e, rest);
      OneThreatened(machine, Assuming(st, c, st.pc + 1), e, rest);
    }
  }

  lemma SaneParts(machine: Machine, init: SymState, st: SymState)
    requires Sane(machine, init, st)
    ensures Scoped(st) && |st.memory| == |init.memory|
  {
  }

  lemma TwoThreatened(machine: Machine, a: SymState, b: SymState, e: Env, rest: seq<int>)
    requires Danger(machine, a, e, rest) || Danger(machine, b, e, rest)
    ensures Threatened(machine, [a, b])
  {
    assert Danger(machine, [a, b][0], e, rest) || Danger(machine, [a, b][1], e, rest);
  }

  lemma BranchFollows(program: Program, base: Env, init: SymState, st: SymState)
    requires WellFormed(program, |init.memory|) && Sane(MachineOf(program, base), init, st) && st.status.RUNNING?
    requires Fetch(program, st.pc).Branch?
    ensures Follows(MachineOf(program, base), init, st, Step(program, st))
  {
    hide Eval, Below, Tape, CanFail, StatusFits, ClaimReads, Read, Sane, Threatened, Scoped;
    var instruction := Fetch(program, st.pc);
    var machine := MachineOf(program, base);
    var c := ReadClaim(instruction.cond, st);
    var otherwise := Claim(c.defined, Negate(c.holds));
    SaneParts(machine, init, st);
    assert ClaimReads(instruction.cond, |st.memory|);
    ClaimBelow(instruction.cond, st);
    forall e ensures Decided(instruction.cond, base, EvalAll(st.memory, e)) == if !Holds(c.defined, e) then None
        else Some(Holds(c.holds, e)) {
      ClaimMeans(instruction.cond, st, base, e);
    }
    AssumingIsSane(machine, init, st, c, instruction.onTrue);
    AssumingIsSane(machine, init, st, otherwise, instruction.onFalse);
    var a, b := Assuming(st, c, instruction.onTrue), Assuming(st, otherwise, instruction.onFalse);
    forall e, rest | Danger(machine, st, e, rest) ensures Threatened(machine, Step(program, st)) {
      FailsNext(machine, Standing(st, e, rest));
      if Holds(c.holds, e) { AdvanceKeepsDanger(machine, st, a, e, rest); }
      else { AdvanceKeepsDanger(machine, st, b, e, rest); }
      TwoThreatened(machine, a, b, e, rest);
    }
  }

  lemma AssertFollows(program: Program, base: Env, init: SymState, st: SymState)
    requires WellFormed(program, |init.memory|) && Sane(MachineOf(program, base), init, st) && st.status.RUNNING?
    requires Fetch(program, st.pc).Assert?
    ensures Follows(MachineOf(program, base), init, st, Step(program, st))
  {
    hide Eval, Below, Tape, CanFail, ClaimReads, Read, Sane, Threatened, Follows;
    var cond := Fetch(program, st.pc).cond;
    var machine := MachineOf(program, base);
    SaneParts(machine, init, st);
    assert ClaimReads(cond, |st.memory|);
    ClaimBelow(cond, st);
    var next := Moved(st, st.pc + 1).(status := VERIFYING, claim := ReadClaim(cond, st));
    forall e, rest | Holds(next.path, e) ensures machine(Standing(next, e, rest)) ==
        if !Holds(next.claim.defined, e) then Stops
        else if !Holds(next.claim.holds, e) then Violates
        else Go(Config(next.pc, EvalAll(next.memory, e), rest))
    {
      ClaimMeans(cond, st, base, e);
    }
    Examined(machine, init, st, next);
  }

  lemma EndFollows(program: Program, base: Env, init: SymState, st: SymState)
    requires Sane(MachineOf(program, base), init, st) && st.status.RUNNING?
    requires Fetch(program, st.pc).ReachError? || Fetch(program, st.pc).Return?
    ensures Follows(MachineOf(program, base), init, st, Step(program, st))
  {
    hide Eval, Below, Tape, CanFail, Follows;
    var machine := MachineOf(program, base);
    var next := Step(program, st)[0];
    forall e, rest | Holds(next.path, e) && next.status.TERMINATED? ensures !CanFail(machine, Standing(next, e, rest)) {
      FailsNext(machine, Standing(next, e, rest));
    }
    Examined(machine, init, st, next);
  }

  /* ---- nondeterministic inputs ---- */

  function AfterInput(st: SymState, x: nat): SymState
    requires x < |st.memory|
  {
    Moved(st, st.pc + 1).(memory := st.memory[x := Var(st.names)], calls := st.calls + [Single(Var(st.names))],
        names := st.names + 1)
  }

  lemma InputIsScoped(st: SymState, x: nat)
    requires Scoped(st) && x < |st.memory|
    ensures Scoped(AfterInput(st, x))
  {
    var next := AfterInput(st, x);
    assert Below(Var(st.names), next.names);
    MemoryBelow(st, x, Var(st.names), next.names, next.memory);
    forall i | 0 <= i < |next.calls| ensures CallBelow(next.calls[i], next.names) {
      if i < |st.calls| { assert CallBelow(st.calls[i], st.names); }
    }
  }

  /** Giving the fresh symbol a value changes nothing that the state already denotes. */
  lemma FreshValue(st: SymState, e: Env, v: int)
    requires Scoped(st)
    ensures var e' := Set(e, st.names, v);
      (Holds(st.path, e') <==> Holds(st.path, e)) && EvalAll(st.memory, e') == EvalAll(st.memory, e)
  {
    hide Eval, Occurs;
    var e' := Set(e, st.names, v);
    EvalAgree(st.path, e', e);
    forall i | 0 <= i < |st.memory| ensures Eval(st.memory[i], e') == Eval(st.memory[i], e) {
      assert Below(st.memory[i], st.names);
      EvalAgree(st.memory[i], e', e);
    }
  }

  /** Reading an input: the run that reads the value of the symbol is the run of the new state. */
  lemma InputMoves(program: Program, base: Env, st: SymState, e: Env, rest: seq<int>)
    requires Fetch(program, st.pc).Input? && Fetch(program, st.pc).x < |st.memory| && st.status.RUNNING?
    ensures Next(program, base, Standing(st, e, [Lookup(e, st.names)] + rest)) ==
      Go(Standing(AfterInput(st, Fetch(program, st.pc).x), e, rest))
  {
    hide Eval;
    var x := Fetch(program, st.pc).x;
    VarMeans(st.names, e);
    assert EvalAll(st.memory[x := Var(st.names)], e) == EvalAll(st.memory, e)[x := Lookup(e, st.names)];
    assert ([Lookup(e, st.names)] + rest)[1..] == rest;
  }

  lemma InputTape(st: SymState, x: nat, e: Env, rest: seq<int>)
    requires x < |st.memory|
    ensures Tape(AfterInput(st, x).calls, e) + rest == Tape(st.calls, e) + ([Lookup(e, st.names)] + rest)
  {
    hide Eval, Tape;
    VarMeans(st.names, e);
    TapeSnoc(st.calls, Single(Var(st.names)), e);
  }

  lemma InputIsSane(program: Program, base: Env, init: SymState, st: SymState)
    requires WellFormed(program, |init.memory|) && Sane(MachineOf(program, base), init, st) && st.status.RUNNING?
    requires Fetch(program, st.pc).Input? && Fetch(program, st.pc).x < |st.memory|
    ensures Sane(MachineOf(program, base), init, AfterInput(st, Fetch(program, st.pc).x))
  {
    hide Eval, Below, Tape, CanFail, Scoped, Next;
    var x := Fetch(program, st.pc).x;
    var machine, next := MachineOf(program, base), AfterInput(st, x);
    InputIsScoped(st, x);
    if Precise(next) {
      forall e, rest | Holds(next.path, e) ensures WitnessedAt(machine, init, next, e, rest) {
        var rest' := [Lookup(e, st.names)] + rest;
        assert WitnessedAt(machine, init, st, e, rest');
        var c := Standing(init, e, Tape(st.calls, e) + rest');
        var n: nat :| After(machine, c, n) == Go(Standing(st, e, rest'));
        AfterAfter(machine, c, n, Standing(st, e, rest'), 1);
        InputMoves(program, base, st, e, rest);
        assert After(machine, Standing(st, e, rest'), 1) == Go(Standing(next, e, rest));
        InputTape(st, x, e, rest);
        assert After(machine, Standing(init, e, Tape(next.calls, e) + rest), n + 1) == Go(Standing(next, e, rest));
      }
    }
  }

  lemma InputFollows(program: Program, base: Env, init: SymState, st: SymState)
    requires WellFormed(program, |init.memory|) && Sane(MachineOf(program, base), init, st) && st.status.RUNNING?
    requires Fetch(program, st.pc).Input?
    ensures Follows(MachineOf(program, base), init, st, Step(program, st))
  {
    hide Eval, Below, Tape, CanFail, Sane, Scoped, Next, StatusFits;
    var machine, x := MachineOf(program, base), Fetch(program, st.pc).x;
    SaneParts(machine, init, st);
    assert x < |st.memory|;
    var next := AfterInput(st, x);
    InputIsSane(program, base, init, st);
    forall e, rest | Danger(machine, st, e, rest) ensures Threatened(machine, [next]) {
      InputThreatens(program, base, st, e, rest);
    }
  }

  lemma InputThreatens(program: Program, base: Env, st: SymState, e: Env, rest: seq<int>)
    requires Fetch(program, st.pc).Input? && Fetch(program, st.pc).x < |st.memory| && st.status.RUNNING? && Scoped(st)
    requires Danger(MachineOf(program, base), st, e, rest)
    ensures Threatened(MachineOf(program, base), [AfterInput(st, Fetch(program, st.pc).x)])
  {
    hide Eval, CanFail, Scoped;
    var machine, next := MachineOf(program, base), AfterInput(st, Fetch(program, st.pc).x);
    FailsNext(machine, Standing(st, e, rest));
    assert rest != [];
    var e' := Set(e, st.names, rest[0]);
    FreshValue(st, e, rest[0]);
    assert [Lookup(e', st.names)] + rest[1..] == rest;
    InputMoves(program, base, st, e', rest[1..]);
    assert Standing(st, e', rest) == Standing(st, e, rest);
    OneThreatened(machine, next, e', rest[1..]);
  }

  /* ---- every program ---- */

  lemma StepFollows(program: Program, base: Env, init: SymState, st: SymState)
    requires WellFormed(program, |init.memory|) && Sane(MachineOf(program, base), init, st) && st.status.RUNNING?
    ensures Follows(MachineOf(program, base), init, st, Step(program, st))
  {
    hide Sane, Follows, WellFormed, Step;
    match Fetch(program, st.pc)
    case Store_(_, _) => StoreFollows(program, base, init, st);
    case Input(_) => InputFollows(program, base, init, st);
    case Branch(_, _, _) => BranchFollows(program, base, init, st);
    case Goto(_) => GotoFollows(program, base, init, st);
    case Assume(_) => AssumeFollows(program, base, init, st);
    case Assert(_) => AssertFollows(program, base, init, st);
    case ReachError => EndFollows(program, base, init, st);
    case Return => EndFollows(program, base, init, st);
  }

  lemma StepStaysPrecise(program: Program)
    ensures StaysPrecise(StepperOf(program))
  {
    hide Read, PathWith;
  }

  /** Symbolic execution of a well-formed program meets what the engine asks of execution. */
  lemma ProgramExecutes(program: Program, base: Env, init: SymState)
    requires WellFormed(program, |init.memory|)
    ensures Executes(StepperOf(program), MachineOf(program, base), init)
    ensures StaysPrecise(StepperOf(program))
  {
    hide Sane, Follows, WellFormed, Step, StaysPrecise;
    var machine := MachineOf(program, base);
    forall st: SymState | st.status.RUNNING? && Sane(machine, init, st)
        ensures Follows(machine, init, st, StepperOf(program)(st)) {
      StepFollows(program, base, init, st);
    }
    FollowsMeans(StepperOf(program), machine, init);
    StepStaysPrecise(program);
  }

  lemma FollowsMeans(step: Stepper, machine: Machine, init: SymState)
    requires forall st: SymState | st.status.RUNNING? && Sane(machine, init, st) :: Follows(machine, init, st, step(st))
    ensures Executes(step, machine, init)
  {
    hide Sane, Danger, Threatened;
  }

  /** The state the engine starts from: symbolic arguments, and a constraint on them. */
  function InitialState(constraint: Term, memory: seq<Term>, names: nat): SymState {
    SymState(RUNNING, 0, 0, constraint, memory, Claim(Flag(true), Flag(true)), [], false, true, names)
  }

  lemma InitialIsSane(machine: Machine, constraint: Term, memory: seq<Term>, names: nat)
    requires Below(constraint, names) && forall i | 0 <= i < |memory| :: Below(memory[i], names)
    ensures Sane(machine, InitialState(constraint, memory, names), InitialState(constraint, memory, names))
  {
    hide Eval;
    var init := InitialState(constraint, memory, names);
    forall e, rest | Holds(init.path, e) ensures WitnessedAt(machine, init, init, e, rest) {
      assert Tape(init.calls, e) + rest == rest;
      assert After(machine, Standing(init, e, Tape(init.calls, e) + rest), 0) == Go(Standing(init, e, rest));
    }
  }

  /** Some run from an allowed start fails. */
  ghost predicate SomeFails(machine: Machine, constraint: Term, memory: seq<Term>) {
    exists e, tape :: Holds(constraint, e) && CanFail(machine, Config(0, EvalAll(memory, e), tape))
  }

  /** The engine with an execution that meets what it asks. There is a verdict exactly if the worklist
      returns. HOLD means that no run from any allowed start fails, FAIL that some run does, and with
      precise execution and a solver that is never unknown a verdict is one of the two. */
  method RunEngine(step: Stepper, ghost machine: Machine, constraint: Term, memory: seq<Term>, names: nat,
                   solver: Solver, eval: Evaluator, budget: nat)
    returns (verdict: Option<VeriResult>, ending: Ending)
    requires Sound(solver) && Evaluates(eval) && Executes(step, machine, InitialState(constraint, memory, names))
    requires Below(constraint, names) && forall i | 0 <= i < |memory| :: Below(memory[i], names)
    ensures
      var start := [InitialState(constraint, memory, names)];
      && ending == EndingOf(start, step, solver, budget) && (verdict.Some? <==> ending.Returned?)
      && (verdict.Some? ==> verdict.value == VerdictOf(ResultsOf(start, step, solver, budget)))
    ensures verdict == Some(HOLD) ==> !SomeFails(machine, constraint, memory)
    ensures verdict == Some(FAIL) ==> SomeFails(machine, constraint, memory)
    ensures verdict.Some? && Decides(solver) && StaysPrecise(step) ==>
      verdict.value == if SomeFails(machine, constraint, memory) then FAIL else HOLD
  {
    hide Executes, Sane, Sound, Evaluates, Decides, StaysPrecise, CanFail, EndingOf, ResultsOf, VerdictOf;
    var init := InitialState(constraint, memory, names);
    InitialIsSane(machine, constraint, memory, names);
    var engine := new Engine(step, solver, eval, machine, init);
    assert forall e, tape :: Standing(init, e, tape) == Config(0, EvalAll(memory, e), tape);
    verdict, ending := engine.VerifyProgram(init, budget);
  }

  /** The engine on a program, executed instruction by instruction. */
  method VerifyAssertions(program: Program, constraint: Term, memory: seq<Term>, names: nat, solver: Solver,
                          eval: Evaluator, ghost base: Env, budget: nat)
    returns (verdict: Option<VeriResult>, ending: Ending)
    requires WellFormed(program, |memory|) && Sound(solver) && Evaluates(eval)
    requires Below(constraint, names) && forall i | 0 <= i < |memory| :: Below(memory[i], names)
    ensures
      var start := [InitialState(constraint, memory, names)];
      && ending == EndingOf(start, StepperOf(program), solver, budget) && (verdict.Some? <==> ending.Returned?)
      && (verdict.Some? ==> verdict.value == VerdictOf(ResultsOf(start, StepperOf(program), solver, budget)))
    ensures verdict == Some(HOLD) ==> !SomeFails(MachineOf(program, base), constraint, memory)
    ensures verdict == Some(FAIL) ==> SomeFails(MachineOf(program, base), constraint, memory)
    ensures verdict.Some? && Decides(solver) ==>
      verdict.value == if SomeFails(MachineOf(program, base), constraint, memory) then FAIL else HOLD
  {
    hide Executes, Sound, Evaluates, Decides, StaysPrecise, CanFail, Below, EndingOf, ResultsOf, VerdictOf, SomeFails;
    ProgramExecutes(program, base, InitialState(constraint, memory, names));
    verdict, ending :=
        RunEngine(StepperOf(program), MachineOf(program, base), constraint, memory, names, solver, eval, budget);
  }

  /* ---- where there is no verdict ---- */

  /** An assertion that is never defined, and an error call that no run reaches. */
  function UndefinedAssertion(): Program { [Assert(Claim(Flag(false), Flag(true))), ReachError] }

  /** No run of it fails, but whatever a solver that decides answers, the engine aborts at the error
      state behind the assertion. */
  lemma UndefinedAssertionAborts(solver: Solver, base: Env, budget: nat)
    requires Decides(solver)
    ensures var start := [InitialState(Flag(true), [], 0)];
      EndingOf(start, StepperOf(UndefinedAssertion()), solver, budget) == if budget >= 4 then Aborted else CutOff
    ensures !SomeFails(MachineOf(UndefinedAssertion(), base), Flag(true), [])
    ensures WellFormed(UndefinedAssertion(), 0)
  {
    var step := StepperOf(UndefinedAssertion());
    var init := InitialState(Flag(true), [], 0);
    var claim := Claim(Flag(false), Flag(true));
    var asserting := Moved(init, 1).(status := VERIFYING, claim := claim);
    assert ReadClaim(claim, init) == claim;
    assert Step(UndefinedAssertion(), init) == [asserting];
    var past := Verified(asserting);
    var error := past.(status := REACH_ERROR);
    assert Step(UndefinedAssertion(), past) == [error];
    NothingReaches(solver, asserting, error);
    OneTurn(init, asserting, step, solver, budget);
    if budget >= 1 { OneTurn(asserting, past, step, solver, budget - 1); }
    if budget >= 2 { OneTurn(past, error, step, solver, budget - 2); }
    forall e, tape ensures !CanFail(MachineOf(UndefinedAssertion(), base), Config(0, EvalAll([], e), tape)) {
      FailsNext(MachineOf(UndefinedAssertion(), base), Config(0, EvalAll([], e), tape));
    }
  }

  lemma NothingReaches(solver: Solver, asserting: SymState, error: SymState)
    requires Decides(solver) && asserting.claim == Claim(Flag(false), Flag(true))
    requires error.path == PathWith(asserting.path, asserting.claim)
    ensures solver(AssertionQuery(asserting)).Unsat? && solver(error.path).Unsat?
  {
    assert forall e :: !Holds(Flag(false), e);
    DecidesFalse(solver, AssertionQuery(asserting));
    DecidesFalse(solver, error.path);
  }

  lemma DecidesFalse(solver: Solver, f: Term)
    requires Decides(solver) && forall e :: !Holds(f, e)
    ensures solver(f).Unsat?
  {
  }

  /** A turn that replaces the one state on the stack. */
  lemma OneTurn(st: SymState, next: SymState, step: Stepper, solver: Solver, budget: nat)
    requires TurnOf(st, solver).Onward? && Successors(st, step, solver) == [next]
    ensures EndingOf([st], step, solver, budget) == if budget == 0 then CutOff
        else EndingOf([next], step, solver, budget - 1)
  {
    hide TurnOf, Successors;
    assert [st][..0] + [next] == [next];
  }
}
