/** Nests of scalar counted loops: programs, and what it means to run them to completion. */
module LoopNests {
  import opened Terms
  import opened ClosedForms

  datatype Predicate = EQ | NE | LT | LE | GT | GE

  /** The comparison of a header branch, and which outcome stays in the loop. */
  datatype Test = Test(predicate_: Predicate, left: Term, right: Term, continueOnTrue: bool)

  /** Scalar code with branches, assertions, error calls and child loops. The paths of a branch do
      not join again. A loop checks its header assertions on every visit to the header, then either
      leaves or runs its body. */
  datatype Code =
    | Skip
    | Error
    | Branch(cond: Term, thn: Code, els: Code)
    | Assign(x: nat, value: Term, next: Code)
    | Check(cond: Term, next: Code)
    | Nest(checks: seq<Term>, test: Test, body: Code, next: Code)

  function Compare(p: Predicate, a: int, b: int): bool {
    match p
    case EQ => a == b
    case NE => a != b
    case LT => a < b
    case LE => a <= b
    case GT => a > b
    case GE => a >= b
  }

  /** The comparisons: the strict ones are irreflexive and hold one way between different numbers, the
      others are their opposites, and zero is less than one. */
  lemma ComparisonLaws(a: int, b: int)
    ensures Compare(EQ, a, b) <==> a == b
    ensures Compare(LT, a, b) <==> Compare(GT, b, a)
    ensures Compare(LT, a, b) <==> !Compare(GE, a, b)
    ensures Compare(GT, a, b) <==> !Compare(LE, a, b)
    ensures Compare(NE, a, b) <==> Compare(LT, a, b) || Compare(LT, b, a)
    ensures !Compare(LT, a, a) && Compare(LT, a, a + 1)
  {
  }

  function Params(m: nat): (ids: seq<nat>)
    ensures |ids| == m && Distinct(ids)
    ensures forall i :: 0 <= i < m ==> ids[i] == i
    ensures forall id: nat :: id in ids <==> id < m
  {
    var ids := seq(m, i requires 0 <= i < m => i);
    assert forall id: nat :: id < m ==> id in ids by {
      forall id: nat | id < m ensures id in ids { assert ids[id] == id; }
    }
    ids
  }

  /** The environment in which the program's scalars have the values of a store. */
  ghost function Store(e: Env, m: nat, s: State): (b: Env)
    requires |s| == m
    ensures b.fns == e.fns
    ensures forall i :: 0 <= i < m ==> Lookup(b, i) == s[i]
    ensures forall id: nat :: id >= m ==> Lookup(b, id) == Lookup(e, id)
  {
    var b := Bind(e, Params(m), s);
    assert forall i :: 0 <= i < m ==> Lookup(b, Params(m)[i]) == s[i];
    b
  }

  /** A quantifier-free term over the program's scalars. */
  ghost predicate Scalar(t: Term, m: nat) {
    QuantifierFree(t) && forall id: nat :: Occurs(id, t) ==> id < m
  }

  ghost predicate AllScalar(ts: seq<Term>, m: nat) { forall i | 0 <= i < |ts| :: Scalar(ts[i], m) }

  ghost predicate WellScoped(code: Code, m: nat) {
    match code
    case Skip => true
    case Error => true
    case Branch(cond, thn, els) => Scalar(cond, m) && WellScoped(thn, m) && WellScoped(els, m)
    case Assign(x, value, next) => x < m && Scalar(value, m) && WellScoped(next, m)
    case Check(cond, next) => Scalar(cond, m) && WellScoped(next, m)
    case Nest(checks, test, body, next) =>
      AllScalar(checks, m) && Scalar(test.left, m) && Scalar(test.right, m) && WellScoped(body, m)
          && WellScoped(next, m)
  }

  /** The header branch stays in the loop. */
  ghost predicate Continues(test: Test, e: Env, s: State) {
    var b := Store(e, |s|, s);
    Compare(test.predicate_, Eval(test.left, b), Eval(test.right, b)) == test.continueOnTrue
  }

  ghost predicate ChecksHold(checks: seq<Term>, e: Env, s: State) {
    forall i | 0 <= i < |checks| :: Holds(checks[i], Store(e, |s|, s))
  }

  ghost function Assigned(x: nat, value: Term, e: Env, s: State): State {
    if x < |s| then s[x := Eval(value, Store(e, |s|, s))] else s
  }

  function End(trace: seq<State>): State {
    if trace == [] then [] else trace[|trace| - 1]
  }

  /* ---- complete runs ---- */

  /** The code runs to its end without a failed assertion, from one store to another. */
  ghost predicate Runs(code: Code, e: Env, s: State, s': State)
    decreases code, 0
  {
    match code
    case Skip => s == s'
    case Error => false
    case Branch(cond, thn, els) => if Holds(cond, Store(e, |s|, s)) then Runs(thn, e, s, s') else Runs(els, e, s, s')
    case Assign(x, value, next) => Runs(next, e, Assigned(x, value, e, s), s')
    case Check(cond, next) => Holds(cond, Store(e, |s|, s)) && Runs(next, e, s, s')
    case Nest(checks, test, body, next) =>
      exists trace :: LoopRuns(checks, test, body, e, s, trace) && Runs(next, e, End(trace), s')
  }

  /** A loop runs to its exit: the stores at its header visits, one body run apart. */
  ghost predicate LoopRuns(checks: seq<Term>, test: Test, body: Code, e: Env, s: State, trace: seq<State>)
    decreases body, 2
  {
    && Iterations(checks, test, body, e, s, trace)
    && ChecksHold(checks, e, End(trace)) && !Continues(test, e, End(trace))
  }

  /** The header stores of some complete iterations of a loop. */
  ghost predicate Iterations(checks: seq<Term>, test: Test, body: Code, e: Env, s: State, trace: seq<State>)
    decreases body, 1
  {
    && |trace| >= 1 && trace[0] == s
    && forall t | 0 <= t < |trace| - 1 ::
         ChecksHold(checks, e, trace[t]) && Continues(test, e, trace[t]) && Runs(body, e, trace[t], trace[t + 1])
  }

  /* ---- failures ---- */

  /** An assertion is reached and fails, in the code or in one of its loops. */
  ghost predicate Fails(code: Code, e: Env, s: State)
    decreases code, 3
  {
    match code
    case Skip => false
    case Error => true
    case Branch(cond, thn, els) => if Holds(cond, Store(e, |s|, s)) then Fails(thn, e, s) else Fails(els, e, s)
    case Assign(x, value, next) => Fails(next, e, Assigned(x, value, e, s))
    case Check(cond, next) => !Holds(cond, Store(e, |s|, s)) || Fails(next, e, s)
    case Nest(checks, test, body, next) =>
      || LoopFails(checks, test, body, e, s)
      || exists trace :: LoopRuns(checks, test, body, e, s, trace) && Fails(next, e, End(trace))
  }

  ghost predicate LoopFails(checks: seq<Term>, test: Test, body: Code, e: Env, s: State)
    decreases body, 5
  {
    exists trace :: Iterations(checks, test, body, e, s, trace) && FailsAt(checks, test, body, e, End(trace))
  }

  ghost predicate FailsAt(checks: seq<Term>, test: Test, body: Code, e: Env, s: State)
    decreases body, 4
  {
    !ChecksHold(checks, e, s) || (Continues(test, e, s) && Fails(body, e, s))
  }

  /* ---- execution is deterministic, and a complete run hits no failure ---- */

  lemma {:induction false} OneRun(code: Code, e: Env, s: State, a: State, b: State)
    requires Runs(code, e, s, a) && Runs(code, e, s, b)
    ensures a == b
    decreases code, 0
  {
    hide Iterations, LoopRuns, Continues, ChecksHold, Eval, Assigned, Store;
    match code
    case Skip =>
    case Branch(cond, thn, els) =>
      if Holds(cond, Store(e, |s|, s)) {
        OneRun(thn, e, s, a, b);
      } else {
        OneRun(els, e, s, a, b);
      }
    case Assign(x, value, next) => OneRun(next, e, Assigned(x, value, e, s), a, b);
    case Check(_, next) => OneRun(next, e, s, a, b);
    case Nest(checks, test, body, next) =>
      var u :| LoopRuns(checks, test, body, e, s, u) && Runs(next, e, End(u), a);
      var v :| LoopRuns(checks, test, body, e, s, v) && Runs(next, e, End(v), b);
      OneTrace(checks, test, body, e, s, u, v);
      OneRun(next, e, End(u), a, b);
  }

  /** The stores of complete iterations agree as far as both traces go. */
  lemma {:induction false} SameIterations(checks: seq<Term>, test: Test, body: Code, e: Env, s: State,
                                          u: seq<State>, v: seq<State>, t: nat)
    requires Iterations(checks, test, body, e, s, u) && Iterations(checks, test, body, e, s, v)
    requires t < |u| && t < |v|
    ensures u[t] == v[t]
    decreases body, 1, t
  {
    hide Runs, Continues, ChecksHold;
    if t > 0 {
      SameIterations(checks, test, body, e, s, u, v, t - 1);
      var r := t - 1;
      assert Runs(body, e, u[r], u[r + 1]) && Runs(body, e, v[r], v[r + 1]);
      OneRun(body, e, u[r], u[r + 1], v[r + 1]);
    }
  }

  lemma {:induction false} OneTrace(checks: seq<Term>, test: Test, body: Code, e: Env, s: State, u: seq<State>,
      v: seq<State>)
    requires LoopRuns(checks, test, body, e, s, u) && LoopRuns(checks, test, body, e, s, v)
    ensures u == v
    decreases body, 2
  {
    hide Runs, Continues, ChecksHold;
    if |u| < |v| { SameIterations(checks, test, body, e, s, u, v, |u| - 1); }
    if |v| < |u| { SameIterations(checks, test, body, e, s, u, v, |v| - 1); }
    forall t | 0 <= t < |u| ensures u[t] == v[t] { SameIterations(checks, test, body, e, s, u, v, t); }
  }

  lemma {:induction false} RunDoesNotFail(code: Code, e: Env, s: State, a: State)
    requires Runs(code, e, s, a)
    ensures !Fails(code, e, s)
    decreases code, 0
  {
    hide Iterations, LoopRuns, LoopFails, Continues, ChecksHold, Eval, Assigned, Store;
    match code
    case Skip =>
    case Branch(cond, thn, els) =>
      if Holds(cond, Store(e, |s|, s)) {
        RunDoesNotFail(thn, e, s, a);
      } else {
        RunDoesNotFail(els, e, s, a);
      }
    case Assign(x, value, next) => RunDoesNotFail(next, e, Assigned(x, value, e, s), a);
    case Check(_, next) => RunDoesNotFail(next, e, s, a);
    case Nest(checks, test, body, next) =>
      var u :| LoopRuns(checks, test, body, e, s, u) && Runs(next, e, End(u), a);
      LoopDoesNotFail(checks, test, body, e, s, u);
      RunDoesNotFail(next, e, End(u), a);
      forall v | LoopRuns(checks, test, body, e, s, v) ensures !Fails(next, e, End(v)) {
        OneTrace(checks, test, body, e, s, u, v);
      }
  }

  /** A loop that runs to its exit hits no failed assertion, in any iteration or child. */
  lemma {:induction false} LoopDoesNotFail(checks: seq<Term>, test: Test, body: Code, e: Env, s: State, u: seq<State>)
    requires LoopRuns(checks, test, body, e, s, u)
    ensures !LoopFails(checks, test, body, e, s)
    decreases body, 3
  {
    hide Runs, Continues, ChecksHold, Fails;
    forall v | Iterations(checks, test, body, e, s, v) ensures !FailsAt(checks, test, body, e, End(v)) {
      if |v| > |u| {
        SameIterations(checks, test, body, e, s, u, v, |u| - 1);
      } else {
        SameIterations(checks, test, body, e, s, u, v, |v| - 1);
        if |v| < |u| {
          var r := |v| - 1;
          assert Runs(body, e, u[r], u[r + 1]);
          RunDoesNotFail(body, e, u[r], u[r + 1]);
        }
      }
    }
  }

  /* ---- what a body can change ---- */

  predicate Modifies(code: Code, x: nat) {
    match code
    case Skip => false
    case Error => false
    case Branch(_, thn, els) => Modifies(thn, x) || Modifies(els, x)
    case Assign(y, _, next) => x == y || Modifies(next, x)
    case Check(_, next) => Modifies(next, x)
    case Nest(_, _, body, next) => Modifies(body, x) || Modifies(next, x)
  }

  /** Runs keep the width of the store and every scalar the code does not assign. */
  lemma {:induction false} RunKeeps(code: Code, e: Env, s: State, a: State)
    requires Runs(code, e, s, a)
    ensures |a| == |s| && forall x :: 0 <= x < |s| && !Modifies(code, x) ==> a[x] == s[x]
    decreases code, 0
  {
    hide Iterations, Continues, ChecksHold, Eval, Store;
    match code
    case Skip =>
    case Branch(cond, thn, els) =>
      if Holds(cond, Store(e, |s|, s)) {
        RunKeeps(thn, e, s, a);
      } else {
        RunKeeps(els, e, s, a);
      }
    case Assign(x, value, next) => RunKeeps(next, e, Assigned(x, value, e, s), a);
    case Check(_, next) => RunKeeps(next, e, s, a);
    case Nest(checks, test, body, next) =>
      var u :| LoopRuns(checks, test, body, e, s, u) && Runs(next, e, End(u), a);
      LoopKeeps(checks, test, body, e, s, u);
      RunKeeps(next, e, End(u), a);
  }

  lemma {:induction false} IterationsKeep(checks: seq<Term>, test: Test, body: Code, e: Env, s: State, u: seq<State>,
      t: nat)
    requires Iterations(checks, test, body, e, s, u) && t < |u|
    ensures |u[t]| == |s| && forall x :: 0 <= x < |s| && !Modifies(body, x) ==> u[t][x] == s[x]
    decreases body, 1, t
  {
    hide Runs, Continues, ChecksHold;
    if t > 0 {
      IterationsKeep(checks, test, body, e, s, u, t - 1);
      var r := t - 1;
      assert Runs(body, e, u[r], u[r + 1]);
      RunKeeps(body, e, u[r], u[r + 1]);
    }
  }

  lemma {:induction false} LoopKeeps(checks: seq<Term>, test: Test, body: Code, e: Env, s: State, u: seq<State>)
    requires LoopRuns(checks, test, body, e, s, u)
    ensures |End(u)| == |s| && forall x :: 0 <= x < |s| && !Modifies(body, x) ==> End(u)[x] == s[x]
    decreases body, 2
  {
    hide Runs, Continues, ChecksHold;
    IterationsKeep(checks, test, body, e, s, u, |u| - 1);
  }
}
