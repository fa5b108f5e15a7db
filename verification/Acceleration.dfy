/** Jumping a deterministic loop to the first break of a repeated path word, and the residual that
    keeps every state the jump does not cover. */
module Acceleration {
  import opened Terms
  import opened PathWords
  import opened ClosedForms

  /** A loop by its parameters and its enumerated one-iteration paths. */
  datatype Loop = Loop(params: seq<nat>, trs: map<Symbol, Transition>)

  /** Parameters are distinct, and paths are over plain terms and of the loop's width. */
  ghost predicate WellFormed(loop: Loop) {
    && Distinct(loop.params) && PlainTransitions(loop.trs)
    && forall p | p in loop.trs :: |loop.trs[p].updates| == |loop.params|
  }

  ghost predicate Enabled(loop: Loop, p: Symbol, e: Env, s: State)
    requires WellFormed(loop) && |s| == |loop.params|
  {
    p in loop.trs && Holds(loop.trs[p].guard, Bind(e, loop.params, s))
  }

  /** At most one path can be taken from a header state: the loop is deterministic. */
  ghost predicate Deterministic(loop: Loop)
    requires WellFormed(loop)
  {
    forall e: Env, s: State, p, q | |s| == |loop.params| && Enabled(loop, p, e, s) && Enabled(loop, q, e, s) :: p == q
  }

  /** The word is executed from a header state, one enabled iteration after the other. */
  ghost predicate Runs(loop: Loop, word: Word, e: Env, s: State)
    requires WellFormed(loop) && |s| == |loop.params|
  {
    Composable(word, loop.trs, |loop.params|) && GuardsAlong(word, loop.trs, loop.params, e, s)
  }

  ghost function After(loop: Loop, word: Word, e: Env, s: State): (t: State)
    requires WellFormed(loop) && |s| == |loop.params| && Runs(loop, word, e, s)
    ensures |t| == |s|
  {
    Along(word, loop.trs, loop.params, e, s)
  }

  /** The run of the word ends where no path is enabled: the loop leaves from that header state. */
  ghost predicate Exits(loop: Loop, word: Word, e: Env, s: State, t: State)
    requires WellFormed(loop) && |s| == |loop.params|
  {
    Runs(loop, word, e, s) && t == After(loop, word, e, s) && forall p :: !Enabled(loop, p, e, t)
  }

  /* ---- runs compose, and a deterministic loop has one run ---- */

  lemma {:induction false} RunsConcat(loop: Loop, u: Word, v: Word, e: Env, s: State)
    requires WellFormed(loop) && |s| == |loop.params|
    ensures Runs(loop, u + v, e, s) <==> Runs(loop, u, e, s) && Runs(loop, v, e, After(loop, u, e, s))
    ensures Runs(loop, u + v, e, s) ==> After(loop, u + v, e, s) == After(loop, v, e, After(loop, u, e, s))
    decreases |v|
  {
    if v == [] {
      assert u + v == u;
    } else {
      var n := |v| - 1;
      assert (u + v)[..|u + v| - 1] == u + v[..n] && (u + v)[|u + v| - 1] == v[n];
      RunsConcat(loop, u, v[..n], e, s);
      RunsSnoc(loop, u + v, e, s);
      if Runs(loop, u, e, s) { RunsSnoc(loop, v, e, After(loop, u, e, s)); }
    }
  }

  lemma RunsSnoc(loop: Loop, w: Word, e: Env, s: State)
    requires WellFormed(loop) && |s| == |loop.params| && w != []
    ensures var init, p := w[..|w| - 1], w[|w| - 1];
      && (Runs(loop, w, e, s) <==> Runs(loop, init, e, s) && Enabled(loop, p, e, After(loop, init, e, s)))
      && (Runs(loop, w, e, s) ==> After(loop, w, e, s) == Step(loop.trs[p], loop.params, e, After(loop, init, e, s)))
  {
    var init, p := w[..|w| - 1], w[|w| - 1];
    assert w == init + [p];
    assert Composable(w, loop.trs, |loop.params|) <==> Composable(init, loop.trs, |loop.params|) && p in loop.trs by {
      assert forall i | 0 <= i < |init| :: w[i] == init[i];
      assert w[|init|] == p;
    }
  }

  lemma RunsOne(loop: Loop, p: Symbol, e: Env, s: State)
    requires WellFormed(loop) && |s| == |loop.params|
    ensures Runs(loop, [p], e, s) <==> Enabled(loop, p, e, s)
  {
    RunsSnoc(loop, [p], e, s);
    assert [p][..0] == [];
  }

  /** Any two runs from one state are the same as far as the shorter goes. */
  lemma {:induction false} SameRun(loop: Loop, u: Word, v: Word, e: Env, s: State)
    requires WellFormed(loop) && Deterministic(loop) && |s| == |loop.params|
    requires Runs(loop, u, e, s) && Runs(loop, v, e, s) && |u| <= |v|
    ensures u == v[..|u|]
    decreases |u|
  {
    hide Enabled, Runs, WellFormed;
    if u != [] {
      var n := |u| - 1;
      RunsSnoc(loop, u, e, s);
      RunsConcat(loop, v[..|u|], v[|u|..], e, s);
      assert v == v[..|u|] + v[|u|..];
      RunsSnoc(loop, v[..|u|], e, s);
      assert v[..|u|][..n] == v[..n];
      SameRun(loop, u[..n], v[..n], e, s);
      assert u[..n] == v[..n] && v[..|u|][n] == v[n];
      assert Enabled(loop, u[n], e, After(loop, u[..n], e, s)) && Enabled(loop, v[n], e, After(loop, u[..n], e, s));
      assert u == u[..n] + [u[n]] && v[..|u|] == v[..n] + [v[n]];
    }
  }

  /** From every state inside a run the loop goes on, so it does not exit there. */
  lemma NoExitInside(loop: Loop, w: Word, e: Env, s: State, i: nat, t: State)
    requires WellFormed(loop) && |s| == |loop.params|
    requires Runs(loop, w, e, s) && i < |w|
    ensures !Exits(loop, w[..i], e, s, t)
  {
    assert w == w[..i + 1] + w[i + 1..];
    RunsConcat(loop, w[..i + 1], w[i + 1..], e, s);
    RunsSnoc(loop, w[..i + 1], e, s);
    assert w[..i + 1][..i] == w[..i];
  }

  /* ---- the first break ---- */

  /** The symbolic state at a loop header: what is known, and the header values as terms. */
  datatype Symbolic = Symbolic(path: Term, header: seq<Term>)

  ghost function HeaderState(st: Symbolic, e: Env): (s: State)
    ensures |s| == |st.header|
  {
    EvalAll(st.header, e)
  }

  /** The k-th iterate of a word's composite map from a header state. */
  ghost function Iterated(loop: Loop, sol: Solution, e: Env, s: State, k: nat): (t: State)
    requires WellFormed(loop) && |s| == |loop.params| == |sol.oneStep|
    ensures |t| == |s|
  {
    Iterate(sol.oneStep, loop.params, e, s, k)
  }

  ghost predicate GuardAt(loop: Loop, sol: Solution, e: Env, s: State, k: nat)
    requires WellFormed(loop) && |s| == |loop.params| == |sol.oneStep|
  {
    Holds(sol.guard, Bind(e, loop.params, Iterated(loop, sol, e, s, k)))
  }

  /** k is at least one, the word is enabled at every earlier iterate, and not at the k-th. */
  ghost predicate FirstBreak(loop: Loop, sol: Solution, e: Env, s: State, k: int)
    requires WellFormed(loop) && |s| == |loop.params| == |sol.oneStep|
  {
    k >= 1 && (forall t: nat | t < k :: GuardAt(loop, sol, e, s, t)) && !GuardAt(loop, sol, e, s, k)
  }

  /** At most one k is a first break. */
  lemma FirstBreakUnique(loop: Loop, sol: Solution, e: Env, s: State, k: int, l: int)
    requires WellFormed(loop) && |s| == |loop.params| == |sol.oneStep|
    requires FirstBreak(loop, sol, e, s, k) && FirstBreak(loop, sol, e, s, l)
    ensures k == l
  {
  }

  /** The solution of a word is what solve_composite certified. */
  ghost predicate Solves(loop: Loop, star: Word, ind: nat, sol: Solution)
    requires WellFormed(loop)
  {
    && Composite(star, loop.trs, loop.params, sol.guard, sol.oneStep)
    && Closes(sol.oneStep, sol.closed, loop.params, ind)
  }

  /** As long as the composite guard holds, whole copies of the word are executed, and they lead to
      the iterates of its map. */
  lemma {:induction false} RunsRepeated(loop: Loop, star: Word, ind: nat, sol: Solution, e: Env, s: State, k: nat)
    requires WellFormed(loop) && Solves(loop, star, ind, sol) && |s| == |loop.params|
    ensures |sol.oneStep| == |s|
    ensures (forall t: nat | t < k :: GuardAt(loop, sol, e, s, t)) <==> Runs(loop, Repeat(star, k), e, s)
    ensures Runs(loop, Repeat(star, k), e, s) ==> After(loop, Repeat(star, k), e, s) == Iterated(loop, sol, e, s, k)
  {
    hide Runs, WellFormed, Composite, Closes, GuardAt, After;
    SolvesShape(loop, star, ind, sol);
    RunsNothing(loop, e, s);
    if k > 0 {
      RunsRepeated(loop, star, ind, sol, e, s, k - 1);
      RepeatSnoc(star, k - 1);
      RunsConcat(loop, Repeat(star, k - 1), star, e, s);
      NextIterate(loop, star, ind, sol, e, s, k);
      assert (forall t: nat | t < k :: GuardAt(loop, sol, e, s, t))
        <==> (forall t: nat | t < k - 1 :: GuardAt(loop, sol, e, s, t)) && GuardAt(loop, sol, e, s, k - 1);
    }
  }

  lemma SolvesShape(loop: Loop, star: Word, ind: nat, sol: Solution)
    requires WellFormed(loop) && Solves(loop, star, ind, sol)
    ensures |sol.oneStep| == |loop.params| == |sol.closed|
  {
  }

  lemma RunsNothing(loop: Loop, e: Env, s: State)
    requires WellFormed(loop) && |s| == |loop.params|
    ensures Runs(loop, [], e, s) && After(loop, [], e, s) == s
  {
  }

  lemma NextIterate(loop: Loop, star: Word, ind: nat, sol: Solution, e: Env, s: State, k: nat)
    requires WellFormed(loop) && Solves(loop, star, ind, sol) && |s| == |loop.params| && k > 0
    ensures |sol.oneStep| == |s|
    ensures var mid := Iterated(loop, sol, e, s, k - 1);
      && (GuardAt(loop, sol, e, s, k - 1) <==> Runs(loop, star, e, mid))
      && (Runs(loop, star, e, mid) ==> After(loop, star, e, mid) == Iterated(loop, sol, e, s, k))
  {
    CompositeStep(loop, star, ind, sol, e, Iterated(loop, sol, e, s, k - 1));
  }

  lemma CompositeStep(loop: Loop, star: Word, ind: nat, sol: Solution, e: Env, mid: State)
    requires WellFormed(loop) && Solves(loop, star, ind, sol) && |mid| == |loop.params|
    ensures Holds(sol.guard, Bind(e, loop.params, mid)) <==> Runs(loop, star, e, mid)
    ensures EvalAll(sol.oneStep, Bind(e, loop.params, mid)) == Along(star, loop.trs, loop.params, e, mid)
  {
  }

  /** The jump theorem: with a first break at k, exactly k copies of the word are executed without
      an exit in between, and the exits of the loop are the exits from the k-th iterate. */
  lemma JumpIsExact(loop: Loop, star: Word, ind: nat, sol: Solution, e: Env, s: State, k: nat, word: Word, t: State)
    requires WellFormed(loop) && Deterministic(loop) && Solves(loop, star, ind, sol) && |s| == |loop.params|
    requires |sol.oneStep| == |s| && FirstBreak(loop, sol, e, s, k)
    ensures Runs(loop, Repeat(star, k), e, s) && After(loop, Repeat(star, k), e, s) == Iterated(loop, sol, e, s, k)
    ensures |Repeat(star, k)| == k * |star|
    ensures forall i, u :: 0 <= i < k * |star| ==> !Exits(loop, Repeat(star, k)[..i], e, s, u)
    ensures Exits(loop, word, e, s, t) <==>
      exists rest :: word == Repeat(star, k) + rest && Exits(loop, rest, e, Iterated(loop, sol, e, s, k), t)
  {
    hide Solves, FirstBreak, Runs, Enabled, WellFormed, Deterministic;
    RunsRepeated(loop, star, ind, sol, e, s, k);
    BreakGuards(loop, sol, e, s, k);
    RepeatLength(star, k);
    var jump := Repeat(star, k);
    forall i, u | 0 <= i < k * |star| ensures !Exits(loop, jump[..i], e, s, u) {
      NoExitInside(loop, jump, e, s, i, u);
    }
    ExitsAfter(loop, jump, e, s, word, t);
  }

  lemma BreakGuards(loop: Loop, sol: Solution, e: Env, s: State, k: nat)
    requires WellFormed(loop) && |s| == |loop.params| == |sol.oneStep|
    requires FirstBreak(loop, sol, e, s, k)
    ensures forall i: nat | i < k :: GuardAt(loop, sol, e, s, i)
  {
  }

  /** The exits of a deterministic loop are the exits after any of its runs. */
  lemma ExitsAfter(loop: Loop, jump: Word, e: Env, s: State, word: Word, t: State)
    requires WellFormed(loop) && Deterministic(loop) && |s| == |loop.params| && Runs(loop, jump, e, s)
    ensures Exits(loop, word, e, s, t) <==>
      exists rest :: word == jump + rest && Exits(loop, rest, e, After(loop, jump, e, s), t)
  {
    hide Enabled, WellFormed, Deterministic, Runs;
    if Exits(loop, word, e, s, t) {
      if |word| < |jump| {
        SameRun(loop, word, jump, e, s);
        NoExitInside(loop, jump, e, s, |word|, t);
        assert false;
      }
      SameRun(loop, jump, word, e, s);
      var rest := word[|jump|..];
      assert word == jump + rest;
      RunsConcat(loop, jump, rest, e, s);
      assert Exits(loop, rest, e, After(loop, jump, e, s), t);
    }
    forall rest | word == jump + rest && Exits(loop, rest, e, After(loop, jump, e, s), t)
      ensures Exits(loop, word, e, s, t)
    {
      RunsConcat(loop, jump, rest, e, s);
    }
  }

  /* ---- fresh names ---- */

  /** The environments differ at most on one name. */
  ghost predicate AgreeBut(e: Env, e': Env, name: nat) {
    e.fns == e'.fns && forall id :: id != name ==> Lookup(e, id) == Lookup(e', id)
  }

  /** A name the loop does not use. */
  ghost predicate Unused(loop: Loop, name: nat) {
    name !in loop.params && !Mentions(loop.trs, name)
  }

  lemma BindAgree(t: Term, loop: Loop, e: Env, e': Env, name: nat, s: State)
    requires WellFormed(loop) && Unused(loop, name) && AgreeBut(e, e', name) && |s| == |loop.params|
    requires Over(t, loop.params, loop.trs)
    ensures Eval(t, Bind(e, loop.params, s)) == Eval(t, Bind(e', loop.params, s))
  {
    hide Mentions, Eval, QuantifierFree, Occurs, WellFormed;
    ParamsDistinct(loop);
    var b, b' := Bind(e, loop.params, s), Bind(e', loop.params, s);
    forall id | Occurs(id, t) ensures Lookup(b, id) == Lookup(b', id) {
      if id in loop.params {
        var i :| 0 <= i < |s| && loop.params[i] == id;
        assert Lookup(b, loop.params[i]) == s[i] == Lookup(b', loop.params[i]);
      }
    }
    EvalAgree(t, b, b');
  }

  lemma ParamsDistinct(loop: Loop)
    requires WellFormed(loop)
    ensures Distinct(loop.params)
  {
  }

  /** Iterates and guards do not see a name the loop does not use. */
  lemma {:induction false} IterateAgree(loop: Loop, sol: Solution, e: Env, e': Env, name: nat, s: State, k: nat)
    requires WellFormed(loop) && Unused(loop, name) && AgreeBut(e, e', name)
    requires |s| == |loop.params| == |sol.oneStep|
    requires Over(sol.guard, loop.params, loop.trs) && AllOver(sol.oneStep, loop.params, loop.trs)
    ensures Iterated(loop, sol, e, s, k) == Iterated(loop, sol, e', s, k)
    ensures GuardAt(loop, sol, e, s, k) <==> GuardAt(loop, sol, e', s, k)
  {
    hide Over, Unused, AgreeBut, Eval, WellFormed, Occurs, QuantifierFree, Bind;
    ParamsDistinct(loop);
    if k > 0 {
      IterateAgree(loop, sol, e, e', name, s, k - 1);
      var mid := Iterated(loop, sol, e, s, k - 1);
      forall i | 0 <= i < |s|
        ensures EvalAll(sol.oneStep, Bind(e, loop.params, mid))[i] ==
            EvalAll(sol.oneStep, Bind(e', loop.params, mid))[i]
      {
        BindAgree(sol.oneStep[i], loop, e, e', name, mid);
      }
    }
    BindAgree(sol.guard, loop, e, e', name, Iterated(loop, sol, e, s, k));
  }

  lemma EnabledAgree(loop: Loop, p: Symbol, e: Env, e': Env, name: nat, s: State)
    requires WellFormed(loop) && Unused(loop, name) && AgreeBut(e, e', name) && |s| == |loop.params|
    ensures Enabled(loop, p, e, s) <==> Enabled(loop, p, e', s)
    ensures p in loop.trs ==> Step(loop.trs[p], loop.params, e, s) == Step(loop.trs[p], loop.params, e', s)
  {
    hide Over, Unused, AgreeBut, Eval, Mentions;
    if p in loop.trs {
      GuardOver(loop.trs, p, loop.params);
      BindAgree(loop.trs[p].guard, loop, e, e', name, s);
      forall i | 0 <= i < |s|
        ensures Step(loop.trs[p], loop.params, e, s)[i] == Step(loop.trs[p], loop.params, e', s)[i]
      {
        UpdateOver(loop.trs, p, loop.params, i);
        BindAgree(loop.trs[p].updates[i], loop, e, e', name, s);
      }
    }
  }

  lemma {:induction false} RunsAgree(loop: Loop, w: Word, e: Env, e': Env, name: nat, s: State)
    requires WellFormed(loop) && Unused(loop, name) && AgreeBut(e, e', name) && |s| == |loop.params|
    ensures Runs(loop, w, e, s) <==> Runs(loop, w, e', s)
    ensures Runs(loop, w, e, s) ==> After(loop, w, e, s) == After(loop, w, e', s)
    decreases |w|
  {
    hide Runs, WellFormed, Unused, AgreeBut, After;
    if w == [] {
      RunsNothing(loop, e, s);
      RunsNothing(loop, e', s);
    } else {
      var init := w[..|w| - 1];
      RunsAgree(loop, init, e, e', name, s);
      RunsSnoc(loop, w, e, s);
      RunsSnoc(loop, w, e', s);
      if Runs(loop, init, e, s) {
        EnabledAgree(loop, w[|w| - 1], e, e', name, After(loop, init, e, s));
      }
    }
  }

  lemma ExitsAgree(loop: Loop, w: Word, e: Env, e': Env, name: nat, s: State, t: State)
    requires WellFormed(loop) && Unused(loop, name) && AgreeBut(e, e', name) && |s| == |loop.params|
    ensures Exits(loop, w, e, s, t) <==> Exits(loop, w, e', s, t)
  {
    hide Runs, Enabled, WellFormed, Unused, AgreeBut, After;
    RunsAgree(loop, w, e, e', name, s);
    if Runs(loop, w, e, s) {
      var u := After(loop, w, e, s);
      forall p ensures Enabled(loop, p, e, u) <==> Enabled(loop, p, e', u) {
        EnabledAgree(loop, p, e, e', name, u);
      }
    }
  }

  /* ---- the first-break formula ---- */

  /** The closed forms read from the current header values. */
  function ClosedFromCurrent(loop: Loop, sol: Solution, header: seq<Term>): seq<Term>
    requires Distinct(loop.params) && |header| == |loop.params|
  {
    ReplaceAll(sol.closed, ParamMap(loop.params, header))
  }

  /** The composite guard along the closed form. */
  function GuardClosed(loop: Loop, sol: Solution, header: seq<Term>): Term
    requires Distinct(loop.params) && |header| == |loop.params| == |sol.closed|
  {
    Replace(sol.guard, ParamMap(loop.params, ClosedFromCurrent(loop, sol, header)))
  }

  function InRange(probe: nat, count: Term): Term {
    Conj(AtMost(Num(0), Var(probe)), Less(Var(probe), count))
  }

  function FirstBreakFormula(loop: Loop, sol: Solution, header: seq<Term>, ind: nat, count: nat, probe: nat): Term
    requires Distinct(loop.params) && |header| == |loop.params| == |sol.closed|
  {
    var guard := GuardClosed(loop, sol, header);
    Conj(Conj(AtMost(Num(1), Var(count)),
              ForAll(probe, Implies(InRange(probe, Var(count)), Replace(guard, map[Var(ind) := Var(probe)])))),
         Negate(Replace(guard, map[Var(ind) := Var(count)])))
  }

  /** The induction variable, the count and the probe are new names. */
  ghost predicate FreshNames(loop: Loop, st: Symbolic, ind: nat, count: nat, probe: nat) {
    && ind != count && ind != probe && count != probe
    && Unused(loop, ind) && Unused(loop, count) && Unused(loop, probe)
    && !DependsOn(st.header, ind) && !DependsOn(st.header, count) && !DependsOn(st.header, probe)
    && !Occurs(count, st.path)
  }

  lemma EvalUnused(ts: seq<Term>, e: Env, e': Env, name: nat)
    requires AgreeBut(e, e', name) && !DependsOn(ts, name)
    ensures EvalAll(ts, e) == EvalAll(ts, e')
  {
    forall i | 0 <= i < |ts| ensures EvalAll(ts, e)[i] == EvalAll(ts, e')[i] { EvalAgree(ts[i], e, e'); }
  }

  /** Reading the guard along the closed form with the induction variable at n is reading the guard
      at the n-th iterate. */
  lemma GuardClosedMeans(loop: Loop, star: Word, ind: nat, sol: Solution, header: seq<Term>, e: Env, n: nat)
    requires WellFormed(loop) && Solves(loop, star, ind, sol)
        && |header| == |loop.params| == |sol.closed| == |sol.oneStep|
    requires Plain(sol.closed) && Plain(header) && Unused(loop, ind) && !DependsOn(header, ind)
    requires Distinct(loop.params)
    ensures Eval(GuardClosed(loop, sol, header), Set(e, ind, n)) ==
        Eval(sol.guard, Bind(e, loop.params, Iterated(loop, sol, e, EvalAll(header, e), n)))
  {
    hide *;
    var en, s := Set(e, ind, n), EvalAll(header, e);
    var closed := ClosedFromCurrent(loop, sol, header);
    var mid := Iterated(loop, sol, e, s, n);
    ClosedReaches(loop, star, ind, sol, header, e, n);
    SolvesParts(loop, star, ind, sol);
    GuardIsOver(loop, star, sol);
    GuardInState(loop, sol.guard, closed, en, mid);
    SetAgrees(e, ind, n);
    BindAgree(sol.guard, loop, en, e, ind, mid);
    GuardClosedIs(loop, sol, header);
  }

  lemma GuardClosedIs(loop: Loop, sol: Solution, header: seq<Term>)
    requires Distinct(loop.params) && |header| == |loop.params| == |sol.closed|
    ensures |ClosedFromCurrent(loop, sol, header)| == |loop.params|
    ensures GuardClosed(loop, sol, header) ==
        Replace(sol.guard, ParamMap(loop.params, ClosedFromCurrent(loop, sol, header)))
  {
  }

  lemma SetAgrees(e: Env, name: nat, n: int)
    ensures AgreeBut(Set(e, name, n), e, name) && AgreeBut(e, Set(e, name, n), name)
  {
  }

  lemma SolvesParts(loop: Loop, star: Word, ind: nat, sol: Solution)
    requires WellFormed(loop) && Solves(loop, star, ind, sol)
    ensures Composite(star, loop.trs, loop.params, sol.guard, sol.oneStep)
  {
  }

  lemma GuardInState(loop: Loop, guard: Term, closed: seq<Term>, en: Env, mid: State)
    requires Distinct(loop.params) && |closed| == |loop.params| == |mid| && Over(guard, loop.params, loop.trs)
    requires EvalAll(closed, en) == mid
    ensures Eval(Replace(guard, ParamMap(loop.params, closed)), en) == Eval(guard, Bind(en, loop.params, mid))
  {
    hide Replace, Occurs, QuantifierFree, Eval;
    OverIsPlain(guard, loop);
    NoCapture(guard, ParamMap(loop.params, closed));
    assert forall i :: 0 <= i < |mid| ==> mid[i] == EvalAll(closed, en)[i];
    EvalParams(guard, loop.params, closed, en, Bind(en, loop.params, mid));
  }

  /** The closed forms at n from the current values are the n-th iterate from there. */
  lemma ClosedReaches(loop: Loop, star: Word, ind: nat, sol: Solution, header: seq<Term>, e: Env, n: nat)
    requires WellFormed(loop) && Solves(loop, star, ind, sol)
        && |header| == |loop.params| == |sol.closed| == |sol.oneStep|
    requires Plain(sol.closed) && Plain(header) && Unused(loop, ind) && !DependsOn(header, ind)
    requires Distinct(loop.params)
    ensures |ClosedFromCurrent(loop, sol, header)| == |loop.params|
    ensures EvalAll(ClosedFromCurrent(loop, sol, header), Set(e, ind, n)) ==
        Iterated(loop, sol, e, EvalAll(header, e), n)
  {
    hide Replace, Occurs, QuantifierFree, WellFormed, Composite, DependsOn, Eval, At, Bind, Iterate, ClosedFromCurrent,
        Plain;
    var closed, s := ClosedFromCurrent(loop, sol, header), EvalAll(header, e);
    ClosedWidth(loop, sol, header);
    UnusedParam(loop, ind);
    assert EvalAll(sol.closed, At(e, loop.params, s, ind, n)) == Iterate(sol.oneStep, loop.params, e, s, n);
    forall i | 0 <= i < |sol.closed|
      ensures EvalAll(closed, Set(e, ind, n))[i] == EvalAll(sol.closed, At(e, loop.params, s, ind, n))[i]
    {
      ClosedAt(loop, sol, header, ind, e, n, i);
    }
  }

  lemma ClosedWidth(loop: Loop, sol: Solution, header: seq<Term>)
    requires Distinct(loop.params) && |header| == |loop.params|
    ensures |ClosedFromCurrent(loop, sol, header)| == |sol.closed|
  {
  }

  lemma UnusedParam(loop: Loop, name: nat)
    requires Unused(loop, name)
    ensures name !in loop.params
  {
  }

  lemma GuardIsOver(loop: Loop, star: Word, sol: Solution)
    requires Distinct(loop.params) && Composite(star, loop.trs, loop.params, sol.guard, sol.oneStep)
    ensures Over(sol.guard, loop.params, loop.trs) && AllOver(sol.oneStep, loop.params, loop.trs)
  {
  }

  lemma OverIsPlain(t: Term, loop: Loop)
    requires Over(t, loop.params, loop.trs)
    ensures QuantifierFree(t)
  {
  }

  lemma ClosedAt(loop: Loop, sol: Solution, header: seq<Term>, ind: nat, e: Env, n: nat, i: nat)
    requires Distinct(loop.params) && |header| == |loop.params| && i < |sol.closed| && Plain(sol.closed)
    requires ind !in loop.params && !DependsOn(header, ind)
    ensures Eval(ClosedFromCurrent(loop, sol, header)[i], Set(e, ind, n))
         == Eval(sol.closed[i], At(e, loop.params, EvalAll(header, e), ind, n))
  {
    hide Replace, Occurs, QuantifierFree, DependsOn;
    var en := Set(e, ind, n);
    EvalUnused(header, e, en, ind);
    NoCapture(sol.closed[i], ParamMap(loop.params, header));
    EvalParams(sol.closed[i], loop.params, header, en, At(e, loop.params, EvalAll(header, e), ind, n));
  }

  lemma GuardClosedPlain(loop: Loop, sol: Solution, header: seq<Term>)
    requires Distinct(loop.params) && |header| == |loop.params| == |sol.closed|
    requires Plain(sol.closed) && Plain(header) && QuantifierFree(sol.guard)
    ensures QuantifierFree(GuardClosed(loop, sol, header))
  {
    hide Replace, QuantifierFree;
    var m := ParamMap(loop.params, header);
    var closed := ClosedFromCurrent(loop, sol, header);
    forall i | 0 <= i < |closed| ensures QuantifierFree(closed[i]) { ReplaceQuantifierFree(sol.closed[i], m); }
    ReplaceQuantifierFree(sol.guard, ParamMap(loop.params, closed));
  }

  /** Everything the formula lemmas need about a solution at a header. */
  ghost predicate Ready(loop: Loop, star: Word, ind: nat, sol: Solution, header: seq<Term>) {
    && WellFormed(loop) && Solves(loop, star, ind, sol) && Unused(loop, ind) && !DependsOn(header, ind)
    && |header| == |loop.params| == |sol.closed| == |sol.oneStep| && Plain(sol.closed) && Plain(header)
  }

  /** The guard along the closed form with the induction variable replaced by another name is the
      guard at the iterate that name counts. */
  lemma GuardNamed(loop: Loop, star: Word, ind: nat, sol: Solution, header: seq<Term>, name: nat, e: Env)
    requires Ready(loop, star, ind, sol, header) && name != ind && Lookup(e, name) >= 0 && Distinct(loop.params)
    ensures Holds(Replace(GuardClosed(loop, sol, header), map[Var(ind) := Var(name)]), e)
        <==> GuardAt(loop, sol, e, EvalAll(header, e), Lookup(e, name))
  {
    hide Replace, Occurs, QuantifierFree, DependsOn, GuardClosed, Composite, Closes, WellFormed, Unused;
    var m := map[Var(ind) := Var(name)];
    var guard := GuardClosed(loop, sol, header);
    GuardIsOver(loop, star, sol);
    OverIsPlain(sol.guard, loop);
    GuardClosedPlain(loop, sol, header);
    NoCapture(guard, m);
    EvalReplace(guard, m, e, Set(e, ind, Lookup(e, name)));
    GuardClosedMeans(loop, star, ind, sol, header, e, Lookup(e, name));
  }

  /** The first-break formula says exactly that the count is the first break. */
  lemma FirstBreakMeans(loop: Loop, star: Word, ind: nat, sol: Solution, header: seq<Term>,
                        count: nat, probe: nat, e: Env)
    requires Ready(loop, star, ind, sol, header) && Distinct(loop.params)
    requires ind != count && ind != probe && count != probe && Unused(loop, probe) && !DependsOn(header, probe)
    ensures Holds(FirstBreakFormula(loop, sol, header, ind, count, probe), e)
        <==> FirstBreak(loop, sol, e, EvalAll(header, e), Lookup(e, count))
  {
    hide Replace, Occurs, QuantifierFree, DependsOn, GuardClosed, Composite, Closes, WellFormed, Unused, GuardAt;
    var guard := GuardClosed(loop, sol, header);
    var s, k := EvalAll(header, e), Lookup(e, count);
    var body := Implies(InRange(probe, Var(count)), Replace(guard, map[Var(ind) := Var(probe)]));
    FirstBreakParts(loop, sol, header, ind, count, probe, e);
    if k >= 1 {
      GuardNamed(loop, star, ind, sol, header, count, e);
      forall t: int ensures Holds(body, Set(e, probe, t)) <==> (0 <= t < k ==> GuardAt(loop, sol, e, s, t)) {
        BodyMeans(loop, star, ind, sol, header, count, probe, e, t);
      }
      if forall t: int :: Holds(body, Set(e, probe, t)) {
        forall t: nat | t < k ensures GuardAt(loop, sol, e, s, t) { assert Holds(body, Set(e, probe, t)); }
      }
      if forall t: nat | t < k :: GuardAt(loop, sol, e, s, t) {
        forall t: int ensures Holds(body, Set(e, probe, t)) {}
      }
    }
  }

  lemma FirstBreakParts(loop: Loop, sol: Solution, header: seq<Term>, ind: nat, count: nat, probe: nat, e: Env)
    requires Distinct(loop.params) && |header| == |loop.params| == |sol.closed|
    ensures var guard := GuardClosed(loop, sol, header);
      var body := Implies(InRange(probe, Var(count)), Replace(guard, map[Var(ind) := Var(probe)]));
      Holds(FirstBreakFormula(loop, sol, header, ind, count, probe), e) <==>
        && Lookup(e, count) >= 1
        && (forall t: int :: Holds(body, Set(e, probe, t)))
        && !Holds(Replace(guard, map[Var(ind) := Var(count)]), e)
  {
    hide Replace, GuardClosed, InRange, Implies;
    assert Holds(AtMost(Num(1), Var(count)), e) <==> Eval(Num(1), e) <= Eval(Var(count), e);
  }

  lemma InRangeMeans(probe: nat, count: Term, e: Env)
    ensures Holds(InRange(probe, count), e) <==> 0 <= Lookup(e, probe) < Eval(count, e)
  {
    assert Eval(Var(probe), e) == Lookup(e, probe) && Eval(Num(0), e) == 0;
  }

  lemma BodyMeans(loop: Loop, star: Word, ind: nat, sol: Solution, header: seq<Term>,
                  count: nat, probe: nat, e: Env, t: int)
    requires Ready(loop, star, ind, sol, header) && Distinct(loop.params)
    requires ind != probe && count != probe && Unused(loop, probe) && !DependsOn(header, probe)
    ensures Holds(Implies(InRange(probe, Var(count)),
        Replace(GuardClosed(loop, sol, header), map[Var(ind) := Var(probe)])), Set(e, probe, t))
        <==> (0 <= t < Lookup(e, count) ==> GuardAt(loop, sol, e, EvalAll(header, e), t))
  {
    hide Replace, Occurs, QuantifierFree, DependsOn, GuardClosed, Composite, Closes, WellFormed, Unused, GuardAt,
        InRange;
    var et := Set(e, probe, t);
    InRangeMeans(probe, Var(count), et);
    assert Eval(Var(count), et) == Lookup(e, count);
    if 0 <= t < Lookup(e, count) {
      GuardNamed(loop, star, ind, sol, header, probe, et);
      assert AgreeBut(e, et, probe);
      EvalUnused(header, e, et, probe);
      GuardIsOver(loop, star, sol);
      IterateAgree(loop, sol, e, et, probe, EvalAll(header, e), t);
    }
  }
}
