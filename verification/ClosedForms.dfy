/** The composite map of a path word and its certified closed form: translations and resets are solved
    in place, other proposals are accepted only certified. */
module ClosedForms {
  import opened Terms
  import opened PathWords
  import opened Wrappers

  type State = seq<int>

  /** One enumerated path through a loop body: when it is taken and what it does to the header
      variables. Guard and updates are over the parameters and loop-invariant symbols. */
  datatype Transition = Transition(guard: Term, updates: seq<Term>)

  predicate Distinct(ids: seq<nat>) {
    forall i, j :: 0 <= i < j < |ids| ==> ids[i] != ids[j]
  }

  /** The environment with the parameters set to a header state. */
  ghost function Bind(e: Env, params: seq<nat>, s: State): (b: Env)
    requires |params| == |s| && Distinct(params)
    ensures b.fns == e.fns
    ensures forall i :: 0 <= i < |s| ==> Lookup(b, params[i]) == s[i]
    ensures forall id :: id !in params ==> Lookup(b, id) == Lookup(e, id)
  {
    if params == [] then e
    else
      var n := |params| - 1;
      Set(Bind(e, params[..n], s[..n]), params[n], s[n])
  }

  /** One iteration along a path. */
  ghost function Step(tr: Transition, params: seq<nat>, e: Env, s: State): State
    requires |params| == |s| && Distinct(params)
  {
    EvalAll(tr.updates, Bind(e, params, s))
  }

  /** The word can be composed: every symbol has a transition of the right shape. */
  predicate Composable(word: Word, trs: map<Symbol, Transition>, m: nat) {
    forall i | 0 <= i < |word| :: word[i] in trs && |trs[word[i]].updates| == m
  }

  /** The header state after the iterations of a word. */
  ghost function Along(word: Word, trs: map<Symbol, Transition>, params: seq<nat>, e: Env, s: State): (t: State)
    requires |params| == |s| && Distinct(params) && Composable(word, trs, |params|)
    ensures |t| == |s|
  {
    if word == [] then s
    else Step(trs[word[|word| - 1]], params, e, Along(word[..|word| - 1], trs, params, e, s))
  }

  /** Every iteration of the word is enabled when it is reached. */
  ghost predicate GuardsAlong(word: Word, trs: map<Symbol, Transition>, params: seq<nat>, e: Env, s: State)
    requires |params| == |s| && Distinct(params) && Composable(word, trs, |params|)
  {
    word == [] ||
    var init := word[..|word| - 1];
    && GuardsAlong(init, trs, params, e, s)
    && Holds(trs[word[|word| - 1]].guard, Bind(e, params, Along(init, trs, params, e, s)))
  }

  /** The composite of a word, with a closed form for its iterates in the induction variable. */
  datatype Solution = Solution(guard: Term, oneStep: seq<Term>, closed: seq<Term>)

  function ParamMap(params: seq<nat>, images: seq<Term>): (m: map<Term, Term>)
    requires |params| == |images| && Distinct(params)
    ensures forall i :: 0 <= i < |params| ==> Var(params[i]) in m && m[Var(params[i])] == images[i]
    ensures forall u :: u in m ==> exists i :: 0 <= i < |params| && u == Var(params[i])
  {
    if params == [] then map[]
    else
      var n := |params| - 1;
      ParamMap(params[..n], images[..n])[Var(params[n]) := images[n]]
  }

  /** No quantifier of the term binds a parameter or a symbol of the images. */
  ghost predicate Apart(t: Term, params: seq<nat>, images: seq<Term>)
    requires |params| == |images| && Distinct(params)
  {
    CaptureFree(t, ParamMap(params, images))
  }

  /** Substituting terms for the parameters is evaluating in the state those terms denote. */
  lemma EvalParams(t: Term, params: seq<nat>, images: seq<Term>, e: Env, after: Env)
    requires |params| == |images| && Distinct(params) && Apart(t, params, images)
    requires after.fns == e.fns
    requires forall i :: 0 <= i < |params| ==> Lookup(after, params[i]) == Eval(images[i], e)
    requires forall id :: Occurs(id, t) && id !in params ==> Lookup(after, id) == Lookup(e, id)
    ensures Eval(Replace(t, ParamMap(params, images)), e) == Eval(t, after)
  {
    EvalReplace(t, ParamMap(params, images), e, after);
  }

  predicate DependsOnAny(t: Term, ids: seq<nat>)
    ensures DependsOnAny(t, ids) <==> !Free(t, ids)
  {
    exists i | 0 <= i < |ids| :: Occurs(ids[i], t)
  }

  /** None of the symbols occurs in the term. */
  ghost predicate Free(t: Term, ids: seq<nat>) { forall id | id in ids :: !Occurs(id, t) }

  lemma {:induction false} ReplaceQuantifierFree(t: Term, m: map<Term, Term>)
    requires QuantifierFree(t) && forall u | u in m :: QuantifierFree(m[u])
    ensures QuantifierFree(Replace(t, m))
  {
    if t !in m {
      match t
      case App(op, args) =>
        forall i | 0 <= i < |args| ensures QuantifierFree(Replace(args[i], m)) { ReplaceQuantifierFree(args[i], m); }
        assert Replace(t, m) == App(op, ReplaceAll(args, m));
      case Ite(c, a, b) =>
        ReplaceQuantifierFree(c, m);
        ReplaceQuantifierFree(a, m);
        ReplaceQuantifierFree(b, m);
      case _ =>
    }
  }

  /** What replacing can leave behind: old symbols that are not keys, and symbols of the images. */
  lemma {:induction false} OccursReplace(id: nat, t: Term, m: map<Term, Term>)
    requires QuantifierFree(t) && Occurs(id, Replace(t, m))
    ensures (Occurs(id, t) && Var(id) !in m) || exists u :: u in m && Occurs(id, m[u])
  {
    if t in m {
      assert Occurs(id, m[t]);
    } else {
      match t
      case App(op, args) =>
        assert Replace(t, m) == App(op, ReplaceAll(args, m));
        var i :| 0 <= i < |args| && Occurs(id, ReplaceAll(args, m)[i]);
        OccursReplace(id, args[i], m);
      case Ite(c, a, b) =>
        if Occurs(id, Replace(c, m)) { OccursReplace(id, c, m); }
        else if Occurs(id, Replace(a, m)) { OccursReplace(id, a, m); }
        else { OccursReplace(id, b, m); }
      case _ =>
    }
  }

  /** The transitions of a loop are over quantifier-free terms. */
  ghost predicate PlainTransitions(trs: map<Symbol, Transition>) {
    forall p | p in trs :: QuantifierFree(trs[p].guard) && Plain(trs[p].updates)
  }

  /** The symbol occurs in some transition. */
  ghost predicate Mentions(trs: map<Symbol, Transition>, id: nat) {
    exists p | p in trs :: Occurs(id, trs[p].guard) || DependsOn(trs[p].updates, id)
  }

  ghost predicate DependsOn(ts: seq<Term>, id: nat) {
    exists i | 0 <= i < |ts| :: Occurs(id, ts[i])
  }

  /** A quantifier-free term over the parameters and the symbols of the transitions. */
  ghost predicate Over(t: Term, params: seq<nat>, trs: map<Symbol, Transition>) {
    QuantifierFree(t) && forall id :: Occurs(id, t) ==> id in params || Mentions(trs, id)
  }

  ghost predicate AllOver(ts: seq<Term>, params: seq<nat>, trs: map<Symbol, Transition>) {
    forall i | 0 <= i < |ts| :: Over(ts[i], params, trs)
  }

  /** What the composition loop computes: the guard and the map of a whole word. */
  ghost predicate Composite(word: Word, trs: map<Symbol, Transition>, params: seq<nat>, guard: Term, oneStep: seq<Term>)
    requires Distinct(params)
  {
    && Composable(word, trs, |params|) && |oneStep| == |params|
    && Over(guard, params, trs) && AllOver(oneStep, params, trs)
    && (forall e: Env, s: State | |s| == |params| ::
          && (Holds(guard, Bind(e, params, s)) <==> GuardsAlong(word, trs, params, e, s))
          && EvalAll(oneStep, Bind(e, params, s)) == Along(word, trs, params, e, s))
  }

  /** The maps of the word's paths, substituted into each other. */
  function CompositeOf(word: Word, trs: map<Symbol, Transition>, params: seq<nat>): (oneStep: seq<Term>)
    requires Distinct(params) && Composable(word, trs, |params|)
    ensures |oneStep| == |params|
  {
    if word == [] then seq(|params|, i requires 0 <= i < |params| => Var(params[i]))
    else
      var k := |word| - 1;
      ReplaceAll(trs[word[k]].updates, ParamMap(params, CompositeOf(word[..k], trs, params)))
  }

  /** The guards of the word's paths, each read after the paths before it. */
  function GuardOf(word: Word, trs: map<Symbol, Transition>, params: seq<nat>): Term
    requires Distinct(params) && Composable(word, trs, |params|)
  {
    if word == [] then Flag(true)
    else
      var k := |word| - 1;
      Conj(GuardOf(word[..k], trs, params),
          Replace(trs[word[k]].guard, ParamMap(params, CompositeOf(word[..k], trs, params))))
  }

  /** The loop of solve_composite that substitutes the constituent paths into each other. */
  method Compose(word: Word, trs: map<Symbol, Transition>, params: seq<nat>, simplify: Rewriter)
    returns (ok: bool, guard: Term, oneStep: seq<Term>)
    requires Distinct(params) && PlainTransitions(trs) && Simplifies(simplify)
    ensures ok <==> Composable(word, trs, |params|)
    ensures ok ==> Composite(word, trs, params, guard, oneStep) && oneStep == CompositeOf(word, trs, params)
    ensures ok ==> guard == simplify(GuardOf(word, trs, params))
  {
    hide Composite, Replace, ParamMap, Occurs, QuantifierFree, Eval;
    guard := Flag(true);
    var current := seq(|params|, i requires 0 <= i < |params| => Var(params[i]));
    assert word[..0] == [];
    ComposeNothing(trs, params, current);
    for i := 0 to |word|
      invariant |current| == |params| && Composite(word[..i], trs, params, guard, current)
      invariant Composable(word[..i], trs, |params|) && current == CompositeOf(word[..i], trs, params)
      invariant guard == GuardOf(word[..i], trs, params)
    {
      if word[i] !in trs || |trs[word[i]].updates| != |current| {
        return false, guard, current;
      }
      var tr := trs[word[i]];
      ComposeOne(word, i, trs, params, guard, current);
      assert word[..i + 1][..i] == word[..i];
      guard := Conj(guard, Replace(tr.guard, ParamMap(params, current)));
      current := ReplaceAll(tr.updates, ParamMap(params, current));
    }
    assert word[..|word|] == word;
    ComposeAll(word, trs, params, guard, current, simplify);
    ok, guard, oneStep := true, simplify(guard), current;
  }

  lemma ComposeNothing(trs: map<Symbol, Transition>, params: seq<nat>, current: seq<Term>)
    requires Distinct(params) && |current| == |params| && forall i | 0 <= i < |params| :: current[i] == Var(params[i])
    ensures Composite([], trs, params, Flag(true), current)
  {
    hide Mentions;
    forall e: Env, s: State | |s| == |params| ensures EvalAll(current, Bind(e, params, s)) == s {}
  }

  lemma ComposeAll(word: Word, trs: map<Symbol, Transition>, params: seq<nat>, guard: Term, current: seq<Term>,
      simplify: Rewriter)
    requires Distinct(params) && Simplifies(simplify) && Composite(word, trs, params, guard, current)
    ensures Composite(word, trs, params, simplify(guard), current)
  {
    hide Mentions;
  }

  lemma ComposeOne(word: Word, i: nat, trs: map<Symbol, Transition>, params: seq<nat>, guard: Term, current: seq<Term>)
    requires Distinct(params) && PlainTransitions(trs)
    requires i < |word| && word[i] in trs && |trs[word[i]].updates| == |params|
    requires Composite(word[..i], trs, params, guard, current)
    ensures Composite(word[..i + 1], trs, params, Conj(guard, Replace(trs[word[i]].guard, ParamMap(params, current))),
                      ReplaceAll(trs[word[i]].updates, ParamMap(params, current)))
  {
    hide Occurs, QuantifierFree, Along, GuardsAlong, Eval, Bind, Conj, Replace, ParamMap, Over, Mentions, DependsOn;
    var tr, m := trs[word[i]], ParamMap(params, current);
    var longer := word[..i + 1];
    assert longer[..i] == word[..i] && longer[|longer| - 1] == word[i];
    GuardOver(trs, word[i], params);
    ReplacedOver(tr.guard, params, current, trs);
    ConjOver(guard, Replace(tr.guard, m), params, trs);
    var current' := ReplaceAll(tr.updates, m);
    forall j | 0 <= j < |current'| ensures Over(current'[j], params, trs) {
      UpdateOver(trs, word[i], params, j);
      ReplacedOver(tr.updates[j], params, current, trs);
    }
    forall e: Env, s: State | |s| == |params|
      ensures Holds(Conj(guard, Replace(tr.guard, m)), Bind(e, params, s)) <==> GuardsAlong(longer, trs, params, e, s)
      ensures EvalAll(current', Bind(e, params, s)) == Along(longer, trs, params, e, s)
    {
      ComposeValue(word[..i], word[i], longer, trs, params, guard, current, e, s);
    }
  }

  lemma GuardOver(trs: map<Symbol, Transition>, p: Symbol, params: seq<nat>)
    requires PlainTransitions(trs) && p in trs
    ensures Over(trs[p].guard, params, trs)
  {
    hide Occurs, QuantifierFree, DependsOn;
  }

  lemma UpdateOver(trs: map<Symbol, Transition>, p: Symbol, params: seq<nat>, j: nat)
    requires PlainTransitions(trs) && p in trs && j < |trs[p].updates|
    ensures Over(trs[p].updates[j], params, trs)
  {
    hide Occurs, QuantifierFree;
    forall id | Occurs(id, trs[p].updates[j]) ensures DependsOn(trs[p].updates, id) {}
  }

  lemma ComposeValue(init: Word, p: Symbol, longer: Word, trs: map<Symbol, Transition>, params: seq<nat>,
                     guard: Term, current: seq<Term>, e: Env, s: State)
    requires Distinct(params) && |params| == |s| == |current|
    requires longer != [] && longer[..|longer| - 1] == init && longer[|longer| - 1] == p
    requires Composable(longer, trs, |params|) && Composable(init, trs, |params|)
    requires QuantifierFree(trs[p].guard) && Plain(trs[p].updates)
    requires Holds(guard, Bind(e, params, s)) <==> GuardsAlong(init, trs, params, e, s)
    requires EvalAll(current, Bind(e, params, s)) == Along(init, trs, params, e, s)
    ensures Holds(Conj(guard, Replace(trs[p].guard, ParamMap(params, current))), Bind(e, params, s))
        <==> GuardsAlong(longer, trs, params, e, s)
    ensures EvalAll(ReplaceAll(trs[p].updates, ParamMap(params, current)), Bind(e, params, s))
        == Along(longer, trs, params, e, s)
  {
    hide Replace, QuantifierFree, Conj, ParamMap, Bind;
    var tr := trs[p];
    var mid := Along(init, trs, params, e, s);
    EvalAlong(tr.guard, params, current, e, s, mid);
    var current' := ReplaceAll(tr.updates, ParamMap(params, current));
    forall j | 0 <= j < |params|
      ensures Eval(current'[j], Bind(e, params, s)) == Eval(tr.updates[j], Bind(e, params, mid))
    {
      EvalAlong(tr.updates[j], params, current, e, s, mid);
    }
    assert EvalAll(current', Bind(e, params, s)) == EvalAll(tr.updates, Bind(e, params, mid));
  }

  lemma ConjOver(a: Term, b: Term, params: seq<nat>, trs: map<Symbol, Transition>)
    requires Over(a, params, trs) && Over(b, params, trs)
    ensures Over(Conj(a, b), params, trs)
  {
    hide Mentions;
    BinaryPlain(And, a, b);
  }

  lemma ReplacedOver(t: Term, params: seq<nat>, images: seq<Term>, trs: map<Symbol, Transition>)
    requires |params| == |images| && Distinct(params)
    requires Over(t, params, trs) && AllOver(images, params, trs)
    ensures Over(Replace(t, ParamMap(params, images)), params, trs)
  {
    hide Mentions, QuantifierFree, Occurs, Replace;
    var m := ParamMap(params, images);
    ReplaceQuantifierFree(t, m);
    forall id | Occurs(id, Replace(t, m)) ensures id in params || Mentions(trs, id) {
      OccursReplace(id, t, m);
    }
  }

  /** Substituting the current values into a term is evaluating it in the state they denote. */
  lemma EvalAlong(t: Term, params: seq<nat>, current: seq<Term>, e: Env, s: State, mid: State)
    requires Distinct(params) && |params| == |current| == |s| == |mid| && QuantifierFree(t)
    requires EvalAll(current, Bind(e, params, s)) == mid
    ensures Eval(Replace(t, ParamMap(params, current)), Bind(e, params, s)) == Eval(t, Bind(e, params, mid))
  {
    NoCapture(t, ParamMap(params, current));
    assert forall i :: 0 <= i < |mid| ==> mid[i] == EvalAll(current, Bind(e, params, s))[i];
    EvalParams(t, params, current, Bind(e, params, s), Bind(e, params, mid));
  }

  /* ---- certification ---- */

  /** The two queries a closed form must answer: it starts at the parameters, and it advances as the
      composite map does. */
  function BaseQuery(closed: seq<Term>, params: seq<nat>, ind: nat): Term
    requires |closed| == |params|
  {
    DisjAll(seq(|params|, i requires 0 <= i < |params| =>
      Negate(Equals(Replace(closed[i], map[Var(ind) := Num(0)]), Var(params[i])))))
  }

  function StepFailure(oneStep: seq<Term>, closed: seq<Term>, params: seq<nat>, ind: nat): Term
    requires |closed| == |params| == |oneStep| && Distinct(params)
  {
    DisjAll(seq(|params|, i requires 0 <= i < |params| =>
      Negate(Equals(Replace(closed[i], map[Var(ind) := Plus(Var(ind), Num(1))]),
                    Replace(oneStep[i], ParamMap(params, closed))))))
  }

  function StepQuery(oneStep: seq<Term>, closed: seq<Term>, params: seq<nat>, ind: nat): Term
    requires |closed| == |params| == |oneStep| && Distinct(params)
  {
    Conj(AtMost(Num(0), Var(ind)), StepFailure(oneStep, closed, params, ind))
  }

  /** The states the composite map goes through. */
  ghost function Iterate(oneStep: seq<Term>, params: seq<nat>, e: Env, s: State, n: nat): (t: State)
    requires |params| == |s| == |oneStep| && Distinct(params)
    ensures |t| == |s|
  {
    if n == 0 then s else EvalAll(oneStep, Bind(e, params, Iterate(oneStep, params, e, s, n - 1)))
  }

  /** The environment in which a closed form is read: the parameters at the start, the induction
      variable at the iteration. */
  ghost function At(e: Env, params: seq<nat>, s: State, ind: nat, n: int): Env
    requires |params| == |s| && Distinct(params)
  {
    Set(Bind(e, params, s), ind, n)
  }

  /** The closed form gives every iterate of the map. */
  ghost predicate Closes(oneStep: seq<Term>, closed: seq<Term>, params: seq<nat>, ind: nat)
    requires Distinct(params) && |oneStep| == |params|
  {
    |closed| == |params| &&
    forall e: Env, s: State, n: nat | |s| == |params| ::
      EvalAll(closed, At(e, params, s, ind, n)) == Iterate(oneStep, params, e, s, n)
  }

  lemma BaseMeans(closed: seq<Term>, params: seq<nat>, ind: nat, e: Env)
    requires Distinct(params) && ind !in params && |closed| == |params| && Plain(closed)
    ensures Holds(BaseQuery(closed, params, ind), e)
        <==> exists i | 0 <= i < |params| :: Eval(closed[i], Set(e, ind, 0)) != Lookup(e, params[i])
  {
    var parts := seq(|params|, i requires 0 <= i < |params| =>
      Negate(Equals(Replace(closed[i], map[Var(ind) := Num(0)]), Var(params[i]))));
    forall i | 0 <= i < |params|
      ensures Holds(parts[i], e) <==> Eval(closed[i], Set(e, ind, 0)) != Lookup(e, params[i])
    {
      NoCapture(closed[i], map[Var(ind) := Num(0)]);
      EvalReplace(closed[i], map[Var(ind) := Num(0)], e, Set(e, ind, 0));
    }
    assert BaseQuery(closed, params, ind) == DisjAll(parts);
  }

  /** The value of one component after the map is applied to the closed form's state. */
  lemma StepSide(oneStep: Term, closed: seq<Term>, params: seq<nat>, ind: nat, e: Env)
    requires Distinct(params) && ind !in params && |closed| == |params|
    requires QuantifierFree(oneStep) && !Occurs(ind, oneStep)
    ensures Eval(Replace(oneStep, ParamMap(params, closed)), e) == Eval(oneStep, Bind(e, params, EvalAll(closed, e)))
  {
    NoCapture(oneStep, ParamMap(params, closed));
    EvalParams(oneStep, params, closed, e, Bind(e, params, EvalAll(closed, e)));
  }

  lemma StepMeans(oneStep: seq<Term>, closed: seq<Term>, params: seq<nat>, ind: nat, e: Env)
    requires Distinct(params) && ind !in params && |closed| == |params| == |oneStep|
    requires Plain(closed) && Plain(oneStep) && forall i | 0 <= i < |oneStep| :: !Occurs(ind, oneStep[i])
    ensures Holds(StepFailure(oneStep, closed, params, ind), e)
        <==> exists i | 0 <= i < |params| ::
               Eval(closed[i], Set(e, ind, Lookup(e, ind) + 1)) != Eval(oneStep[i], Bind(e, params, EvalAll(closed, e)))
  {
    hide Occurs, QuantifierFree, Eval, Replace, ParamMap, Plus, Bind;
    var m := map[Var(ind) := Plus(Var(ind), Num(1))];
    var parts := seq(|params|, i requires 0 <= i < |params| =>
      Negate(Equals(Replace(closed[i], m), Replace(oneStep[i], ParamMap(params, closed)))));
    forall i | 0 <= i < |params|
      ensures Holds(parts[i], e) <==>
        Eval(closed[i], Set(e, ind, Lookup(e, ind) + 1)) != Eval(oneStep[i], Bind(e, params, EvalAll(closed, e)))
    {
      NextCount(closed[i], ind, e);
      StepSide(oneStep[i], closed, params, ind, e);
    }
    assert StepFailure(oneStep, closed, params, ind) == DisjAll(parts);
  }

  /** A closed form read one iteration later. */
  lemma NextCount(closed: Term, ind: nat, e: Env)
    requires QuantifierFree(closed)
    ensures Eval(Replace(closed, map[Var(ind) := Plus(Var(ind), Num(1))]), e) ==
        Eval(closed, Set(e, ind, Lookup(e, ind) + 1))
  {
    hide Occurs, QuantifierFree, Replace;
    var m := map[Var(ind) := Plus(Var(ind), Num(1))];
    NoCapture(closed, m);
    EvalReplace(closed, m, e, Set(e, ind, Lookup(e, ind) + 1));
  }

  /** Base and step certification gives the closed form at every iteration. */
  lemma {:induction false} CertifiedIterates(oneStep: seq<Term>, closed: seq<Term>, params: seq<nat>, ind: nat,
                                             e: Env, s: State, n: nat)
    requires Distinct(params) && ind !in params && |closed| == |params| == |oneStep| == |s|
    requires Plain(closed) && Plain(oneStep) && forall i | 0 <= i < |oneStep| :: !Occurs(ind, oneStep[i])
    requires forall e' :: !Holds(BaseQuery(closed, params, ind), e')
    requires forall e' :: !Holds(StepQuery(oneStep, closed, params, ind), e')
    ensures EvalAll(closed, At(e, params, s, ind, n)) == Iterate(oneStep, params, e, s, n)
  {
    hide *;
    if n == 0 {
      assert !Holds(BaseQuery(closed, params, ind), Bind(e, params, s));
      CertifiedStart(oneStep, closed, params, ind, e, s);
    } else {
      CertifiedIterates(oneStep, closed, params, ind, e, s, n - 1);
      assert !Holds(StepQuery(oneStep, closed, params, ind), At(e, params, s, ind, n - 1));
      CertifiedAdvance(oneStep, closed, params, ind, e, s, n - 1);
    }
  }

  lemma CertifiedStart(oneStep: seq<Term>, closed: seq<Term>, params: seq<nat>, ind: nat, e: Env, s: State)
    requires Distinct(params) && ind !in params && |closed| == |params| == |oneStep| == |s| && Plain(closed)
    requires !Holds(BaseQuery(closed, params, ind), Bind(e, params, s))
    ensures EvalAll(closed, At(e, params, s, ind, 0)) == Iterate(oneStep, params, e, s, 0)
  {
    hide Replace, QuantifierFree, BaseQuery, Eval;
    var start := Bind(e, params, s);
    BaseMeans(closed, params, ind, start);
    forall i | 0 <= i < |params| ensures EvalAll(closed, At(e, params, s, ind, 0))[i] == s[i] {
      assert Eval(closed[i], Set(start, ind, 0)) == Lookup(start, params[i]);
    }
  }

  lemma CertifiedAdvance(oneStep: seq<Term>, closed: seq<Term>, params: seq<nat>, ind: nat, e: Env, s: State, n: nat)
    requires Distinct(params) && ind !in params && |closed| == |params| == |oneStep| == |s|
    requires Plain(closed) && Plain(oneStep) && forall i | 0 <= i < |oneStep| :: !Occurs(ind, oneStep[i])
    requires EvalAll(closed, At(e, params, s, ind, n)) == Iterate(oneStep, params, e, s, n)
    requires !Holds(StepQuery(oneStep, closed, params, ind), At(e, params, s, ind, n))
    ensures EvalAll(closed, At(e, params, s, ind, n + 1)) == Iterate(oneStep, params, e, s, n + 1)
  {
    hide Replace, QuantifierFree, Occurs, StepFailure, Eval, Conj, AtMost, Bind;
    var here, next := At(e, params, s, ind, n), At(e, params, s, ind, n + 1);
    var mid := Iterate(oneStep, params, e, s, n);
    StepMeans(oneStep, closed, params, ind, here);
    CountsUp(here, ind);
    assert Set(here, ind, n + 1).vars == next.vars;
    forall i | 0 <= i < |params|
      ensures EvalAll(closed, next)[i] == EvalAll(oneStep, Bind(e, params, mid))[i]
    {
      assert Eval(closed[i], Set(here, ind, n + 1)) == Eval(oneStep[i], Bind(here, params, mid));
      IgnoresInduction(oneStep[i], params, e, s, ind, n, mid);
    }
  }

  lemma CountsUp(e: Env, ind: nat)
    ensures Holds(AtMost(Num(0), Var(ind)), e) <==> 0 <= Lookup(e, ind)
  {
  }

  lemma IgnoresInduction(t: Term, params: seq<nat>, e: Env, s: State, ind: nat, n: int, mid: State)
    requires Distinct(params) && |params| == |s| == |mid| && !Occurs(ind, t)
    ensures Eval(t, Bind(At(e, params, s, ind, n), params, mid)) == Eval(t, Bind(e, params, mid))
  {
    var b1, b2 := Bind(At(e, params, s, ind, n), params, mid), Bind(e, params, mid);
    forall id | Occurs(id, t) ensures Lookup(b1, id) == Lookup(b2, id) {
      if id in params {
        var i :| 0 <= i < |params| && params[i] == id;
        assert Lookup(b1, params[i]) == mid[i] == Lookup(b2, params[i]);
      }
    }
    EvalAgree(t, b1, b2);
  }

  /** The parameters' own values. */
  ghost function OwnState(e: Env, params: seq<nat>): (s: State)
    ensures |s| == |params|
  {
    seq(|params|, i requires 0 <= i < |params| => Lookup(e, params[i]))
  }

  lemma OwnReading(ts: seq<Term>, params: seq<nat>, ind: nat, n: int, e: Env)
    requires Distinct(params) && ind !in params
    ensures EvalAll(ts, At(e, params, OwnState(e, params), ind, n)) == EvalAll(ts, Set(e, ind, n))
  {
    var here, s := At(e, params, OwnState(e, params), ind, n), OwnState(e, params);
    forall id ensures Lookup(here, id) == Lookup(Set(e, ind, n), id) {
      if id in params {
        var i :| 0 <= i < |params| && params[i] == id;
        assert Lookup(Bind(e, params, s), params[i]) == s[i];
      }
    }
    forall i | 0 <= i < |ts| ensures Eval(ts[i], here) == Eval(ts[i], Set(e, ind, n)) {
      EvalAgree(ts[i], here, Set(e, ind, n));
    }
  }

  /** Certification is complete: a closed form that gives every iterate refutes both queries. */
  lemma ClosesCertifies(oneStep: seq<Term>, closed: seq<Term>, params: seq<nat>, ind: nat, e: Env)
    requires Distinct(params) && ind !in params && |closed| == |params| == |oneStep|
    requires Plain(closed) && Plain(oneStep) && forall i | 0 <= i < |oneStep| :: !Occurs(ind, oneStep[i])
    requires Closes(oneStep, closed, params, ind)
    ensures !Holds(BaseQuery(closed, params, ind), e)
    ensures !Holds(StepQuery(oneStep, closed, params, ind), e)
  {
    hide Replace, QuantifierFree, Occurs, BaseQuery, StepFailure, Eval, Conj, AtMost, Bind, At;
    var s, n := OwnState(e, params), Lookup(e, ind);
    BaseMeans(closed, params, ind, e);
    OwnReading(closed, params, ind, 0, e);
    assert EvalAll(closed, At(e, params, s, ind, 0)) == s;
    StepMeans(oneStep, closed, params, ind, e);
    CountsUp(e, ind);
    if n >= 0 {
      OwnReading(closed, params, ind, n, e);
      OwnReading(closed, params, ind, n + 1, e);
      SameReading(closed, ind, e);
      var mid := Iterate(oneStep, params, e, s, n);
      assert EvalAll(closed, e) == EvalAll(closed, At(e, params, s, ind, n)) == mid;
      assert EvalAll(closed, At(e, params, s, ind, n + 1)) == Iterate(oneStep, params, e, s, n + 1) ==
          EvalAll(oneStep, Bind(e, params, mid));
      forall i | 0 <= i < |params|
          ensures Eval(closed[i], Set(e, ind, n + 1)) == Eval(oneStep[i], Bind(e, params, mid)) {
        assert EvalAll(closed, Set(e, ind, n + 1))[i] == EvalAll(oneStep, Bind(e, params, mid))[i];
      }
    }
  }

  lemma SameReading(ts: seq<Term>, ind: nat, e: Env)
    ensures EvalAll(ts, Set(e, ind, Lookup(e, ind))) == EvalAll(ts, e)
  {
    forall i | 0 <= i < |ts| ensures Eval(ts[i], Set(e, ind, Lookup(e, ind))) == Eval(ts[i], e) {
      EvalAgree(ts[i], Set(e, ind, Lookup(e, ind)), e);
    }
  }

  predicate Certified(oneStep: seq<Term>, closed: seq<Term>, params: seq<nat>, ind: nat, solver: Solver)
    requires Distinct(params) && |closed| == |params| == |oneStep|
  {
    solver(BaseQuery(closed, params, ind)).Unsat? && solver(StepQuery(oneStep, closed, params, ind)).Unsat?
  }

  /** certify_closed_forms: accept only on two unsat answers. A solver that decides accepts exactly the
      forms that give every iterate. */
  method Certify(oneStep: seq<Term>, closed: seq<Term>, params: seq<nat>, ind: nat, solver: Solver) returns (ok: bool)
    requires Distinct(params) && ind !in params && |closed| == |params| == |oneStep|
    requires Plain(closed) && Plain(oneStep) && forall i | 0 <= i < |oneStep| :: !Occurs(ind, oneStep[i])
    requires Sound(solver)
    ensures ok ==> Closes(oneStep, closed, params, ind)
    ensures Decides(solver) && Closes(oneStep, closed, params, ind) ==> ok
    ensures ok <==> Certified(oneStep, closed, params, ind, solver)
  {
    CertifiedExactly(oneStep, closed, params, ind, solver);
    if !solver(BaseQuery(closed, params, ind)).Unsat? { return false; }
    ok := solver(StepQuery(oneStep, closed, params, ind)).Unsat?;
  }

  /** What is certified gives every iterate; a solver that decides certifies everything that does. */
  lemma CertifiedExactly(oneStep: seq<Term>, closed: seq<Term>, params: seq<nat>, ind: nat, solver: Solver)
    requires Distinct(params) && ind !in params && |closed| == |params| == |oneStep|
    requires Plain(closed) && Plain(oneStep) && forall i | 0 <= i < |oneStep| :: !Occurs(ind, oneStep[i])
    requires Sound(solver)
    ensures Certified(oneStep, closed, params, ind, solver) ==> Closes(oneStep, closed, params, ind)
    ensures Decides(solver) && Closes(oneStep, closed, params, ind) ==> Certified(oneStep, closed, params, ind, solver)
  {
    hide BaseQuery, StepQuery, QuantifierFree, Occurs, Closes;
    if Closes(oneStep, closed, params, ind) {
      forall e ensures !Holds(BaseQuery(closed, params, ind), e) && !Holds(StepQuery(oneStep, closed, params, ind), e) {
        ClosesCertifies(oneStep, closed, params, ind, e);
      }
    }
    if Certified(oneStep, closed, params, ind, solver) {
      forall e: Env, s: State, n: nat | |s| == |params|
        ensures EvalAll(closed, At(e, params, s, ind, n)) == Iterate(oneStep, params, e, s, n)
      {
        CertifiedIterates(oneStep, closed, params, ind, e, s, n);
      }
      ClosesByIterates(oneStep, closed, params, ind);
    }
  }

  lemma ClosesByIterates(oneStep: seq<Term>, closed: seq<Term>, params: seq<nat>, ind: nat)
    requires Distinct(params) && |oneStep| == |params| == |closed|
    requires forall e: Env, s: State, n: nat | |s| == |params| ::
        EvalAll(closed, At(e, params, s, ind, n)) == Iterate(oneStep, params, e, s, n)
    ensures Closes(oneStep, closed, params, ind)
  {
  }

  /* ---- built-in closed forms ---- */

  /** x := x + d, d fixed: after n steps x + n * d. */
  ghost predicate Translation(oneStep: Term, closed: Term, delta: Term, params: seq<nat>, i: nat, ind: nat)
    requires i < |params|
  {
    && !DependsOnAny(delta, params) && !Occurs(ind, delta)
    && forall e :: Eval(oneStep, e) == Lookup(e, params[i]) + Eval(delta, e)
                && Eval(closed, e) == Lookup(e, params[i]) + Lookup(e, ind) * Eval(delta, e)
  }

  /** x := c, c fixed: after n steps c, but x itself after none. */
  ghost predicate Reset(oneStep: Term, closed: Term, params: seq<nat>, i: nat, ind: nat)
    requires i < |params|
  {
    && !DependsOnAny(oneStep, params) && !Occurs(ind, oneStep)
    && forall e :: Eval(closed, e) == if Lookup(e, ind) == 0 then Lookup(e, params[i]) else Eval(oneStep, e)
  }

  ghost predicate Elementary(oneStep: seq<Term>, closed: seq<Term>, params: seq<nat>, ind: nat)
    requires |oneStep| == |params| == |closed|
  {
    forall i | 0 <= i < |params| ::
      Reset(oneStep[i], closed[i], params, i, ind)
          || exists delta :: Translation(oneStep[i], closed[i], delta, params, i, ind)
  }

  /** A term without parameters or induction variable keeps its value when those change. */
  lemma Constant(t: Term, params: seq<nat>, ind: nat, e: Env, e': Env)
    requires !DependsOnAny(t, params) && !Occurs(ind, t) && e.fns == e'.fns
    requires forall id :: id !in params && id != ind ==> Lookup(e, id) == Lookup(e', id)
    ensures Eval(t, e) == Eval(t, e')
  {
    EvalAgree(t, e, e');
  }

  /** The built-in forms satisfy both certification queries, whatever the environment. */
  lemma ElementaryCertifies(oneStep: seq<Term>, closed: seq<Term>, params: seq<nat>, ind: nat, e: Env)
    requires Distinct(params) && ind !in params && |closed| == |params| == |oneStep|
    requires Plain(closed) && Plain(oneStep) && forall i | 0 <= i < |oneStep| :: !Occurs(ind, oneStep[i])
    requires Elementary(oneStep, closed, params, ind)
    ensures !Holds(BaseQuery(closed, params, ind), e)
    ensures !Holds(StepQuery(oneStep, closed, params, ind), e)
  {
    hide Replace, QuantifierFree, Occurs, DependsOnAny, BaseQuery, StepFailure, Conj, AtMost, Eval;
    BaseMeans(closed, params, ind, e);
    forall i | 0 <= i < |params| ensures Eval(closed[i], Set(e, ind, 0)) == Lookup(e, params[i]) {
      ElementaryStart(oneStep[i], closed[i], params, i, ind, e);
    }
    StepMeans(oneStep, closed, params, ind, e);
    CountsUp(e, ind);
    if 0 <= Lookup(e, ind) {
      forall i | 0 <= i < |params|
        ensures Eval(closed[i], Set(e, ind, Lookup(e, ind) + 1)) ==
            Eval(oneStep[i], Bind(e, params, EvalAll(closed, e)))
      {
        ElementaryAdvance(oneStep[i], closed, params, i, ind, e);
      }
    }
  }

  lemma ElementaryStart(oneStep: Term, closed: Term, params: seq<nat>, i: nat, ind: nat, e: Env)
    requires Distinct(params) && ind !in params && i < |params|
    requires Reset(oneStep, closed, params, i, ind)
        || exists delta :: Translation(oneStep, closed, delta, params, i, ind)
    ensures Eval(closed, Set(e, ind, 0)) == Lookup(e, params[i])
  {
    hide Eval, Occurs, DependsOnAny;
    var e0 := Set(e, ind, 0);
    if !Reset(oneStep, closed, params, i, ind) {
      var delta :| Translation(oneStep, closed, delta, params, i, ind);
      assert Eval(closed, e0) == Lookup(e0, params[i]) + Lookup(e0, ind) * Eval(delta, e0);
    }
  }

  lemma ElementaryAdvance(oneStep: Term, closed: seq<Term>, params: seq<nat>, i: nat, ind: nat, e: Env)
    requires Distinct(params) && ind !in params && i < |params| == |closed| && 0 <= Lookup(e, ind)
    requires Reset(oneStep, closed[i], params, i, ind)
        || exists delta :: Translation(oneStep, closed[i], delta, params, i, ind)
    ensures Eval(closed[i], Set(e, ind, Lookup(e, ind) + 1)) == Eval(oneStep, Bind(e, params, EvalAll(closed, e)))
  {
    hide Eval, Occurs, DependsOnAny;
    var n := Lookup(e, ind);
    var up, b := Set(e, ind, n + 1), Bind(e, params, EvalAll(closed, e));
    if Reset(oneStep, closed[i], params, i, ind) {
      Constant(oneStep, params, ind, up, e);
      Constant(oneStep, params, ind, b, e);
    } else {
      var delta :| Translation(oneStep, closed[i], delta, params, i, ind);
      Constant(delta, params, ind, up, e);
      Constant(delta, params, ind, b, e);
      assert Lookup(b, params[i]) == Lookup(e, params[i]) + n * Eval(delta, e);
      Successor(n, Eval(delta, e));
    }
  }

  lemma Successor(n: int, d: int)
    ensures (n + 1) * d == n * d + d
  {
  }

  /** A component that the loop recognises: its difference from the parameter, or it itself, is
      free of parameters. */
  predicate Recognised(t: Term, params: seq<nat>, i: nat, simplify: Rewriter)
    requires i < |params|
  {
    !DependsOnAny(simplify(Minus(t, Var(params[i]))), params) || !DependsOnAny(t, params)
  }

  predicate AllRecognised(oneStep: seq<Term>, params: seq<nat>, simplify: Rewriter)
    requires |oneStep| == |params|
  {
    forall i | 0 <= i < |params| :: Recognised(oneStep[i], params, i, simplify)
  }

  /** The built-in form of a recognised component. */
  function ElementaryForm(oneStep: Term, params: seq<nat>, i: nat, ind: nat, simplify: Rewriter): Term
    requires i < |params|
  {
    var delta := simplify(Minus(oneStep, Var(params[i])));
    if DependsOnAny(delta, params) then Ite(Equals(Var(ind), Num(0)), Var(params[i]), oneStep)
    else simplify(Plus(Var(params[i]), Times(Var(ind), delta)))
  }

  function AllElementary(oneStep: seq<Term>, params: seq<nat>, ind: nat, simplify: Rewriter): (closed: seq<Term>)
    requires |oneStep| == |params|
    ensures |closed| == |params|
  {
    seq(|params|, i requires 0 <= i < |params| => ElementaryForm(oneStep[i], params, i, ind, simplify))
  }

  /** A component with its built-in form. */
  ghost predicate FormFits(oneStep: Term, form: Term, params: seq<nat>, i: nat, ind: nat, simplify: Rewriter)
    requires i < |params|
  {
    && Recognised(oneStep, params, i, simplify) && QuantifierFree(form)
        && form == ElementaryForm(oneStep, params, i, ind, simplify)
    && (Reset(oneStep, form, params, i, ind) || exists delta :: Translation(oneStep, form, delta, params, i, ind))
  }

  lemma RecognisedFits(oneStep: Term, params: seq<nat>, i: nat, ind: nat, simplify: Rewriter)
    requires Distinct(params) && ind !in params && i < |params| && QuantifierFree(oneStep) && !Occurs(ind, oneStep)
    requires Simplifies(simplify) && Recognised(oneStep, params, i, simplify)
    ensures FormFits(oneStep, ElementaryForm(oneStep, params, i, ind, simplify), params, i, ind, simplify)
  {
    hide DependsOnAny, Translation, Reset, QuantifierFree, Eval;
    if DependsOnAny(simplify(Minus(oneStep, Var(params[i]))), params) { ResetForm(oneStep, params, i, ind); }
    else { TranslationForm(oneStep, params, i, ind, simplify); }
  }

  /** The loop of solve_composite that recognises translations and resets. */
  method ElementaryForms(oneStep: seq<Term>, params: seq<nat>, ind: nat, simplify: Rewriter)
    returns (elementary: bool, closed: seq<Term>)
    requires Distinct(params) && ind !in params && |oneStep| == |params| && Simplifies(simplify) && Plain(oneStep)
    requires forall i | 0 <= i < |oneStep| :: !Occurs(ind, oneStep[i])
    ensures elementary ==> |closed| == |params| && Plain(closed) && Elementary(oneStep, closed, params, ind)
    ensures elementary <==> AllRecognised(oneStep, params, simplify)
    ensures elementary <==> forall i | 0 <= i < |params| ::
      Free(oneStep[i], params) || Free(simplify(Minus(oneStep[i], Var(params[i]))), params)
    ensures elementary ==> closed == AllElementary(oneStep, params, ind, simplify)
  {
    hide DependsOnAny, Translation, Reset, Occurs, QuantifierFree, Eval, FormFits, Free;
    closed := [];
    var i := 0;
    while i < |params|
      invariant 0 <= i <= |params| && |closed| == i
      invariant forall j | 0 <= j < i :: FormFits(oneStep[j], closed[j], params, j, ind, simplify)
    {
      var delta := simplify(Minus(oneStep[i], Var(params[i])));
      var form;
      if DependsOnAny(delta, params) {
        if DependsOnAny(oneStep[i], params) {
          assert !Recognised(oneStep[i], params, i, simplify);
          return false, [];
        }
        form := Ite(Equals(Var(ind), Num(0)), Var(params[i]), oneStep[i]);
      } else {
        form := simplify(Plus(Var(params[i]), Times(Var(ind), delta)));
      }
      RecognisedFits(oneStep[i], params, i, ind, simplify);
      assert form == ElementaryForm(oneStep[i], params, i, ind, simplify);
      closed := closed + [form];
      i := i + 1;
    }
    FormsFit(oneStep, closed, params, ind, simplify);
    elementary := true;
  }

  lemma FormsFit(oneStep: seq<Term>, closed: seq<Term>, params: seq<nat>, ind: nat, simplify: Rewriter)
    requires |oneStep| == |params| == |closed|
    requires forall j | 0 <= j < |params| :: FormFits(oneStep[j], closed[j], params, j, ind, simplify)
    ensures Plain(closed) && Elementary(oneStep, closed, params, ind) && AllRecognised(oneStep, params, simplify)
    ensures closed == AllElementary(oneStep, params, ind, simplify)
  {
    hide DependsOnAny, Translation, Reset, ElementaryForm, QuantifierFree, Recognised;
  }

  lemma ResetForm(oneStep: Term, params: seq<nat>, i: nat, ind: nat)
    requires i < |params| && QuantifierFree(oneStep) && !DependsOnAny(oneStep, params) && !Occurs(ind, oneStep)
    ensures var form := Ite(Equals(Var(ind), Num(0)), Var(params[i]), oneStep);
            QuantifierFree(form) && Reset(oneStep, form, params, i, ind)
  {
    var args := [Var(ind), Num(0)];
    assert QuantifierFree(args[0]) && QuantifierFree(args[1]);
    assert Equals(Var(ind), Num(0)) == App(Eq, args);
    var form := Ite(Equals(Var(ind), Num(0)), Var(params[i]), oneStep);
    forall e ensures Eval(form, e) == if Lookup(e, ind) == 0 then Lookup(e, params[i]) else Eval(oneStep, e) {
      assert Holds(Equals(Var(ind), Num(0)), e) <==> Eval(Var(ind), e) == Eval(Num(0), e);
    }
  }

  lemma BinaryPlain(op: Op, a: Term, b: Term)
    requires QuantifierFree(a) && QuantifierFree(b)
    ensures QuantifierFree(App(op, [a, b]))
    ensures forall id :: Occurs(id, App(op, [a, b])) ==> Occurs(id, a) || Occurs(id, b)
  {
    assert [a, b][0] == a && [a, b][1] == b;
  }

  lemma TranslationForm(oneStep: Term, params: seq<nat>, i: nat, ind: nat, simplify: Rewriter)
    requires i < |params| && ind !in params && QuantifierFree(oneStep) && !Occurs(ind, oneStep) && Simplifies(simplify)
    requires !DependsOnAny(simplify(Minus(oneStep, Var(params[i]))), params)
    ensures var delta := simplify(Minus(oneStep, Var(params[i])));
            var form := simplify(Plus(Var(params[i]), Times(Var(ind), delta)));
            QuantifierFree(form) && Translation(oneStep, form, delta, params, i, ind)
  {
    var delta := simplify(Minus(oneStep, Var(params[i])));
    BinaryPlain(Sub, oneStep, Var(params[i]));
    BinaryPlain(Mul, Var(ind), delta);
    BinaryPlain(Add, Var(params[i]), Times(Var(ind), delta));
    assert !Occurs(ind, delta);
    var form := simplify(Plus(Var(params[i]), Times(Var(ind), delta)));
    forall e ensures Eval(oneStep, e) == Lookup(e, params[i]) + Eval(delta, e)
                  && Eval(form, e) == Lookup(e, params[i]) + Lookup(e, ind) * Eval(delta, e)
    {
      assert Eval(delta, e) == Eval(Minus(oneStep, Var(params[i])), e);
      assert Eval(form, e) == Eval(Plus(Var(params[i]), Times(Var(ind), delta)), e);
      assert Eval(Times(Var(ind), delta), e) == Eval(Var(ind), e) * Eval(delta, e);
      assert Eval(Var(params[i]), e) == Lookup(e, params[i]) && Eval(Var(ind), e) == Lookup(e, ind);
    }
  }

  /** The recurrence solver: any proposal, over quantifier-free terms, or none. */
  type Recurrence = seq<Term> -> Option<seq<Term>>

  ghost predicate ProposesPlain(recurrence: Recurrence) {
    forall ts :: recurrence(ts).Some? ==> Plain(recurrence(ts).value)
  }

  /** There is a closed form to be found: the map consists of translations and resets, or the recurrence
      solver's proposal gives every iterate. */
  ghost predicate HasForms(oneStep: seq<Term>, params: seq<nat>, ind: nat, simplify: Rewriter, recurrence: Recurrence)
    requires Distinct(params) && |oneStep| == |params|
  {
    AllRecognised(oneStep, params, simplify)
        || (recurrence(oneStep).Some? && Closes(oneStep, recurrence(oneStep).value, params, ind))
  }

  /** The word can be composed and its map has a closed form to be found. */
  ghost predicate Solvable(word: Word, trs: map<Symbol, Transition>, params: seq<nat>, ind: nat, simplify: Rewriter,
      recurrence: Recurrence)
    requires Distinct(params)
  {
    && word != [] && params != [] && Composable(word, trs, |params|)
    && HasForms(CompositeOf(word, trs, params), params, ind, simplify, recurrence)
  }

  /** The closed form that is tried: the built-in one, or else the proposal. */
  function FormsOf(oneStep: seq<Term>, params: seq<nat>, ind: nat, simplify: Rewriter, recurrence: Recurrence)
    : (closed: Option<seq<Term>>)
    requires |oneStep| == |params|
    ensures closed.Some? ==> |closed.value| == |params|
  {
    if AllRecognised(oneStep, params, simplify) then Some(AllElementary(oneStep, params, ind, simplify))
    else if recurrence(oneStep).Some? && |recurrence(oneStep).value| == |params| then recurrence(oneStep)
    else None
  }

  /** What solve_composite returns, as a function of its arguments. */
  function SolutionOf(word: Word, trs: map<Symbol, Transition>, params: seq<nat>, ind: nat,
                      simplify: Rewriter, recurrence: Recurrence, solver: Solver): (r: Option<Solution>)
    requires Distinct(params)
    ensures r.Some? ==> |r.value.oneStep| == |params| == |r.value.closed|
  {
    if word == [] || params == [] || !Composable(word, trs, |params|) then None
    else
      var oneStep := CompositeOf(word, trs, params);
      match FormsOf(oneStep, params, ind, simplify, recurrence)
      case None => None
      case Some(closed) =>
        if Certified(oneStep, closed, params, ind, solver) then
            Some(Solution(simplify(GuardOf(word, trs, params)), oneStep, closed))
        else None
  }

  /** The composite of a candidate word. The proposal for its closed form is never trusted: a
      solution is returned only certified, and then it gives every iterate of the word's map. With a
      solver that decides there is a solution exactly if the word can be composed and its map consists
      of translations and resets or the proposal gives every iterate. */
  method SolveComposite(word: Word, trs: map<Symbol, Transition>, params: seq<nat>, ind: nat,
                        simplify: Rewriter, recurrence: Recurrence, solver: Solver)
    returns (result: Option<Solution>)
    requires Distinct(params) && ind !in params && PlainTransitions(trs) && !Mentions(trs, ind)
    requires Simplifies(simplify) && ProposesPlain(recurrence) && Sound(solver)
    ensures result.Some? ==>
      && word != [] && params != []
      && Composite(word, trs, params, result.value.guard, result.value.oneStep)
      && Closes(result.value.oneStep, result.value.closed, params, ind) && Plain(result.value.closed)
    ensures result == SolutionOf(word, trs, params, ind, simplify, recurrence, solver)
    ensures result.Some? ==> Solvable(word, trs, params, ind, simplify, recurrence)
    ensures Decides(solver) && Solvable(word, trs, params, ind, simplify, recurrence) ==> result.Some?
    ensures
      && Decides(solver) && word != [] && params != []
      && (forall k | 0 <= k < |word| :: word[k] in trs && |trs[word[k]].updates| == |params|)
      && (var oneStep := CompositeOf(word, trs, params);
          forall i | 0 <= i < |params| ::
            Free(oneStep[i], params) || Free(simplify(Minus(oneStep[i], Var(params[i]))), params))
      ==> result.Some?
  {
    if word == [] || params == [] { return None; }
    var ok, guard, oneStep := Compose(word, trs, params, simplify);
    if !ok { return None; }
    hide SolutionOf, FormsOf, Solvable, HasForms, ElementaryForm, Composite, Elementary, Occurs, QuantifierFree,
        Mentions, CompositeOf, GuardOf, AllRecognised, AllElementary, Certified, Iterate,
        At;
    CompositePlain(word, trs, params, ind, guard, oneStep);
    var elementary, closed := ElementaryForms(oneStep, params, ind, simplify);
    if !elementary {
      var proposal := recurrence(oneStep);
      if proposal.None? || |proposal.value| != |params| {
        SolutionIs(word, trs, params, ind, simplify, recurrence, solver, None, false);
        return None;
      }
      closed := proposal.value;
    }
    if elementary && Decides(solver) { ElementaryAlwaysCertified(oneStep, closed, params, ind, solver); }
    var certified := Certify(oneStep, closed, params, ind, solver);
    SolutionIs(word, trs, params, ind, simplify, recurrence, solver, Some(closed), certified);
    if !certified { return None; }
    result := Some(Solution(guard, oneStep, closed));
  }

  /** The guard and the map of a word are those of running it. */
  lemma {:induction false} CompositeHolds(word: Word, trs: map<Symbol, Transition>, params: seq<nat>)
    requires Distinct(params) && PlainTransitions(trs) && Composable(word, trs, |params|)
    ensures Composite(word, trs, params, GuardOf(word, trs, params), CompositeOf(word, trs, params))
  {
    hide Composite, Replace, ParamMap, PlainTransitions;
    if word == [] {
      ComposeNothing(trs, params, CompositeOf([], trs, params));
    } else {
      var k := |word| - 1;
      CompositeHolds(word[..k], trs, params);
      assert word[..k + 1] == word;
      ComposeOne(word, k, trs, params, GuardOf(word[..k], trs, params), CompositeOf(word[..k], trs, params));
    }
  }

  /** With a solver that decides a form is found and certified exactly if there is one to be found. */
  lemma FormsExactly(oneStep: seq<Term>, params: seq<nat>, ind: nat, simplify: Rewriter, recurrence: Recurrence,
      solver: Solver)
    requires Distinct(params) && ind !in params && |oneStep| == |params| && Plain(oneStep)
    requires forall i | 0 <= i < |oneStep| :: !Occurs(ind, oneStep[i])
    requires Simplifies(simplify) && ProposesPlain(recurrence) && Decides(solver)
    ensures HasForms(oneStep, params, ind, simplify, recurrence) <==>
      var closed := FormsOf(oneStep, params, ind, simplify, recurrence);
      closed.Some? && Certified(oneStep, closed.value, params, ind, solver)
  {
    hide Elementary, Occurs, QuantifierFree, ElementaryForm, Recognised, Closes, Certified, FormFits;
    if AllRecognised(oneStep, params, simplify) {
      var closed := AllElementary(oneStep, params, ind, simplify);
      forall i | 0 <= i < |params| ensures FormFits(oneStep[i], closed[i], params, i, ind, simplify) {
        RecognisedFits(oneStep[i], params, i, ind, simplify);
      }
      FormsFit(oneStep, closed, params, ind, simplify);
      ElementaryAlwaysCertified(oneStep, closed, params, ind, solver);
      CertifiedExactly(oneStep, closed, params, ind, solver);
    } else if recurrence(oneStep).Some? {
      if |recurrence(oneStep).value| == |params| {
        CertifiedExactly(oneStep, recurrence(oneStep).value, params, ind, solver);
      }
      else { WrongWidth(oneStep, recurrence(oneStep).value, params, ind); }
    }
  }

  /** With a solver that decides there is a solution exactly for a solvable word. */
  lemma SolutionExactly(word: Word, trs: map<Symbol, Transition>, params: seq<nat>, ind: nat, simplify: Rewriter,
                        recurrence: Recurrence, solver: Solver)
    requires Distinct(params) && ind !in params && PlainTransitions(trs) && !Mentions(trs, ind)
    requires Simplifies(simplify) && ProposesPlain(recurrence) && Decides(solver)
    ensures SolutionOf(word, trs, params, ind, simplify, recurrence, solver).Some? <==>
      Solvable(word, trs, params, ind, simplify, recurrence)
  {
    hide Composite, GuardOf, CompositeOf, Mentions, Occurs, QuantifierFree, Certified, PlainTransitions, Composable,
        FormsOf, HasForms, Simplifies,
        ProposesPlain, Decides;
    if word != [] && params != [] && Composable(word, trs, |params|) {
      CompositeHolds(word, trs, params);
      CompositePlain(word, trs, params, ind, GuardOf(word, trs, params), CompositeOf(word, trs, params));
      FormsExactly(CompositeOf(word, trs, params), params, ind, simplify, recurrence, solver);
    }
  }

  lemma WrongWidth(oneStep: seq<Term>, closed: seq<Term>, params: seq<nat>, ind: nat)
    requires Distinct(params) && |oneStep| == |params| && |closed| != |params|
    ensures !Closes(oneStep, closed, params, ind)
  {
  }

  /** The result in terms of the form that was tried. */
  lemma SolutionIs(word: Word, trs: map<Symbol, Transition>, params: seq<nat>, ind: nat, simplify: Rewriter,
                   recurrence: Recurrence, solver: Solver, closed: Option<seq<Term>>, certified: bool)
    requires Distinct(params) && word != [] && params != [] && Composable(word, trs, |params|)
    requires var oneStep := CompositeOf(word, trs, params);
      && closed == FormsOf(oneStep, params, ind, simplify, recurrence)
      && (closed.Some? ==> certified == Certified(oneStep, closed.value, params, ind, solver))
    ensures SolutionOf(word, trs, params, ind, simplify, recurrence, solver) ==
      if closed.Some? && certified then
        Some(Solution(simplify(GuardOf(word, trs, params)), CompositeOf(word, trs, params), closed.value))
      else None
  {
    hide CompositeOf, GuardOf, FormsOf, Certified;
  }

  lemma CompositePlain(word: Word, trs: map<Symbol, Transition>, params: seq<nat>, ind: nat, guard: Term,
      oneStep: seq<Term>)
    requires Distinct(params) && ind !in params && !Mentions(trs, ind) && Composite(word, trs, params, guard, oneStep)
    ensures |oneStep| == |params| && Plain(oneStep)
    ensures forall i | 0 <= i < |oneStep| :: !Occurs(ind, oneStep[i])
  {
  }

  /** With a solver that always decides, translations and resets are always accelerated. */
  lemma ElementaryAlwaysCertified(oneStep: seq<Term>, closed: seq<Term>, params: seq<nat>, ind: nat, solver: Solver)
    requires Distinct(params) && ind !in params && |closed| == |params| == |oneStep|
    requires Plain(closed) && Plain(oneStep) && forall i | 0 <= i < |oneStep| :: !Occurs(ind, oneStep[i])
    requires Elementary(oneStep, closed, params, ind) && Decides(solver)
    ensures solver(BaseQuery(closed, params, ind)).Unsat? && solver(StepQuery(oneStep, closed, params, ind)).Unsat?
    ensures Closes(oneStep, closed, params, ind)
  {
    hide BaseQuery, StepQuery, QuantifierFree, Occurs, Elementary;
    var base, step := solver(BaseQuery(closed, params, ind)), solver(StepQuery(oneStep, closed, params, ind));
    if base.Sat? { ElementaryCertifies(oneStep, closed, params, ind, base.model); }
    if step.Sat? { ElementaryCertifies(oneStep, closed, params, ind, step.model); }
    forall e: Env, s: State, n: nat | |s| == |params|
      ensures EvalAll(closed, At(e, params, s, ind, n)) == Iterate(oneStep, params, e, s, n)
    {
      CertifiedIterates(oneStep, closed, params, ind, e, s, n);
    }
  }
}
