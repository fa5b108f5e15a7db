/** Splitting a conditional recurrence into cases, one innermost conditional at a time. */
module SplitIte {
  import opened Bits
  import opened Terms
  import opened Wrappers

  datatype Equation = Equation(lhs: Term, rhs: Term)
  datatype TransitionCase = TransitionCase(condition: Term, equations: seq<Equation>)

  /* ---- innermost conditionals ---- */

  /** find_innermost_ite: the first conditional, outside quantifiers, whose parts have none. */
  function FindInnermostIte(t: Term): (r: Option<Term>)
    ensures r.None? <==> IteFree(t)
    ensures r.Some? ==> Innermost(r.value) && Inside(r.value, t)
    decreases t
  {
    match t
    case App(_, args) => FindInArguments(args, 0)
    case Ite(c, a, b) =>
      var inCond := FindInnermostIte(c);
      if inCond.Some? then inCond
      else
        var inThen := FindInnermostIte(a);
        if inThen.Some? then inThen
        else
          var inElse := FindInnermostIte(b);
          if inElse.Some? then inElse else Some(t)
    case _ => None
  }

  function FindInArguments(ts: seq<Term>, i: nat): (r: Option<Term>)
    requires i <= |ts|
    ensures r.None? <==> forall k | i <= k < |ts| :: IteFree(ts[k])
    ensures r.Some? ==> Innermost(r.value)
    ensures r.Some? ==> exists k :: i <= k < |ts| && Inside(r.value, ts[k])
    decreases ts, |ts| - i
  {
    if i == |ts| then None
    else
      var nested := FindInnermostIte(ts[i]);
      if nested.Some? then nested else FindInArguments(ts, i + 1)
  }

  /** A conditional whose parts have none. */
  predicate Innermost(u: Term) { u.Ite? && IteFree(u.cond) && IteFree(u.thn) && IteFree(u.els) }

  /** The term occurs outside quantifiers. */
  predicate Inside(u: Term, t: Term) {
    u == t || match t
      case App(_, args) => exists i | 0 <= i < |args| :: Inside(u, args[i])
      case Ite(c, a, b) => Inside(u, c) || Inside(u, a) || Inside(u, b)
      case _ => false
  }

  /** The number of conditionals outside quantifiers, occurrence by occurrence. */
  function Ites(t: Term): nat
    decreases t
  {
    match t
    case App(_, args) => ItesIn(args)
    case Ite(c, a, b) => 1 + Ites(c) + Ites(a) + Ites(b)
    case _ => 0
  }

  function ItesIn(ts: seq<Term>): nat
    decreases ts
  {
    if ts == [] then 0 else Ites(ts[0]) + ItesIn(ts[1..])
  }

  lemma {:induction false} IteFreeHasNone(t: Term)
    requires IteFree(t)
    ensures Ites(t) == 0
    decreases t
  {
    if t.App? { NoneIn(t.args); }
  }

  lemma {:induction false} NoneIn(ts: seq<Term>)
    requires forall i | 0 <= i < |ts| :: IteFree(ts[i])
    ensures ItesIn(ts) == 0
    decreases ts
  {
    if ts != [] {
      IteFreeHasNone(ts[0]);
      NoneIn(ts[1..]);
    }
  }

  /** Replacing a conditional by a term without one removes it and adds none. */
  lemma {:induction false} ReplaceCounts(t: Term, u: Term, v: Term)
    requires u.Ite? && IteFree(v)
    ensures Ites(Replace(t, map[u := v])) <= Ites(t)
    ensures Inside(u, t) ==> Ites(Replace(t, map[u := v])) < Ites(t)
    decreases t
  {
    var m := map[u := v];
    if t == u {
      IteFreeHasNone(v);
    } else {
      match t
      case App(op, args) =>
        assert Replace(t, m) == App(op, ReplaceAll(args, m));
        ReplaceCountsIn(args, u, v);
      case Ite(c, a, b) =>
        ReplaceCounts(c, u, v);
        ReplaceCounts(a, u, v);
        ReplaceCounts(b, u, v);
      case _ =>
    }
  }

  lemma {:induction false} ReplaceCountsIn(ts: seq<Term>, u: Term, v: Term)
    requires u.Ite? && IteFree(v)
    ensures ItesIn(ReplaceAll(ts, map[u := v])) <= ItesIn(ts)
    ensures (exists i | 0 <= i < |ts| :: Inside(u, ts[i])) ==> ItesIn(ReplaceAll(ts, map[u := v])) < ItesIn(ts)
    decreases ts
  {
    if ts != [] {
      ReplaceCounts(ts[0], u, v);
      ReplaceCountsIn(ts[1..], u, v);
      var after := ReplaceAll(ts, map[u := v]);
      assert after[1..] == ReplaceAll(ts[1..], map[u := v]);
      if i :| 0 <= i < |ts| && Inside(u, ts[i]) { if i > 0 { assert ts[1..][i - 1] == ts[i]; } }
    }
  }

  /* ---- names ---- */

  /** Quantifiers bind names from m on, free variables lie below: the solver's bound variables are
      nameless, so no substitution can capture. */
  ghost predicate Hygienic(t: Term, m: nat) { BindsAbove(t, m) && forall id: nat :: Occurs(id, t) ==> id < m }

  lemma {:induction false} PartsHygienic(u: Term, t: Term, m: nat)
    requires Hygienic(t, m) && Inside(u, t)
    ensures Hygienic(u, m)
    decreases t
  {
    if u != t {
      match t
      case App(_, args) =>
        var i :| 0 <= i < |args| && Inside(u, args[i]);
        assert forall id: nat :: Occurs(id, args[i]) ==> Occurs(id, t);
        PartsHygienic(u, args[i], m);
      case Ite(c, a, b) =>
        assert forall id: nat :: Occurs(id, c) || Occurs(id, a) || Occurs(id, b) ==> Occurs(id, t);
        if Inside(u, c) { PartsHygienic(u, c, m); }
        else if Inside(u, a) { PartsHygienic(u, a, m); }
        else { PartsHygienic(u, b, m); }
      case _ =>
    }
  }

  lemma {:induction false} NeverCaptures(t: Term, u: Term, v: Term, m: nat)
    requires BindsAbove(t, m) && Hygienic(u, m) && Hygienic(v, m)
    ensures CaptureFree(t, map[u := v])
  {
    hide Occurs;
    match t
    case App(_, args) =>
      forall i | 0 <= i < |args| ensures CaptureFree(args[i], map[u := v]) { NeverCaptures(args[i], u, v, m); }
    case Ite(c, a, b) => NeverCaptures(c, u, v, m); NeverCaptures(a, u, v, m); NeverCaptures(b, u, v, m);
    case Quant(_, x, body) => NeverCaptures(body, u, v, m);
    case _ =>
  }

  lemma {:induction false} ReplaceBindsAbove(t: Term, u: Term, v: Term, m: nat)
    requires BindsAbove(t, m) && BindsAbove(v, m)
    ensures BindsAbove(Replace(t, map[u := v]), m)
  {
    var mp := map[u := v];
    if t != u {
      match t
      case App(op, args) =>
        assert Replace(t, mp) == App(op, ReplaceAll(args, mp));
        forall i | 0 <= i < |args| ensures BindsAbove(Replace(args[i], mp), m) { ReplaceBindsAbove(args[i], u, v, m); }
      case Ite(c, a, b) => ReplaceBindsAbove(c, u, v, m); ReplaceBindsAbove(a, u, v, m); ReplaceBindsAbove(b, u, v, m);
      case Quant(_, _, body) => ReplaceBindsAbove(body, u, v, m);
      case _ =>
    }
  }

  lemma {:induction false} ReplaceOccurs(id: nat, t: Term, u: Term, v: Term)
    requires Occurs(id, Replace(t, map[u := v]))
    ensures Occurs(id, t) || Occurs(id, v)
  {
    var mp := map[u := v];
    if t != u {
      match t
      case App(op, args) =>
        assert Replace(t, mp) == App(op, ReplaceAll(args, mp));
        var i :| 0 <= i < |args| && Occurs(id, ReplaceAll(args, mp)[i]);
        ReplaceOccurs(id, args[i], u, v);
      case Ite(c, a, b) =>
        if Occurs(id, Replace(c, mp)) { ReplaceOccurs(id, c, u, v); }
        else if Occurs(id, Replace(a, mp)) { ReplaceOccurs(id, a, u, v); }
        else { ReplaceOccurs(id, b, u, v); }
      case Quant(_, x, body) => ReplaceOccurs(id, body, u, v);
      case _ =>
    }
  }

  lemma ReplaceHygienic(t: Term, u: Term, v: Term, m: nat)
    requires Hygienic(t, m) && Hygienic(v, m)
    ensures Hygienic(Replace(t, map[u := v]), m)
  {
    hide Occurs, Replace, BindsAbove;
    ReplaceBindsAbove(t, u, v, m);
    forall id: nat | Occurs(id, Replace(t, map[u := v])) ensures id < m { ReplaceOccurs(id, t, u, v); }
  }

  /** Where a conditional has the value of a branch, it can be replaced by the branch. */
  lemma ReplaceMeans(t: Term, u: Term, v: Term, m: nat, e: Env)
    requires Hygienic(t, m) && Hygienic(u, m) && Hygienic(v, m) && Eval(u, e) == Eval(v, e)
    ensures Eval(Replace(t, map[u := v]), e) == Eval(t, e)
  {
    hide Occurs, Replace, BindsAbove, Eval, CaptureFree;
    NeverCaptures(t, u, v, m);
    EvalReplace(t, map[u := v], e, e);
  }

  /* ---- cases ---- */

  ghost predicate CaseHygienic(c: TransitionCase, m: nat) {
    Hygienic(c.condition, m) && forall i | 0 <= i < |c.equations| :: Hygienic(c.equations[i].rhs, m)
  }

  function CaseIteFree(c: TransitionCase): bool {
    IteFree(c.condition) && forall i | 0 <= i < |c.equations| :: IteFree(c.equations[i].rhs)
  }

  function CaseItes(c: TransitionCase): nat { Ites(c.condition) + EquationItes(c.equations) }

  function EquationItes(es: seq<Equation>): nat {
    if es == [] then 0 else Ites(es[0].rhs) + EquationItes(es[1..])
  }

  /** The weight of a pending case: more than that of two cases with a conditional less. */
  function Weight(c: TransitionCase): nat { 2 * Pow2(CaseItes(c)) - 1 }

  function TotalWeight(cs: seq<TransitionCase>): nat {
    if cs == [] then 0 else TotalWeight(cs[..|cs| - 1]) + Weight(cs[|cs| - 1])
  }

  lemma WeightSnoc(cs: seq<TransitionCase>, c: TransitionCase)
    ensures TotalWeight(cs + [c]) == TotalWeight(cs) + Weight(c)
  {
    assert (cs + [c])[..|cs|] == cs;
  }

  lemma SplitWeighsLess(c: TransitionCase, left: TransitionCase, right: TransitionCase)
    requires CaseItes(left) < CaseItes(c) && CaseItes(right) < CaseItes(c)
    ensures Weight(left) + Weight(right) < Weight(c)
  {
    var n := CaseItes(c) - 1;
    Pow2Monotone(CaseItes(left), n);
    Pow2Monotone(CaseItes(right), n);
    assert Pow2(n + 1) == 2 * Pow2(n);
  }

  /** How many of the cases apply. */
  ghost function Applying(cs: seq<TransitionCase>, e: Env): nat {
    if cs == [] then 0 else Applying(cs[..|cs| - 1], e) + B(Holds(cs[|cs| - 1].condition, e))
  }

  lemma ApplyingSnoc(cs: seq<TransitionCase>, c: TransitionCase, e: Env)
    ensures Applying(cs + [c], e) == Applying(cs, e) + B(Holds(c.condition, e))
  {
    assert (cs + [c])[..|cs|] == cs;
  }

  lemma {:induction false} AppliesOnce(cs: seq<TransitionCase>, e: Env)
    ensures Applying(cs, e) == 0 <==> forall i | 0 <= i < |cs| :: !Holds(cs[i].condition, e)
    ensures Applying(cs, e) == 1 ==> exists i :: OnlyApplies(cs, e, i)
  {
    if cs != [] {
      var n := |cs| - 1;
      AppliesOnce(cs[..n], e);
      if Applying(cs, e) == 1 {
        if Holds(cs[n].condition, e) {
          assert forall i | 0 <= i < n :: !Holds(cs[..n][i].condition, e);
          assert OnlyApplies(cs, e, n);
        } else {
          var i :| OnlyApplies(cs[..n], e, i);
          forall j | 0 <= j < |cs| && j != i ensures !Holds(cs[j].condition, e) {
            if j < n { assert cs[j] == cs[..n][j]; }
          }
          assert OnlyApplies(cs, e, i);
        }
      }
      if Applying(cs, e) == 0 {
        forall i | 0 <= i < |cs| ensures !Holds(cs[i].condition, e) { if i < n { assert cs[i] == cs[..n][i]; } }
      }
    }
  }

  ghost predicate OnlyApplies(cs: seq<TransitionCase>, e: Env, i: int) {
    0 <= i < |cs| && Holds(cs[i].condition, e) && forall j | 0 <= j < |cs| && j != i :: !Holds(cs[j].condition, e)
  }

  /** The same equations, as far as their values go. */
  ghost predicate SameUpdate(c: TransitionCase, equations: seq<Equation>, e: Env) {
    |c.equations| == |equations| && forall i | 0 <= i < |equations| ::
      c.equations[i].lhs == equations[i].lhs && Eval(c.equations[i].rhs, e) == Eval(equations[i].rhs, e)
  }

  ghost predicate Faithful(cs: seq<TransitionCase>, equations: seq<Equation>) {
    forall i, e | 0 <= i < |cs| && Holds(cs[i].condition, e) :: SameUpdate(cs[i], equations, e)
  }

  /* ---- one split ---- */

  /** The first innermost conditional of the condition, else of an equation. */
  method FindCaseIte(c: TransitionCase) returns (ite: Option<Term>)
    ensures ite.None? <==> CaseIteFree(c)
    ensures ite.Some? ==> Innermost(ite.value)
    ensures ite.Some? ==> Inside(ite.value, c.condition) || exists i ::
        0 <= i < |c.equations| && Inside(ite.value, c.equations[i].rhs)
  {
    ite := FindInnermostIte(c.condition);
    if ite.None? {
      var i := 0;
      while i < |c.equations|
        invariant 0 <= i <= |c.equations|
        invariant ite.None? && IteFree(c.condition) && forall k | 0 <= k < i :: IteFree(c.equations[k].rhs)
      {
        ite := FindInnermostIte(c.equations[i].rhs);
        if ite.Some? { return; }
        i := i + 1;
      }
    }
  }

  function ReplaceEquations(es: seq<Equation>, u: Term, v: Term): (r: seq<Equation>)
    ensures |r| == |es|
  {
    seq(|es|, i requires 0 <= i < |es| => es[i].(rhs := Replace(es[i].rhs, map[u := v])))
  }

  /** Taking one branch of a conditional. */
  function Branch(c: TransitionCase, u: Term, thenBranch: bool, simplify: Rewriter): TransitionCase
    requires u.Ite?
  {
    var v := if thenBranch then u.thn else u.els;
    var taken := if thenBranch then u.cond else Negate(u.cond);
    TransitionCase(simplify(Conj(Replace(c.condition, map[u := v]), taken)), ReplaceEquations(c.equations, u, v))
  }

  /** A simplifier that does not introduce conditionals or names. */
  ghost predicate Tidies(simplify: Rewriter) {
    && Preserves(simplify)
    && (forall t :: Ites(simplify(t)) <= Ites(t))
    && (forall t, m: nat | BindsAbove(t, m) :: BindsAbove(simplify(t), m))
  }

  lemma Tidied(simplify: Rewriter, t: Term, m: nat)
    requires Tidies(simplify)
    ensures Ites(simplify(t)) <= Ites(t)
    ensures Hygienic(t, m) ==> Hygienic(simplify(t), m)
    ensures forall e :: Holds(simplify(t), e) <==> Holds(t, e)
  {
    hide Eval, Occurs, Ites, BindsAbove;
    assert forall e :: Eval(simplify(t), e) == Eval(t, e);
  }

  lemma {:induction false} EquationCounts(es: seq<Equation>, u: Term, v: Term)
    requires u.Ite? && IteFree(v)
    ensures EquationItes(ReplaceEquations(es, u, v)) <= EquationItes(es)
    ensures (exists i :: 0 <= i < |es| && Inside(u, es[i].rhs)) ==>
        EquationItes(ReplaceEquations(es, u, v)) < EquationItes(es)
  {
    hide Ites, Replace, Inside;
    if es != [] {
      ReplaceCounts(es[0].rhs, u, v);
      EquationCounts(es[1..], u, v);
      var after := ReplaceEquations(es, u, v);
      assert after[1..] == ReplaceEquations(es[1..], u, v);
      if i :| 0 <= i < |es| && Inside(u, es[i].rhs) { if i > 0 { assert es[1..][i - 1] == es[i]; } }
    }
  }

  lemma ConjItes(a: Term, b: Term)
    ensures Ites(Conj(a, b)) == Ites(a) + Ites(b) && Ites(Negate(a)) == Ites(a)
  {
    var two, one := [a, b], [a];
    assert two[1..] == [b] && [b][1..] == [] && one[1..] == [];
    assert ItesIn([b]) == Ites(b);
  }

  lemma BranchCounts(c: TransitionCase, u: Term, thenBranch: bool, simplify: Rewriter)
    requires Tidies(simplify) && Innermost(u)
    requires Inside(u, c.condition) || exists i :: 0 <= i < |c.equations| && Inside(u, c.equations[i].rhs)
    ensures CaseItes(Branch(c, u, thenBranch, simplify)) < CaseItes(c)
  {
    hide Ites, Replace, Inside, Tidies, IteFree;
    var v := if thenBranch then u.thn else u.els;
    var taken := if thenBranch then u.cond else Negate(u.cond);
    Tidied(simplify, Conj(Replace(c.condition, map[u := v]), taken), 0);
    ReplaceCounts(c.condition, u, v);
    EquationCounts(c.equations, u, v);
    IteFreeHasNone(u.cond);
    ConjItes(u.cond, u.cond);
    ConjItes(Replace(c.condition, map[u := v]), taken);
  }

  lemma ConjHygienic(a: Term, b: Term, m: nat)
    requires Hygienic(a, m) && Hygienic(b, m)
    ensures Hygienic(Conj(a, b), m) && Hygienic(Negate(a), m)
  {
    assert [a, b][0] == a && [a, b][1] == b && [a][0] == a;
    var both := App(Op.And, [a, b]);
    forall id: nat | Occurs(id, both) ensures id < m { var i :| 0 <= i < 2 && Occurs(id, [a, b][i]); }
  }

  lemma BranchHygienic(c: TransitionCase, u: Term, thenBranch: bool, simplify: Rewriter, m: nat)
    requires Tidies(simplify) && u.Ite? && CaseHygienic(c, m) && Hygienic(u, m)
    ensures CaseHygienic(Branch(c, u, thenBranch, simplify), m)
  {
    var v := if thenBranch then u.thn else u.els;
    assert Hygienic(u.cond, m) && Hygienic(v, m) by { PartsOf(u, m); }
    hide Replace, Hygienic, Ites, Tidies;
    var taken := if thenBranch then u.cond else Negate(u.cond);
    ConjHygienic(u.cond, u.cond, m);
    ReplaceHygienic(c.condition, u, v, m);
    ConjHygienic(Replace(c.condition, map[u := v]), taken, m);
    Tidied(simplify, Conj(Replace(c.condition, map[u := v]), taken), m);
    forall i | 0 <= i < |c.equations| ensures Hygienic(Replace(c.equations[i].rhs, map[u := v]), m) {
      ReplaceHygienic(c.equations[i].rhs, u, v, m);
    }
  }

  lemma PartsOf(u: Term, m: nat)
    requires u.Ite? && Hygienic(u, m)
    ensures Hygienic(u.cond, m) && Hygienic(u.thn, m) && Hygienic(u.els, m)
  {
    forall id: nat | Occurs(id, u.cond) || Occurs(id, u.thn) || Occurs(id, u.els) ensures id < m {
      assert Occurs(id, u);
    }
  }

  lemma BranchValue(u: Term, thenBranch: bool, e: Env)
    requires u.Ite? && (Holds(u.cond, e) <==> thenBranch)
    ensures Eval(u, e) == Eval(if thenBranch then u.thn else u.els, e)
  {
  }

  /** A branch applies where the case and the branch's condition do, and updates alike there. */
  lemma BranchMeans(c: TransitionCase, u: Term, thenBranch: bool, simplify: Rewriter, m: nat, e: Env)
    requires Tidies(simplify) && u.Ite? && CaseHygienic(c, m) && Hygienic(u, m)
    ensures var r := Branch(c, u, thenBranch, simplify);
      && (Holds(r.condition, e) <==> Holds(c.condition, e) && (Holds(u.cond, e) <==> thenBranch))
      && (Holds(r.condition, e) ==> SameUpdate(r, c.equations, e))
  {
    hide Eval, Replace, Hygienic, Tidies;
    PartsOf(u, m);
    var v := if thenBranch then u.thn else u.els;
    var taken := if thenBranch then u.cond else Negate(u.cond);
    var r := Branch(c, u, thenBranch, simplify);
    if Holds(u.cond, e) <==> thenBranch { BranchValue(u, thenBranch, e); }
    Tidied(simplify, Conj(Replace(c.condition, map[u := v]), taken), m);
    assert Holds(r.condition, e) <==> Holds(Replace(c.condition, map[u := v]), e) && (Holds(u.cond, e) <==> thenBranch);
    if Holds(u.cond, e) <==> thenBranch {
      ReplaceMeans(c.condition, u, v, m, e);
      forall i | 0 <= i < |c.equations|
          ensures Eval(Replace(c.equations[i].rhs, map[u := v]), e) == Eval(c.equations[i].rhs, e) {
        ReplaceMeans(c.equations[i].rhs, u, v, m, e);
      }
    }
  }

  lemma IteHygienic(c: TransitionCase, u: Term, m: nat)
    requires CaseHygienic(c, m)
    requires Inside(u, c.condition) || exists i :: 0 <= i < |c.equations| && Inside(u, c.equations[i].rhs)
    ensures Hygienic(u, m)
  {
    hide Inside, Hygienic;
    if Inside(u, c.condition) { PartsHygienic(u, c.condition, m); }
    else {
      var i :| 0 <= i < |c.equations| && Inside(u, c.equations[i].rhs);
      PartsHygienic(u, c.equations[i].rhs, m);
    }
  }

  /* ---- the worklist ---- */

  /** The cases done and pending together are the original: exactly one applies where the original
      applies, none elsewhere, and they update alike. */
  ghost predicate Covers(pending: seq<TransitionCase>, done: seq<TransitionCase>, original: TransitionCase) {
    && (forall e :: Applying(pending, e) + Applying(done, e) == B(Holds(original.condition, e)))
    && Faithful(pending, original.equations) && Faithful(done, original.equations)
  }

  lemma SplitCovers(pending: seq<TransitionCase>, done: seq<TransitionCase>, c: TransitionCase,
      original: TransitionCase,
                    u: Term, simplify: Rewriter, m: nat)
    requires Covers(pending + [c], done, original)
    requires Tidies(simplify) && u.Ite? && CaseHygienic(c, m) && Hygienic(u, m)
    ensures Covers(pending + [Branch(c, u, true, simplify)] + [Branch(c, u, false, simplify)], done, original)
  {
    hide Eval, Branch, Hygienic, Tidies;
    var left, right := Branch(c, u, true, simplify), Branch(c, u, false, simplify);
    var after := pending + [left] + [right];
    forall e ensures Applying(after, e) == Applying(pending + [c], e) {
      ApplyingSnoc(pending, c, e);
      ApplyingSnoc(pending, left, e);
      ApplyingSnoc(pending + [left], right, e);
      BranchMeans(c, u, true, simplify, m, e);
      BranchMeans(c, u, false, simplify, m, e);
    }
    assert (pending + [c])[|pending|] == c;
    forall i, e | 0 <= i < |after| && Holds(after[i].condition, e) ensures SameUpdate(after[i], original.equations, e) {
      if i < |pending| { assert after[i] == (pending + [c])[i]; }
      else { BranchMeans(c, u, i == |pending|, simplify, m, e); }
    }
  }

  lemma DoneCovers(pending: seq<TransitionCase>, done: seq<TransitionCase>, c: TransitionCase, original: TransitionCase)
    requires Covers(pending + [c], done, original)
    ensures Covers(pending, done + [c], original)
  {
    hide Eval;
    forall e ensures Applying(pending, e) + Applying(done + [c], e) == B(Holds(original.condition, e)) {
      ApplyingSnoc(pending, c, e);
      ApplyingSnoc(done, c, e);
    }
    assert (pending + [c])[|pending|] == c;
    forall i, e | 0 <= i < |pending| && Holds(pending[i].condition, e)
        ensures SameUpdate(pending[i], original.equations, e) {
      assert pending[i] == (pending + [c])[i];
    }
  }

  /** split_ite_cases terminates, leaves no conditional, and refines: where the original guard holds,
      exactly one resulting guard does, with the same updates; elsewhere none does. */
  method SplitIteCases(condition: Term, equations: seq<Equation>, simplify: Rewriter, ghost m: nat)
    returns (result: seq<TransitionCase>)
    requires Tidies(simplify) && CaseHygienic(TransitionCase(condition, equations), m)
    ensures forall i | 0 <= i < |result| :: CaseIteFree(result[i])
    ensures forall e | Holds(condition, e) :: exists i ::
        OnlyApplies(result, e, i) && SameUpdate(result[i], equations, e)
    ensures forall e, i | !Holds(condition, e) && 0 <= i < |result| :: !Holds(result[i].condition, e)
  {
    hide Eval, Tidies, CaseHygienic, Hygienic, CaseIteFree, Covers, Weight, Branch, Inside;
    ghost var original := TransitionCase(condition, equations);
    var pending: seq<TransitionCase> := [TransitionCase(condition, equations)];
    result := [];
    StartCovers(original);
    while pending != []
      invariant forall i | 0 <= i < |pending| :: CaseHygienic(pending[i], m)
      invariant forall i | 0 <= i < |result| :: CaseIteFree(result[i])
      invariant Covers(pending, result, original)
      decreases TotalWeight(pending)
    {
      var current := pending[|pending| - 1];
      ghost var before := pending;
      pending := pending[..|pending| - 1];
      assert before == pending + [current];
      WeightSnoc(pending, current);
      var ite := FindCaseIte(current);
      if ite.None? {
        DoneCovers(pending, result, current, original);
        WeightPositive(current);
        result := result + [current];
      } else {
        var left, right := Branch(current, ite.value, true, simplify), Branch(current, ite.value, false, simplify);
        IteHygienic(current, ite.value, m);
        InnermostIsIte(ite.value);
        SplitCovers(pending, result, current, original, ite.value, simplify, m);
        BranchHygienic(current, ite.value, true, simplify, m);
        BranchHygienic(current, ite.value, false, simplify, m);
        BranchCounts(current, ite.value, true, simplify);
        BranchCounts(current, ite.value, false, simplify);
        SplitWeighsLess(current, left, right);
        WeightSnoc(pending, left);
        WeightSnoc(pending + [left], right);
        pending := pending + [left];
        pending := pending + [right];
      }
    }
    AllDone(result, original);
  }

  lemma InnermostIsIte(u: Term)
    requires Innermost(u)
    ensures u.Ite?
  {
  }

  lemma WeightPositive(c: TransitionCase)
    ensures Weight(c) > 0
  {
  }

  lemma StartCovers(original: TransitionCase)
    ensures Covers([original], [], original)
  {
    assert [original][..0] == [];
  }

  lemma AllDone(result: seq<TransitionCase>, original: TransitionCase)
    requires Covers([], result, original)
    ensures forall e | Holds(original.condition, e) :: exists i ::
        OnlyApplies(result, e, i) && SameUpdate(result[i], original.equations, e)
    ensures forall e, i | !Holds(original.condition, e) && 0 <= i < |result| :: !Holds(result[i].condition, e)
  {
    hide Eval;
    forall e | Holds(original.condition, e)
      ensures exists i :: OnlyApplies(result, e, i) && SameUpdate(result[i], original.equations, e)
    {
      assert Applying([], e) + Applying(result, e) == 1;
      AppliesOnce(result, e);
      var i :| OnlyApplies(result, e, i);
      assert SameUpdate(result[i], original.equations, e);
    }
    forall e, i | !Holds(original.condition, e) && 0 <= i < |result| ensures !Holds(result[i].condition, e) {
      assert Applying([], e) + Applying(result, e) == 0;
      AppliesOnce(result, e);
    }
  }
}
