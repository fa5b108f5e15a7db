/** Solver terms with an evaluator and a substitution, and the oracles the source calls but does not define. */
module Terms {

  datatype Op =
    | Add | Sub | Mul | Div | Mod | Neg
    | Lt | Le | Eq
    | And | Or | Xor | Not
    | Fn(name: nat)          // an uninterpreted function

  /** Terms are untyped: a Boolean is the integer 0 or 1, and every nonzero value counts as true. */
  datatype Term =
    | Num(value: int)
    | Flag(bit: bool)        // the constants true and false
    | Var(id: nat)
    | App(op: Op, args: seq<Term>)
    | Ite(cond: Term, thn: Term, els: Term)
    | Quant(universal: bool, bound: nat, body: Term)

  /** Variables are finitely many and default to zero; functions are total. */
  datatype Env = Env(vars: map<nat, int>, fns: (nat, seq<int>) -> int)

  function Lookup(e: Env, id: nat): int {
    if id in e.vars then e.vars[id] else 0
  }

  function Set(e: Env, id: nat, v: int): Env {
    e.(vars := e.vars[id := v])
  }

  function B(b: bool): int { if b then 1 else 0 }

  function Sum(vs: seq<int>): int {
    if vs == [] then 0 else vs[0] + Sum(vs[1..])
  }

  function Product(vs: seq<int>): int {
    if vs == [] then 1 else vs[0] * Product(vs[1..])
  }

  /** The value of an operator. Division by zero is unspecified but functional, as in the solver:
      it is read off the environment. Division and remainder are otherwise Euclidean, as in the
      SMT-LIB theory of Ints. An ill-shaped application is unspecified in the same way, but a relation
      always has a truth value. */
  function Apply(op: Op, vs: seq<int>, e: Env): int {
    match op
    case Add => Sum(vs)
    case Mul => Product(vs)
    case And => B(forall i | 0 <= i < |vs| :: vs[i] != 0)
    case Or => B(exists i | 0 <= i < |vs| :: vs[i] != 0)
    case Not => if |vs| == 1 then B(vs[0] == 0) else e.fns(0, vs)
    case Neg => if |vs| == 1 then -vs[0] else e.fns(0, vs)
    case Fn(name) => e.fns(name + 3, vs)
    case Sub => if |vs| == 2 then vs[0] - vs[1] else e.fns(0, vs)
    case Div => if |vs| != 2 then e.fns(0, vs) else if vs[1] == 0 then e.fns(1, vs) else vs[0] / vs[1]
    case Mod => if |vs| != 2 then e.fns(0, vs) else if vs[1] == 0 then e.fns(2, vs) else vs[0] % vs[1]
    case Lt => if |vs| == 2 then B(vs[0] < vs[1]) else B(e.fns(0, vs) != 0)
    case Le => if |vs| == 2 then B(vs[0] <= vs[1]) else B(e.fns(0, vs) != 0)
    case Eq => if |vs| == 2 then B(vs[0] == vs[1]) else B(e.fns(0, vs) != 0)
    case Xor => if |vs| == 2 then B((vs[0] != 0) != (vs[1] != 0)) else e.fns(0, vs)
  }

  ghost function Eval(t: Term, e: Env): int {
    match t
    case Num(n) => n
    case Flag(b) => B(b)
    case Var(id) => Lookup(e, id)
    case App(op, args) =>
      Apply(op, seq(|args|, i requires 0 <= i < |args| => Eval(args[i], e)), e)
    case Ite(c, a, b) => if Eval(c, e) != 0 then Eval(a, e) else Eval(b, e)
    case Quant(universal, x, body) =>
      if universal then B(forall n: int :: Eval(body, Set(e, x, n)) != 0)
      else B(exists n: int :: Eval(body, Set(e, x, n)) != 0)
  }

  ghost function EvalAll(ts: seq<Term>, e: Env): (vs: seq<int>)
    ensures |vs| == |ts|
    ensures forall i :: 0 <= i < |ts| ==> vs[i] == Eval(ts[i], e)
  {
    seq(|ts|, i requires 0 <= i < |ts| => Eval(ts[i], e))
  }

  ghost predicate Holds(t: Term, e: Env) { Eval(t, e) != 0 }

  lemma NumMeans(n: int, e: Env)
    ensures Eval(Num(n), e) == n
  {
  }

  lemma VarMeans(id: nat, e: Env)
    ensures Eval(Var(id), e) == Lookup(e, id)
  {
  }

  /* ---- term constructors, each with the meaning of what it builds ---- */

  function Conj(a: Term, b: Term): (t: Term)
    ensures forall e :: Holds(t, e) <==> Holds(a, e) && Holds(b, e)
  {
    var t := App(And, [a, b]);
    assert forall e :: Eval(t, e) == Apply(And, [Eval(a, e), Eval(b, e)], e) by {
      forall e ensures Eval(t, e) == Apply(And, [Eval(a, e), Eval(b, e)], e) { EvalPair(And, a, b, e); }
    }
    assert forall e :: Holds(t, e) <==> Holds(a, e) && Holds(b, e) by {
      forall e ensures Holds(t, e) <==> Holds(a, e) && Holds(b, e) {
        var vs := [Eval(a, e), Eval(b, e)];
        assert vs[0] == Eval(a, e) && vs[1] == Eval(b, e);
      }
    }
    t
  }

  function Disj(a: Term, b: Term): (t: Term)
    ensures forall e :: Holds(t, e) <==> Holds(a, e) || Holds(b, e)
  {
    var t := App(Or, [a, b]);
    assert forall e :: Holds(t, e) <==> Holds(a, e) || Holds(b, e) by {
      forall e ensures Holds(t, e) <==> Holds(a, e) || Holds(b, e) {
        EvalPair(Or, a, b, e);
        var vs := [Eval(a, e), Eval(b, e)];
        assert vs[0] == Eval(a, e) && vs[1] == Eval(b, e);
      }
    }
    t
  }

  function Negate(a: Term): (t: Term)
    ensures forall e :: Holds(t, e) <==> !Holds(a, e)
  {
    var t := App(Not, [a]);
    assert forall e :: Holds(t, e) <==> !Holds(a, e) by {
      forall e ensures Holds(t, e) <==> !Holds(a, e) {
        assert seq(1, i requires 0 <= i < 1 => Eval([a][i], e)) == [Eval(a, e)];
      }
    }
    t
  }

  function Binary(op: Op, a: Term, b: Term): (t: Term)
    ensures forall e :: Eval(t, e) == Apply(op, [Eval(a, e), Eval(b, e)], e)
  {
    assert forall e :: Eval(App(op, [a, b]), e) == Apply(op, [Eval(a, e), Eval(b, e)], e) by {
      forall e ensures Eval(App(op, [a, b]), e) == Apply(op, [Eval(a, e), Eval(b, e)], e) { EvalPair(op, a, b, e); }
    }
    App(op, [a, b])
  }

  function Plus(a: Term, b: Term): (t: Term)
    ensures forall e :: Eval(t, e) == Eval(a, e) + Eval(b, e)
  {
    assert forall x: int, y: int :: Sum([x, y]) == x + y by {
      forall x: int, y: int ensures Sum([x, y]) == x + y {
        var s, last := [x, y], [y];
        assert s[1..] == last && last[1..] == [];
        assert Sum(last) == y;
      }
    }
    Binary(Add, a, b)
  }

  function Minus(a: Term, b: Term): (t: Term)
    ensures forall e :: Eval(t, e) == Eval(a, e) - Eval(b, e)
  {
    Binary(Sub, a, b)
  }

  function Times(a: Term, b: Term): (t: Term)
    ensures forall e :: Eval(t, e) == Eval(a, e) * Eval(b, e)
  {
    assert forall x: int, y: int :: Product([x, y]) == x * y by {
      forall x: int, y: int ensures Product([x, y]) == x * y {
        var s, last := [x, y], [y];
        assert s[1..] == last && last[1..] == [];
        assert Product(last) == y;
      }
    }
    Binary(Mul, a, b)
  }

  function Equals(a: Term, b: Term): (t: Term)
    ensures forall e :: Holds(t, e) <==> Eval(a, e) == Eval(b, e)
  {
    Binary(Eq, a, b)
  }

  function AtMost(a: Term, b: Term): (t: Term)
    ensures forall e :: Holds(t, e) <==> Eval(a, e) <= Eval(b, e)
  {
    Binary(Le, a, b)
  }

  function Less(a: Term, b: Term): (t: Term)
    ensures forall e :: Holds(t, e) <==> Eval(a, e) < Eval(b, e)
  {
    Binary(Lt, a, b)
  }

  lemma EvalPair(op: Op, a: Term, b: Term, e: Env)
    ensures Eval(App(op, [a, b]), e) == Apply(op, [Eval(a, e), Eval(b, e)], e)
  {
    var args := [a, b];
    assert seq(|args|, i requires 0 <= i < |args| => Eval(args[i], e)) == [Eval(a, e), Eval(b, e)];
  }

  lemma EvalApp(op: Op, args: seq<Term>, e: Env)
    ensures Eval(App(op, args), e) == Apply(op, EvalAll(args, e), e)
  {
    assert seq(|args|, i requires 0 <= i < |args| => Eval(args[i], e)) == EvalAll(args, e);
  }

  function ConjAll(ts: seq<Term>): (t: Term)
    ensures forall e :: Holds(t, e) <==> forall i | 0 <= i < |ts| :: Holds(ts[i], e)
  {
    assert forall e :: Holds(App(And, ts), e) <==> forall i | 0 <= i < |ts| :: Holds(ts[i], e) by {
      forall e ensures Holds(App(And, ts), e) <==> forall i | 0 <= i < |ts| :: Holds(ts[i], e) {
        EvalApp(And, ts, e);
        var vs := EvalAll(ts, e);
        assert forall i | 0 <= i < |ts| :: vs[i] != 0 <==> Holds(ts[i], e);
      }
    }
    App(And, ts)
  }

  function ForAll(x: nat, body: Term): (t: Term)
    ensures forall e :: Holds(t, e) <==> forall n: int :: Holds(body, Set(e, x, n))
  {
    Quant(true, x, body)
  }

  function Exists(x: nat, body: Term): (t: Term)
    ensures forall e :: Holds(t, e) <==> exists n: int :: Holds(body, Set(e, x, n))
  {
    Quant(false, x, body)
  }

  function Implies(a: Term, b: Term): (t: Term)
    ensures forall e :: Holds(t, e) <==> (Holds(a, e) ==> Holds(b, e))
  {
    Disj(Negate(a), b)
  }

  function DisjAll(ts: seq<Term>): (t: Term)
    ensures forall e :: Holds(t, e) <==> exists i | 0 <= i < |ts| :: Holds(ts[i], e)
  {
    assert forall e :: Holds(App(Or, ts), e) <==> exists i | 0 <= i < |ts| :: Holds(ts[i], e) by {
      forall e ensures Holds(App(Or, ts), e) <==> exists i | 0 <= i < |ts| :: Holds(ts[i], e) {
        EvalApp(Or, ts, e);
        var vs := EvalAll(ts, e);
        assert forall i | 0 <= i < |ts| :: vs[i] != 0 <==> Holds(ts[i], e);
      }
    }
    App(Or, ts)
  }

  /* ---- occurrence and replacement ---- */

  /** The variable occurs free in the term. */
  predicate Occurs(id: nat, t: Term) {
    match t
    case Num(_) => false
    case Flag(_) => false
    case Var(v) => v == id
    case App(_, args) => exists i | 0 <= i < |args| :: Occurs(id, args[i])
    case Ite(c, a, b) => Occurs(id, c) || Occurs(id, a) || Occurs(id, b)
    case Quant(_, x, body) => x != id && Occurs(id, body)
  }

  /** A term's value depends only on the variables that occur in it. */
  lemma {:induction false} EvalAgree(t: Term, e1: Env, e2: Env)
    requires e1.fns == e2.fns
    requires forall id :: Occurs(id, t) ==> Lookup(e1, id) == Lookup(e2, id)
    ensures Eval(t, e1) == Eval(t, e2)
  {
    match t
    case Num(_) =>
    case Flag(_) =>
    case Var(v) => assert Occurs(v, t);
    case App(op, args) =>
      forall i | 0 <= i < |args| ensures Eval(args[i], e1) == Eval(args[i], e2) {
        assert forall id :: Occurs(id, args[i]) ==> Occurs(id, t);
        EvalAgree(args[i], e1, e2);
      }
      EvalApp(op, args, e1);
      EvalApp(op, args, e2);
      assert EvalAll(args, e1) == EvalAll(args, e2);
      ApplyAgree(op, EvalAll(args, e1), e1, e2);
    case Ite(c, a, b) =>
      assert forall id :: Occurs(id, c) ==> Occurs(id, t);
      assert forall id :: Occurs(id, a) ==> Occurs(id, t);
      assert forall id :: Occurs(id, b) ==> Occurs(id, t);
      EvalAgree(c, e1, e2);
      EvalAgree(a, e1, e2);
      EvalAgree(b, e1, e2);
    case Quant(_, x, body) =>
      forall n: int ensures Eval(body, Set(e1, x, n)) == Eval(body, Set(e2, x, n)) {
        assert forall id :: Occurs(id, body) && id != x ==> Occurs(id, t);
        EvalAgree(body, Set(e1, x, n), Set(e2, x, n));
      }
  }

  lemma ApplyAgree(op: Op, vs: seq<int>, e1: Env, e2: Env)
    requires e1.fns == e2.fns
    ensures Apply(op, vs, e1) == Apply(op, vs, e2)
  {
  }

  /** The solver's substitute: every occurrence of a key becomes its image, outermost first. Bound
      variables are named here and nameless in the solver, hence CaptureFree below. */
  function Replace(t: Term, m: map<Term, Term>): Term {
    if t in m then m[t]
    else match t
      case Num(_) => t
      case Flag(_) => t
      case Var(_) => t
      case App(op, args) =>
        App(op, seq(|args|, i requires 0 <= i < |args| => Replace(args[i], m)))
      case Ite(c, a, b) => Ite(Replace(c, m), Replace(a, m), Replace(b, m))
      case Quant(universal, x, body) => Quant(universal, x, Replace(body, m))
  }

  function ReplaceAll(ts: seq<Term>, m: map<Term, Term>): (us: seq<Term>)
    ensures |us| == |ts|
    ensures forall i :: 0 <= i < |ts| ==> us[i] == Replace(ts[i], m)
  {
    seq(|ts|, i requires 0 <= i < |ts| => Replace(ts[i], m))
  }

  /** No quantifier of the term binds a variable that the keys or their images mention. */
  ghost predicate CaptureFree(t: Term, m: map<Term, Term>) {
    match t
    case App(_, args) => forall i | 0 <= i < |args| :: CaptureFree(args[i], m)
    case Ite(c, a, b) => CaptureFree(c, m) && CaptureFree(a, m) && CaptureFree(b, m)
    case Quant(_, x, body) => CaptureFree(body, m) && forall u | u in m :: !Occurs(x, u) && !Occurs(x, m[u])
    case _ => true
  }

  /** Substitution lemma: replacing keys by terms of value equal to the key's value in `after`
      is the same as evaluating the original there. */
  lemma {:induction false} EvalReplace(t: Term, m: map<Term, Term>, before: Env, after: Env)
    requires CaptureFree(t, m)
    requires before.fns == after.fns
    requires forall u :: u in m ==> Eval(m[u], before) == Eval(u, after)
    requires forall id :: Occurs(id, t) && Var(id) !in m ==> Lookup(before, id) == Lookup(after, id)
    ensures Eval(Replace(t, m), before) == Eval(t, after)
  {
    if t in m {
    } else {
      match t
      case Num(_) =>
      case Flag(_) =>
      case Var(v) => assert Occurs(v, t);
      case App(op, args) =>
        var args' := ReplaceAll(args, m);
        assert Replace(t, m) == App(op, args');
        forall i | 0 <= i < |args| ensures Eval(args'[i], before) == Eval(args[i], after) {
          assert forall id :: Occurs(id, args[i]) ==> Occurs(id, t);
          EvalReplace(args[i], m, before, after);
        }
        EvalApp(op, args', before);
        EvalApp(op, args, after);
        assert EvalAll(args', before) == EvalAll(args, after);
        ApplyAgree(op, EvalAll(args', before), before, after);
      case Ite(c, a, b) =>
        assert forall id :: Occurs(id, c) ==> Occurs(id, t);
        assert forall id :: Occurs(id, a) ==> Occurs(id, t);
        assert forall id :: Occurs(id, b) ==> Occurs(id, t);
        EvalReplace(c, m, before, after);
        EvalReplace(a, m, before, after);
        EvalReplace(b, m, before, after);
      case Quant(_, x, body) =>
        forall n: int ensures Eval(Replace(body, m), Set(before, x, n)) == Eval(body, Set(after, x, n)) {
          var before', after' := Set(before, x, n), Set(after, x, n);
          forall u | u in m ensures Eval(m[u], before') == Eval(u, after') {
            EvalAgree(m[u], before', before);
            EvalAgree(u, after', after);
          }
          assert forall id :: Occurs(id, body) && id != x ==> Occurs(id, t);
          EvalReplace(body, m, before', after');
        }
    }
  }

  /** No conditional outside quantifiers: the source never takes one out of a quantifier's scope. */
  predicate IteFree(t: Term) {
    match t
    case App(_, args) => forall i | 0 <= i < |args| :: IteFree(args[i])
    case Ite(_, _, _) => false
    case _ => true
  }

  /** Without quantifiers, as symbolic execution of scalar code leaves its terms, so no substitution
      into it can capture. */
  predicate QuantifierFree(t: Term) {
    match t
    case App(_, args) => forall i | 0 <= i < |args| :: QuantifierFree(args[i])
    case Ite(c, a, b) => QuantifierFree(c) && QuantifierFree(a) && QuantifierFree(b)
    case Quant(_, _, _) => false
    case _ => true
  }

  lemma {:induction false} NoCapture(t: Term, m: map<Term, Term>)
    requires QuantifierFree(t)
    ensures CaptureFree(t, m)
  {
    match t
    case App(_, args) =>
      forall i | 0 <= i < |args| ensures CaptureFree(args[i], m) { NoCapture(args[i], m); }
    case Ite(c, a, b) => NoCapture(c, m); NoCapture(a, m); NoCapture(b, m);
    case _ =>
  }

  ghost predicate Plain(ts: seq<Term>) { forall i | 0 <= i < |ts| :: QuantifierFree(ts[i]) }

  predicate IsBool(t: Term) {
    match t
    case Flag(_) => true
    case App(op, _) => op.And? || op.Or? || op.Xor? || op.Not? || op.Lt? || op.Le? || op.Eq?
    case Ite(_, a, _) => IsBool(a)
    case Quant(_, _, _) => true
    case _ => false
  }

  /** is_atom: a relation between numbers. */
  predicate IsAtom(t: Term) {
    t.App? && (t.op.Lt? || t.op.Le? || t.op.Eq?) && t.args != [] && !IsBool(t.args[0])
  }

  /** A Boolean combination of atoms, well shaped. */
  predicate Boolean(t: Term)
    decreases t
  {
    match t
    case Flag(_) => true
    case App(op, args) =>
      IsAtom(t) ||
        (((op.And? || op.Or?) || (op.Not? && |args| == 1) || ((op.Xor? || op.Eq?) && |args| == 2))
        && forall i | 0 <= i < |args| :: Boolean(args[i]))
    case Ite(c, a, b) => Boolean(c) && Boolean(a) && Boolean(b)
    case _ => false
  }

  predicate AllBoolean(ts: seq<Term>) { forall i | 0 <= i < |ts| :: Boolean(ts[i]) }

  /** Relations between numbers are atoms, and so Boolean; Boolean combinations of Boolean terms are. */
  lemma BooleanShapes(a: Term, b: Term, c: Term)
    ensures forall n :: !IsBool(Num(n))
    ensures forall id :: !IsBool(Var(id))
    ensures forall op: Op, args | op.Add? || op.Sub? || op.Mul? || op.Div? || op.Mod? || op.Neg? || op.Fn? ::
      !IsBool(App(op, args))
    ensures !IsBool(a) ==> Boolean(App(Lt, [a, b])) && Boolean(App(Le, [a, b])) && Boolean(App(Eq, [a, b]))
    ensures Boolean(Flag(true)) && Boolean(Flag(false))
    ensures Boolean(a) && Boolean(b) ==>
      && Boolean(App(And, [a, b])) && Boolean(App(Or, [a, b])) && Boolean(App(Xor, [a, b])) && Boolean(App(Not, [a]))
      && Boolean(App(Eq, [a, b])) && (Boolean(c) ==> Boolean(Ite(a, b, c)))
  {
    assert [a, b][0] == a && [a, b][1] == b && [a][0] == a;
  }

  lemma PairBoolean(a: Term, b: Term)
    ensures Boolean(a) && Boolean(b) ==> Boolean(Conj(a, b)) && Boolean(Disj(a, b))
    ensures Boolean(a) ==> Boolean(Negate(a))
  {
    assert [a, b][0] == a && [a, b][1] == b && [a][0] == a;
  }

  /** Every quantifier binds a name from m on. */
  predicate BindsAbove(t: Term, m: nat) {
    match t
    case App(_, args) => forall i | 0 <= i < |args| :: BindsAbove(args[i], m)
    case Ite(c, a, b) => BindsAbove(c, m) && BindsAbove(a, m) && BindsAbove(b, m)
    case Quant(_, x, body) => x >= m && BindsAbove(body, m)
    case _ => true
  }

  /* ---- oracles ---- */

  datatype Answer = Unsat | Sat(model: Env) | Unknown

  type Solver = Term -> Answer

  /** All that is assumed of the solver: an unsat answer means no environment satisfies the
      formula, a sat answer carries one that does, and unknown promises nothing. */
  ghost predicate Sound(solver: Solver) {
    forall f :: (solver(f).Unsat? ==> forall e :: !Holds(f, e)) && (solver(f).Sat? ==> Holds(f, solver(f).model))
  }

  /** A solver that is never unknown. */
  ghost predicate Decides(solver: Solver) {
    Sound(solver) && forall f :: !solver(f).Unknown?
  }

  /** Reading a term in a model, completed where the model says nothing. */
  type Evaluator = (Term, Env) -> int

  ghost predicate Evaluates(eval: Evaluator) { forall t, e :: eval(t, e) == Eval(t, e) }

  type Rewriter = Term -> Term

  /** All that is assumed of a simplifier: it keeps the value and invents no variable. */
  ghost predicate Preserves(simplify: Rewriter) {
    forall t :: (forall e :: Eval(simplify(t), e) == Eval(t, e))
             && (forall id :: Occurs(id, simplify(t)) ==> Occurs(id, t))
  }

  /** It turns Boolean combinations of atoms into such. */
  ghost predicate KeepsBoolean(rewrite: Rewriter) { forall t | Boolean(t) :: Boolean(rewrite(t)) }

  /** ... and introduces no quantifier. */
  ghost predicate Simplifies(simplify: Rewriter) {
    Preserves(simplify) && forall t :: QuantifierFree(t) ==> QuantifierFree(simplify(t))
  }
}
