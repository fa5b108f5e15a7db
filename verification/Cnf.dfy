/** Model-driven normal forms: clauses read off solver models, and minimised conjunctions. */
module Cnf {
  import opened Terms
  import opened Piecewise
  import opened Wrappers
  import Bits

  /* ---- atoms ---- */

  function Children(t: Term): seq<Term> {
    match t
    case App(_, args) => args
    case Ite(c, a, b) => [c, a, b]
    case _ => []
  }

  function Size(t: Term): nat
    decreases t
  {
    match t
    case App(_, args) => 1 + SizeAll(args)
    case Ite(c, a, b) => 1 + Size(c) + Size(a) + Size(b)
    case _ => 1
  }

  function SizeAll(ts: seq<Term>): nat
    decreases ts
  {
    if ts == [] then 0 else Size(ts[0]) + SizeAll(ts[1..])
  }

  lemma {:induction false} ElementSmaller(ts: seq<Term>, i: nat)
    requires i < |ts|
    ensures Size(ts[i]) <= SizeAll(ts)
  {
    if i > 0 { ElementSmaller(ts[1..], i - 1); }
  }

  lemma ChildSmaller(t: Term, i: nat)
    requires i < |Children(t)|
    ensures Size(Children(t)[i]) < Size(t)
  {
    if t.App? { ElementSmaller(t.args, i); }
  }

  /** The atom occurs in the term, outside quantifiers. */
  predicate AtomOf(a: Term, t: Term)
    decreases Size(t)
  {
    (IsAtom(t) && a == t) || exists i | 0 <= i < |Children(t)| :: ChildHas(a, t, i)
  }

  predicate ChildHas(a: Term, t: Term, i: nat)
    requires i < |Children(t)|
    decreases Size(t), 0
  {
    ChildSmaller(t, i);
    AtomOf(a, Children(t)[i])
  }

  /** Every visited term up to a size has its atoms collected. */
  ghost predicate Closed(visited: set<Term>, atoms: seq<Term>, size: nat) {
    forall u, a | u in visited && Size(u) <= size && AtomOf(a, u) :: a in atoms
  }

  predicate NoDuplicates(ts: seq<Term>) { forall i, j | 0 <= i < j < |ts| :: ts[i] != ts[j] }

  /** atoms_rec: adds the atoms of a term, looking at every subterm once. */
  method AtomsRec(t: Term, visited: set<Term>, atoms: seq<Term>) returns (visited': set<Term>, atoms': seq<Term>)
    requires Closed(visited, atoms, Size(t)) && NoDuplicates(atoms) && forall a | a in atoms :: a in visited
    ensures visited <= visited' && NoDuplicates(atoms') && forall a | a in atoms' :: a in visited'
    ensures forall a :: a in atoms' <==> a in atoms || AtomOf(a, t)
    ensures forall u | u in visited' - visited :: Size(u) <= Size(t)
    ensures Closed(visited', atoms', Size(t))
    decreases Size(t)
  {
    visited', atoms' := visited, atoms;
    if t in visited { return; }
    visited' := visited' + {t};
    if IsAtom(t) { atoms' := atoms' + [t]; }
    assert Gathered(atoms, atoms', t, 0);
    hide Gathered, AtomOf;
    var i := 0;
    while i < |Children(t)|
      invariant i <= |Children(t)|
      invariant visited + {t} <= visited' && NoDuplicates(atoms') && forall a | a in atoms' :: a in visited'
      invariant Gathered(atoms, atoms', t, i)
      invariant forall u | u in visited' - visited :: Size(u) <= Size(t)
      invariant forall u, a | u in visited' && u != t && Size(u) <= Size(t) && AtomOf(a, u) :: a in atoms'
    {
      ChildSmaller(t, i);
      ghost var before := atoms';
      visited', atoms' := AtomsRec(Children(t)[i], visited', atoms');
      GatherStep(atoms, before, atoms', t, i);
      i := i + 1;
    }
    GatherEnd(atoms, atoms', t);
  }

  ghost predicate SomeChildHas(a: Term, t: Term, n: nat)
    requires n <= |Children(t)|
  {
    exists j | 0 <= j < n :: AtomOf(a, Children(t)[j])
  }

  /** The list has grown by the atoms of the term's first n children, and by the term itself. */
  ghost predicate Gathered(before: seq<Term>, after: seq<Term>, t: Term, n: nat)
    requires n <= |Children(t)|
  {
    forall a :: a in after <==> a in before || (IsAtom(t) && a == t) || SomeChildHas(a, t, n)
  }

  lemma GatherStep(before: seq<Term>, middle: seq<Term>, after: seq<Term>, t: Term, n: nat)
    requires n < |Children(t)| && Gathered(before, middle, t, n)
    requires forall a :: a in after <==> a in middle || AtomOf(a, Children(t)[n])
    ensures Gathered(before, after, t, n + 1)
  {
    hide AtomOf;
    forall a ensures SomeChildHas(a, t, n + 1) <==> SomeChildHas(a, t, n) || AtomOf(a, Children(t)[n]) {
      if SomeChildHas(a, t, n) {
        var j :| 0 <= j < n && AtomOf(a, Children(t)[j]);
        assert j < n + 1;
      }
    }
  }

  lemma GatherEnd(before: seq<Term>, after: seq<Term>, t: Term)
    requires Gathered(before, after, t, |Children(t)|)
    ensures forall a :: a in after <==> a in before || AtomOf(a, t)
  {
    forall a ensures AtomOf(a, t) <==> (IsAtom(t) && a == t) || SomeChildHas(a, t, |Children(t)|) {
      forall j | 0 <= j < |Children(t)| ensures ChildHas(a, t, j) <==> AtomOf(a, Children(t)[j]) { ChildSmaller(t, j); }
    }
  }

  /** atoms */
  method Atoms(fml: Term) returns (atoms: seq<Term>)
    ensures NoDuplicates(atoms) && forall a :: a in atoms <==> AtomOf(a, fml)
  {
    var visited;
    visited, atoms := AtomsRec(fml, {}, []);
  }

  lemma AtomsOfChild(t: Term, i: nat)
    requires i < |Children(t)|
    ensures forall a | AtomOf(a, Children(t)[i]) :: AtomOf(a, t)
  {
    forall a | AtomOf(a, Children(t)[i]) ensures AtomOf(a, t) {
      ChildSmaller(t, i);
      assert ChildHas(a, t, i);
    }
  }

  /** The value of a Boolean combination depends only on the values of its atoms. */
  lemma {:induction false} AtomsDecide(t: Term, e: Env, e': Env)
    requires Boolean(t) && forall a | AtomOf(a, t) :: Holds(a, e) <==> Holds(a, e')
    ensures Eval(t, e) == Eval(t, e')
    decreases t
  {
    match t
    case Flag(_) =>
    case App(op, args) =>
      EvalApp(op, args, e);
      EvalApp(op, args, e');
      if IsAtom(t) {
        assert AtomOf(t, t);
        RelationIsBit(op, args, e);
        RelationIsBit(op, args, e');
      } else {
        forall i | 0 <= i < |args| ensures Eval(args[i], e) == Eval(args[i], e') {
          AtomsOfChild(t, i);
          AtomsDecide(args[i], e, e');
        }
        assert EvalAll(args, e) == EvalAll(args, e');
      }
    case Ite(c, a, b) =>
      AtomsOfChild(t, 0);
      AtomsOfChild(t, 1);
      AtomsOfChild(t, 2);
      assert Children(t)[0] == c && Children(t)[1] == a && Children(t)[2] == b;
      AtomsDecide(c, e, e');
      AtomsDecide(a, e, e');
      AtomsDecide(b, e, e');
  }

  lemma RelationIsBit(op: Op, args: seq<Term>, e: Env)
    requires op.Lt? || op.Le? || op.Eq?
    ensures Eval(App(op, args), e) == B(Holds(App(op, args), e))
  {
    EvalApp(op, args, e);
  }

  /* ---- minimising a conjunction ---- */

  function Without(ts: seq<Term>, i: nat): (us: seq<Term>)
    requires i < |ts|
  {
    ts[..i] + ts[i + 1..]
  }

  function ImpliedQuery(ts: seq<Term>, pivot: nat, assumption: Term): Term
    requires pivot < |ts|
  {
    Conj(Conj(assumption, ConjAll(Without(ts, pivot))), Negate(ts[pivot]))
  }

  /** minimize_conjunction: from the pivot on, every conjunct that the others imply is dropped. */
  function MinimizeConjunction(ts: seq<Term>, pivot: nat, assumption: Term, solver: Solver): seq<Term>
    decreases |ts| - pivot
  {
    if pivot >= |ts| then ts
    else if solver(ImpliedQuery(ts, pivot, assumption)).Unsat? then
        MinimizeConjunction(Without(ts, pivot), pivot, assumption, solver)
    else MinimizeConjunction(ts, pivot + 1, assumption, solver)
  }

  /** Some environment has all the conjuncts but this one. */
  ghost predicate Needed(ts: seq<Term>, k: nat, assumption: Term)
    requires k < |ts|
  {
    exists e :: Holds(assumption, e) && AllHold(Without(ts, k), e) && !Holds(ts[k], e)
  }

  lemma WithoutHolds(ts: seq<Term>, i: nat, e: Env)
    requires i < |ts|
    ensures AllHold(ts, e) <==> AllHold(Without(ts, i), e) && Holds(ts[i], e)
    ensures Holds(ConjAll(Without(ts, i)), e) <==> AllHold(Without(ts, i), e)
  {
    hide Eval;
    var us := Without(ts, i);
    if AllHold(us, e) && Holds(ts[i], e) {
      forall k | 0 <= k < |ts| ensures Holds(ts[k], e) {
        if k < i { assert us[k] == ts[k]; } else if k > i { assert us[k - 1] == ts[k]; }
      }
    }
    if AllHold(ts, e) {
      forall k | 0 <= k < |us| ensures Holds(us[k], e) { assert us[k] == if k < i then ts[k] else ts[k + 1]; }
    }
  }

  lemma NeededFewer(ts: seq<Term>, k: nat, pivot: nat, assumption: Term)
    requires k < pivot < |ts| && Needed(ts, k, assumption)
    ensures Needed(Without(ts, pivot), k, assumption)
  {
    hide Eval;
    var e :| Holds(assumption, e) && AllHold(Without(ts, k), e) && !Holds(ts[k], e);
    var us := Without(ts, pivot);
    var fewer, more := Without(us, k), Without(ts, k);
    forall i | 0 <= i < |fewer| ensures Holds(fewer[i], e) {
      if i < k { assert fewer[i] == more[i]; }
      else if i + 1 < pivot { assert fewer[i] == us[i + 1] == ts[i + 1] == more[i]; }
      else { assert fewer[i] == us[i + 1] == ts[i + 2] == more[i + 1]; }
    }
    assert us[k] == ts[k];
  }

  lemma ImpliedMeans(ts: seq<Term>, pivot: nat, assumption: Term, solver: Solver)
    requires Sound(solver) && pivot < |ts|
    ensures solver(ImpliedQuery(ts, pivot, assumption)).Unsat? ==>
      forall e | Holds(assumption, e) :: AllHold(Without(ts, pivot), e) <==> AllHold(ts, e)
    ensures Decides(solver) && !solver(ImpliedQuery(ts, pivot, assumption)).Unsat? ==> Needed(ts, pivot, assumption)
  {
    hide Eval, Without;
    var q := ImpliedQuery(ts, pivot, assumption);
    if solver(q).Unsat? {
      forall e | Holds(assumption, e) ensures AllHold(Without(ts, pivot), e) <==> AllHold(ts, e) {
        assert !Holds(q, e);
        WithoutHolds(ts, pivot, e);
      }
    } else if Decides(solver) {
      var e := solver(q).model;
      assert Holds(q, e);
      WithoutHolds(ts, pivot, e);
    }
  }

  /** From any starting pivot, the result is equivalent under the assumption and keeps the conjuncts
      before the pivot; with a solver that decides, no scanned conjunct is implied by the others. */
  lemma {:induction false} MinimizedConjunction(ts: seq<Term>, start: nat, pivot: nat, assumption: Term, solver: Solver)
    requires Sound(solver) && start <= pivot
    requires Decides(solver) ==> forall k | start <= k < pivot && k < |ts| :: Needed(ts, k, assumption)
    ensures
      var r := MinimizeConjunction(ts, pivot, assumption, solver);
      && (forall e | Holds(assumption, e) :: AllHold(r, e) <==> AllHold(ts, e))
      && (forall t | t in r :: t in ts)
      && (|ts| >= pivot ==> |r| >= pivot && r[..pivot] == ts[..pivot])
      && (Decides(solver) ==> forall k | start <= k < |r| :: Needed(r, k, assumption))
    decreases |ts| - pivot
  {
    hide Eval, Sound, Decides, Needed, AllHold;
    if pivot < |ts| {
      ImpliedMeans(ts, pivot, assumption, solver);
      if solver(ImpliedQuery(ts, pivot, assumption)).Unsat? {
        var us := Without(ts, pivot);
        if Decides(solver) {
          forall k | start <= k < pivot && k < |us| ensures Needed(us, k, assumption) {
            NeededFewer(ts, k, pivot, assumption);
          }
        }
        MinimizedConjunction(us, start, pivot, assumption, solver);
        assert us[..pivot] == ts[..pivot];
      } else {
        MinimizedConjunction(ts, start, pivot + 1, assumption, solver);
        var r := MinimizeConjunction(ts, pivot + 1, assumption, solver);
        if |ts| >= pivot + 1 {
          assert r[..pivot] == r[..pivot + 1][..pivot] == ts[..pivot + 1][..pivot] == ts[..pivot];
        }
      }
    }
  }

  /* ---- assignments ---- */

  function AllAssignments(n: nat): set<seq<bool>> {
    if n == 0 then {[]}
    else (set s | s in AllAssignments(n - 1) :: s + [true]) + (set s | s in AllAssignments(n - 1) :: s + [false])
  }

  lemma {:induction false} EveryAssignment(s: seq<bool>)
    ensures s in AllAssignments(|s|)
  {
    if s != [] {
      var front := s[..|s| - 1];
      EveryAssignment(front);
      if s[|s| - 1] { assert s == front + [true]; } else { assert s == front + [false]; }
    }
  }

  ghost function Assignment(atoms: seq<Term>, e: Env): seq<bool> {
    seq(|atoms|, i requires 0 <= i < |atoms| => Holds(atoms[i], e))
  }

  /** atom2literal */
  function Literal(a: Term, m: Env, eval: Evaluator): Term {
    if eval(a, m) != 0 then a else Negate(a)
  }

  function Literals(atoms: seq<Term>, m: Env, eval: Evaluator): (ls: seq<Term>)
    ensures |ls| == |atoms|
  {
    seq(|atoms|, i requires 0 <= i < |atoms| => Literal(atoms[i], m, eval))
  }

  /** The literals of a model hold exactly where the atoms have the model's values. */
  lemma LiteralsHold(atoms: seq<Term>, m: Env, eval: Evaluator, e: Env)
    requires Evaluates(eval)
    ensures AllHold(Literals(atoms, m, eval), e) <==> Assignment(atoms, e) == Assignment(atoms, m)
  {
    hide Eval;
    var ls := Literals(atoms, m, eval);
    assert forall i | 0 <= i < |atoms| :: Holds(ls[i], e) <==> (Assignment(atoms, e)[i] == Assignment(atoms, m)[i]);
  }

  /* ---- clauses ---- */

  /** The solver's unsatisfiable cores: some of the assumed literals that already contradict the
      formula. */
  type Cores = (Term, seq<Term>) -> seq<Term>

  ghost predicate Explains(cores: Cores, solver: Solver) {
    forall f, ls | solver(Conj(f, ConjAll(ls))).Unsat? ::
      (forall t | t in cores(f, ls) :: t in ls) && forall e :: !(Holds(f, e) && AllHold(cores(f, ls), e))
  }

  function NegateAll(ts: seq<Term>): (us: seq<Term>)
    ensures |us| == |ts|
  {
    seq(|ts|, i requires 0 <= i < |ts| => Negate(ts[i]))
  }

  lemma NegatedDisjunction(ts: seq<Term>, e: Env)
    ensures Holds(DisjAll(NegateAll(ts)), e) <==> !AllHold(ts, e)
  {
    hide Eval;
    var us := NegateAll(ts);
    assert forall i | 0 <= i < |ts| :: Holds(us[i], e) <==> !Holds(ts[i], e);
  }

  /** The external tools behind clauses. */
  datatype Oracles = Oracles(solver: Solver, eval: Evaluator, cores: Cores, simplify: Rewriter)

  ghost predicate Trusted(o: Oracles) {
    Sound(o.solver) && Evaluates(o.eval) && Explains(o.cores, o.solver) && Preserves(o.simplify)
  }

  lemma TrustedParts(o: Oracles)
    requires Trusted(o)
    ensures Sound(o.solver) && Evaluates(o.eval) && Explains(o.cores, o.solver) && Preserves(o.simplify)
  {
  }

  /** The solver confirms that the formula is false under the model's literals. */
  predicate Confirms(fml: Term, atoms: seq<Term>, m: Env, o: Oracles) {
    o.solver(Conj(fml, ConjAll(Literals(atoms, m, o.eval)))).Unsat?
  }

  /** The clause read off a model. */
  function ClauseOf(fml: Term, atoms: seq<Term>, m: Env, o: Oracles): Term {
    DisjAll(NegateAll(MinimizeConjunction(o.cores(fml, Literals(atoms, m, o.eval)), 0, Flag(true), o.solver)))
  }

  /** implicant: a clause implied by the formula and false under the model's atom values. The source
      asserts that the formula is false under the model's literals; no clause if the solver does not
      confirm it. */
  method Implicant(fml: Term, atoms: seq<Term>, m: Env, o: Oracles) returns (clause: Option<Term>)
    requires Trusted(o)
    ensures clause.Some? <==> Confirms(fml, atoms, m, o)
    ensures clause.Some? ==> clause.value == ClauseOf(fml, atoms, m, o)
    ensures clause.Some? ==> forall e | Holds(fml, e) :: Holds(clause.value, e)
    ensures clause.Some? ==> forall e | Assignment(atoms, e) == Assignment(atoms, m) :: !Holds(clause.value, e)
    ensures clause.Some? && Plain(atoms) ==> QuantifierFree(clause.value)
  {
    hide Eval, Sound, Evaluates, AllHold, Assignment, QuantifierFree;
    var ls := Literals(atoms, m, o.eval);
    if !o.solver(Conj(fml, ConjAll(ls))).Unsat? { return None; }
    var core := o.cores(fml, ls);
    var minimal := MinimizeConjunction(core, 0, Flag(true), o.solver);
    MinimizedConjunction(core, 0, 0, Flag(true), o.solver);
    clause := Some(DisjAll(NegateAll(minimal)));
    if Plain(atoms) {
      LiteralsPlain(atoms, m, o.eval);
      SomePlain(core, ls);
      SomePlain(minimal, core);
      ClausePlain(minimal);
    }
    forall e ensures Holds(fml, e) ==> Holds(clause.value, e)
      ensures Assignment(atoms, e) == Assignment(atoms, m) ==> !Holds(clause.value, e)
    {
      TrueHolds(e);
      NegatedDisjunction(minimal, e);
      LiteralsHold(atoms, m, o.eval, e);
      SomeHold(core, ls, e);
    }
  }

  lemma LiteralsPlain(atoms: seq<Term>, m: Env, eval: Evaluator)
    requires Plain(atoms)
    ensures Plain(Literals(atoms, m, eval))
  {
    hide QuantifierFree;
    forall i | 0 <= i < |atoms| ensures QuantifierFree(Literals(atoms, m, eval)[i]) {
      PairPlain(Not, atoms[i], atoms[i]);
    }
  }

  lemma SomePlain(some: seq<Term>, all: seq<Term>)
    requires (forall t | t in some :: t in all) && Plain(all)
    ensures Plain(some)
  {
    hide QuantifierFree;
    forall i | 0 <= i < |some| ensures QuantifierFree(some[i]) { assert some[i] in all; }
  }

  lemma ClausePlain(ts: seq<Term>)
    requires Plain(ts)
    ensures QuantifierFree(DisjAll(NegateAll(ts))) && Plain(NegateAll(ts))
  {
    forall i | 0 <= i < |ts| ensures QuantifierFree(NegateAll(ts)[i]) { PairPlain(Not, ts[i], ts[i]); }
  }

  lemma SomeBoolean(some: seq<Term>, all: seq<Term>)
    requires (forall t | t in some :: t in all) && AllBoolean(all)
    ensures AllBoolean(some)
  {
    hide Boolean;
    forall i | 0 <= i < |some| ensures Boolean(some[i]) { assert some[i] in all; }
  }

  lemma ClauseBoolean(ts: seq<Term>)
    requires AllBoolean(ts)
    ensures Boolean(DisjAll(NegateAll(ts))) && AllBoolean(NegateAll(ts))
  {
    forall i | 0 <= i < |ts| ensures Boolean(NegateAll(ts)[i]) { PairBoolean(ts[i], ts[i]); }
  }

  lemma {:induction false} AtomIsAtom(a: Term, t: Term)
    requires AtomOf(a, t)
    ensures Boolean(a)
    decreases Size(t)
  {
    if !(IsAtom(t) && a == t) {
      var i :| 0 <= i < |Children(t)| && ChildHas(a, t, i);
      ChildSmaller(t, i);
      AtomIsAtom(a, Children(t)[i]);
    }
  }

  /** Clauses are Boolean combinations of atoms, whatever the formula is. */
  lemma ClausesBoolean(fml: Term, run: Enumeration, o: Oracles)
    requires Trusted(o) && IsRun(fml, run, o) && forall a | a in run.atoms :: AtomOf(a, fml)
    ensures AllBoolean(run.clauses)
  {
    hide Boolean, AtomOf, Sound, Evaluates, MinimizeConjunction;
    forall i | 0 <= i < |run.clauses| ensures Boolean(run.clauses[i]) {
      assert FoundAt(fml, run, i, o);
      var m := o.solver(Remaining(fml, run.clauses[..i])).model;
      var ls := Literals(run.atoms, m, o.eval);
      forall k | 0 <= k < |ls| ensures Boolean(ls[k]) {
        AtomIsAtom(run.atoms[k], fml);
        PairBoolean(run.atoms[k], run.atoms[k]);
      }
      var core := o.cores(fml, ls);
      SomeBoolean(core, ls);
      MinimizedConjunction(core, 0, 0, Flag(true), o.solver);
      SomeBoolean(MinimizeConjunction(core, 0, Flag(true), o.solver), core);
      ClauseBoolean(MinimizeConjunction(core, 0, Flag(true), o.solver));
    }
  }

  lemma {:induction false} AtomPlain(a: Term, t: Term)
    requires AtomOf(a, t) && QuantifierFree(t)
    ensures QuantifierFree(a)
    decreases Size(t)
  {
    if !(IsAtom(t) && a == t) {
      var i :| 0 <= i < |Children(t)| && ChildHas(a, t, i);
      ChildSmaller(t, i);
      AtomPlain(a, Children(t)[i]);
    }
  }

  lemma AtomsPlain(atoms: seq<Term>, t: Term)
    requires QuantifierFree(t) && forall a :: a in atoms <==> AtomOf(a, t)
    ensures Plain(atoms)
  {
    forall i | 0 <= i < |atoms| ensures QuantifierFree(atoms[i]) {
      assert atoms[i] in atoms;
      AtomPlain(atoms[i], t);
    }
  }

  lemma SomeHold(some: seq<Term>, all: seq<Term>, e: Env)
    requires forall t | t in some :: t in all
    ensures AllHold(all, e) ==> AllHold(some, e)
  {
    hide Eval;
    if AllHold(all, e) {
      forall i | 0 <= i < |some| ensures Holds(some[i], e) { assert some[i] in all; }
    }
  }

  function Remaining(fml: Term, clauses: seq<Term>): Term { Conj(Negate(fml), ConjAll(clauses)) }

  ghost predicate Implied(fml: Term, clauses: seq<Term>) { forall e | Holds(fml, e) :: AllHold(clauses, e) }

  /** The clauses rule out the atom assignments. */
  ghost predicate RulesOut(clauses: seq<Term>, atoms: seq<Term>, seen: set<seq<bool>>) {
    forall e | Assignment(atoms, e) in seen :: !AllHold(clauses, e)
  }

  lemma OneMore(fml: Term, atoms: seq<Term>, clauses: seq<Term>, clause: Term, m: Env, seen: set<seq<bool>>)
    requires Implied(fml, clauses) && RulesOut(clauses, atoms, seen)
    requires forall e | Holds(fml, e) :: Holds(clause, e)
    requires forall e | Assignment(atoms, e) == Assignment(atoms, m) :: !Holds(clause, e)
    ensures Implied(fml, clauses + [clause])
    ensures RulesOut(clauses + [clause], atoms, seen + {Assignment(atoms, m)})
  {
    hide Eval, Assignment;
    var more := clauses + [clause];
    forall e | Holds(fml, e) ensures AllHold(more, e) { assert AllHold(clauses, e); }
    forall e | Assignment(atoms, e) in seen + {Assignment(atoms, m)} ensures !AllHold(more, e) {
      if Assignment(atoms, e) in seen {
        var i :| 0 <= i < |clauses| && !Holds(clauses[i], e);
        assert !Holds(more[i], e);
      } else {
        assert !Holds(more[|clauses|], e);
      }
    }
  }

  /** What the enumeration works with: the atoms of the formula, and the clauses found so far. */
  datatype Enumeration = Enumeration(atoms: seq<Term>, clauses: seq<Term>)

  /** The query before the next clause. */
  function NextQuery(fml: Term, run: Enumeration): Term { Remaining(fml, run.clauses) }

  /** Every clause was read off the model of the query before it. */
  ghost predicate IsRun(fml: Term, run: Enumeration, o: Oracles) {
    forall i | 0 <= i < |run.clauses| :: FoundAt(fml, run, i, o)
  }

  ghost predicate FoundAt(fml: Term, run: Enumeration, i: nat, o: Oracles)
    requires i < |run.clauses|
  {
    var answer := o.solver(Remaining(fml, run.clauses[..i]));
    answer.Sat? && Confirms(fml, run.atoms, answer.model, o)
        && run.clauses[i] == ClauseOf(fml, run.atoms, answer.model, o)
  }

  /** The enumeration has stopped: the solver has no further model. */
  ghost predicate Ends(fml: Term, run: Enumeration, o: Oracles) {
    IsRun(fml, run, o) && !o.solver(NextQuery(fml, run)).Sat?
  }

  /** The enumeration fails its assertion: there is a model, but its literals do not refute the formula
      for the solver. */
  ghost predicate GivesUp(fml: Term, run: Enumeration, o: Oracles) {
    IsRun(fml, run, o) && o.solver(NextQuery(fml, run)).Sat?
        && !Confirms(fml, run.atoms, o.solver(NextQuery(fml, run)).model, o)
  }

  /** The solver's answers decide the whole enumeration: with the same atoms there is one way to stop. */
  lemma EnumerationUnique(fml: Term, a: Enumeration, b: Enumeration, o: Oracles)
    requires a.atoms == b.atoms && (Ends(fml, a, o) || GivesUp(fml, a, o)) && (Ends(fml, b, o) || GivesUp(fml, b, o))
    ensures a == b
  {
    hide Confirms, ClauseOf, NextQuery, Ends, GivesUp, IsRun;
    StoppedRun(fml, a, o);
    StoppedRun(fml, b, o);
    NoShorter(fml, a, b, o);
    NoShorter(fml, b, a, o);
    SameStart(fml, a, b, |a.clauses|, o);
    assert a.clauses[..|a.clauses|] == a.clauses && b.clauses[..|a.clauses|] == b.clauses;
  }

  lemma StoppedRun(fml: Term, run: Enumeration, o: Oracles)
    requires Ends(fml, run, o) || GivesUp(fml, run, o)
    ensures IsRun(fml, run, o)
  {
  }

  /** An enumeration that goes past a stop would contradict the answer there. */
  lemma NoShorter(fml: Term, a: Enumeration, b: Enumeration, o: Oracles)
    requires a.atoms == b.atoms && (Ends(fml, a, o) || GivesUp(fml, a, o)) && IsRun(fml, b, o)
    ensures |b.clauses| <= |a.clauses|
  {
    hide Confirms, ClauseOf, Remaining;
    var n := |a.clauses|;
    if n < |b.clauses| {
      SameStart(fml, a, b, n, o);
      assert b.clauses[..n] == a.clauses == a.clauses[..n];
      GoesOn(fml, b, n, o);
      assert false;
    }
  }

  lemma GoesOn(fml: Term, run: Enumeration, i: nat, o: Oracles)
    requires i < |run.clauses| && IsRun(fml, run, o)
    ensures o.solver(Remaining(fml, run.clauses[..i])).Sat?
        && Confirms(fml, run.atoms, o.solver(Remaining(fml, run.clauses[..i])).model, o)
  {
    assert FoundAt(fml, run, i, o);
  }

  lemma {:induction false} SameStart(fml: Term, a: Enumeration, b: Enumeration, n: nat, o: Oracles)
    requires a.atoms == b.atoms && IsRun(fml, a, o) && IsRun(fml, b, o) && n <= |a.clauses| && n <= |b.clauses|
    ensures a.clauses[..n] == b.clauses[..n]
  {
    hide Confirms, ClauseOf, Remaining;
    if n > 0 {
      SameStart(fml, a, b, n - 1, o);
      assert FoundAt(fml, a, n - 1, o) && FoundAt(fml, b, n - 1, o);
    }
  }

  ghost predicate AtomsOf(atoms: seq<Term>, fml: Term) {
    NoDuplicates(atoms) && forall a :: a in atoms <==> AtomOf(a, fml)
  }

  /** to_cnf: terminates, because every clause rules out one more assignment of the atoms. The clauses
      are implied by the formula, and equivalent to it exactly if nothing satisfies the query the
      enumeration ended with, so in particular if the solver answered it. The source fails its
      assertion if the solver does not confirm that the atoms decide the formula: no result. */
  method ToCnf(fml: Term, o: Oracles) returns (r: Option<seq<Term>>, ghost run: Enumeration)
    requires Trusted(o)
    ensures AtomsOf(run.atoms, fml)
    ensures if r.Some? then Ends(fml, run, o) else GivesUp(fml, run, o)
    ensures r.Some? ==> |r.value| == |run.clauses| && forall i | 0 <= i < |r.value| ::
        r.value[i] == o.simplify(run.clauses[i])
    ensures r.Some? ==> Implied(fml, r.value)
    ensures r.Some? ==> forall e | AllHold(r.value, e) :: Holds(fml, e) <==> !Holds(NextQuery(fml, run), e)
    ensures r.Some? && o.solver(NextQuery(fml, run)).Unsat? ==> forall e :: Holds(fml, e) <==> AllHold(r.value, e)
    ensures Decides(o.solver) && Boolean(fml) ==> r.Some?
    ensures r.Some? ==> |r.value| <= |AllAssignments(|run.atoms|)|
    ensures r.Some? && QuantifierFree(fml) && Simplifies(o.simplify) ==> Plain(r.value)
  {
    hide QuantifierFree, AtomOf, Eval, Trusted, Preserves, Assignment, AllHold, Implied, RulesOut, Boolean, Decides,
         AllAssignments, Remaining, Progress, Plain, Simplifies, Confirms, ClauseOf, NoDuplicates, IsRun;
    TrustedParts(o);
    var atoms := Atoms(fml);
    var raw: seq<Term>, clauses: seq<Term> := [], [];
    ghost var seen: set<seq<bool>> := {};
    NothingYet(fml, atoms, o.simplify);
    RunStart(fml, atoms, o);
    var answer := o.solver(Remaining(fml, raw));
    while answer.Sat?
      invariant answer == o.solver(Remaining(fml, raw))
      invariant IsRun(fml, Enumeration(atoms, raw), o)
      invariant Progress(fml, atoms, raw, clauses, seen, o.simplify)
      decreases |AllAssignments(|atoms|) - seen|
    {
      var m := answer.model;
      FreshModel(fml, atoms, raw, clauses, seen, o.simplify, o.solver);
      var clause := Implicant(fml, atoms, m, o);
      if clause.None? {
        if Decides(o.solver) && Boolean(fml) { AtomsSuffice(fml, atoms, m, o); assert false; }
        return None, Enumeration(atoms, raw);
      }
      ProgressStep(fml, atoms, raw, clauses, seen, o.simplify, clause.value, m);
      RunStep(fml, atoms, raw, clause.value, o);
      seen := seen + {Assignment(atoms, m)};
      clauses, raw := clauses + [o.simplify(clause.value)], raw + [clause.value];
      answer := o.solver(Remaining(fml, raw));
    }
    ProgressEnds(fml, atoms, raw, clauses, seen, o.simplify, o.solver);
    r, run := Some(clauses), Enumeration(atoms, raw);
  }

  lemma RunStart(fml: Term, atoms: seq<Term>, o: Oracles)
    ensures IsRun(fml, Enumeration(atoms, []), o)
  {
  }

  lemma RunStep(fml: Term, atoms: seq<Term>, raw: seq<Term>, clause: Term, o: Oracles)
    requires IsRun(fml, Enumeration(atoms, raw), o) && o.solver(Remaining(fml, raw)).Sat?
    requires Confirms(fml, atoms, o.solver(Remaining(fml, raw)).model, o)
    requires clause == ClauseOf(fml, atoms, o.solver(Remaining(fml, raw)).model, o)
    ensures IsRun(fml, Enumeration(atoms, raw + [clause]), o)
  {
    hide Confirms, ClauseOf, Remaining;
    var longer := Enumeration(atoms, raw + [clause]);
    forall i | 0 <= i < |longer.clauses| ensures FoundAt(fml, longer, i, o) {
      if i < |raw| {
        assert FoundAt(fml, Enumeration(atoms, raw), i, o);
        assert longer.clauses[..i] == raw[..i];
      } else {
        assert longer.clauses[..i] == raw;
      }
    }
  }

  /** The clauses so far are implied by the formula and rule out the assignments seen, one each. */
  ghost predicate Progress(fml: Term, atoms: seq<Term>, raw: seq<Term>, clauses: seq<Term>, seen: set<seq<bool>>,
      simplify: Rewriter) {
    && Implied(fml, raw) && RulesOut(raw, atoms, seen)
    && |clauses| == |raw| == |seen| && (forall i | 0 <= i < |raw| :: clauses[i] == simplify(raw[i]))
    && seen <= AllAssignments(|atoms|)
    && (QuantifierFree(fml) ==> Plain(atoms) && Plain(raw))
  }

  lemma NothingYet(fml: Term, atoms: seq<Term>, simplify: Rewriter)
    requires forall a :: a in atoms <==> AtomOf(a, fml)
    ensures Progress(fml, atoms, [], [], {}, simplify)
  {
    if QuantifierFree(fml) { AtomsPlain(atoms, fml); }
  }

  lemma FreshModel(fml: Term, atoms: seq<Term>, raw: seq<Term>, clauses: seq<Term>, seen: set<seq<bool>>,
      simplify: Rewriter, solver: Solver)
    requires Progress(fml, atoms, raw, clauses, seen, simplify) && Sound(solver) && solver(Remaining(fml, raw)).Sat?
    ensures var m := solver(Remaining(fml, raw)).model;
      && !Holds(fml, m) && Assignment(atoms, m) !in seen && Assignment(atoms, m) in AllAssignments(|atoms|)
  {
    hide Eval, Assignment, AllAssignments, Remaining;
    var m := solver(Remaining(fml, raw)).model;
    RemainingModel(fml, raw, atoms, seen, solver);
    EveryAssignment(Assignment(atoms, m));
    AssignmentWidth(atoms, m);
  }

  lemma ProgressStep(fml: Term, atoms: seq<Term>, raw: seq<Term>, clauses: seq<Term>, seen: set<seq<bool>>,
      simplify: Rewriter,
                     clause: Term, m: Env)
    requires Progress(fml, atoms, raw, clauses, seen, simplify)
    requires Assignment(atoms, m) !in seen && Assignment(atoms, m) in AllAssignments(|atoms|)
    requires forall e | Holds(fml, e) :: Holds(clause, e)
    requires forall e | Assignment(atoms, e) == Assignment(atoms, m) :: !Holds(clause, e)
    requires Plain(atoms) ==> QuantifierFree(clause)
    ensures Progress(fml, atoms, raw + [clause], clauses + [simplify(clause)], seen + {Assignment(atoms, m)}, simplify)
    ensures |AllAssignments(|atoms|) - (seen + {Assignment(atoms, m)})| < |AllAssignments(|atoms|) - seen|
  {
    hide Eval, Assignment, AllAssignments, Implied, RulesOut, QuantifierFree;
    OneMore(fml, atoms, raw, clause, m, seen);
    var before := AllAssignments(|atoms|) - seen;
    assert Assignment(atoms, m) in before;
    assert AllAssignments(|atoms|) - (seen + {Assignment(atoms, m)}) == before - {Assignment(atoms, m)};
  }

  lemma ProgressEnds(fml: Term, atoms: seq<Term>, raw: seq<Term>, clauses: seq<Term>, seen: set<seq<bool>>,
      simplify: Rewriter, solver: Solver)
    requires Progress(fml, atoms, raw, clauses, seen, simplify) && Sound(solver) && Preserves(simplify)
    ensures Implied(fml, clauses) && |clauses| == |raw| <= |AllAssignments(|atoms|)|
    ensures forall i | 0 <= i < |raw| :: clauses[i] == simplify(raw[i])
    ensures forall e | AllHold(clauses, e) :: Holds(fml, e) <==> !Holds(Remaining(fml, raw), e)
    ensures solver(Remaining(fml, raw)).Unsat? ==> forall e :: Holds(fml, e) <==> AllHold(clauses, e)
    ensures QuantifierFree(fml) && Simplifies(simplify) ==> Plain(clauses)
  {
    hide Eval, AllAssignments, Implied, RulesOut, QuantifierFree, Simplifies, Plain, Preserves, Decides, Remaining,
        AllHold;
    Enumerated(fml, raw, clauses, solver, simplify);
    if Plain(raw) && Simplifies(simplify) { SimplifiedPlain(raw, clauses, simplify); }
    FewerThan(seen, AllAssignments(|atoms|));
  }

  lemma SimplifiedPlain(raw: seq<Term>, clauses: seq<Term>, simplify: Rewriter)
    requires Plain(raw) && Simplifies(simplify)
    requires |clauses| == |raw| && forall i | 0 <= i < |raw| :: clauses[i] == simplify(raw[i])
    ensures Plain(clauses)
  {
  }

  lemma AssignmentWidth(atoms: seq<Term>, m: Env)
    ensures |Assignment(atoms, m)| == |atoms|
  {
  }

  lemma {:induction false} FewerThan(small: set<seq<bool>>, large: set<seq<bool>>)
    requires small <= large
    ensures |small| <= |large|
    decreases small
  {
    if x :| x in small {
      FewerThan(small - {x}, large - {x});
    }
  }

  lemma RemainingModel(fml: Term, raw: seq<Term>, atoms: seq<Term>, seen: set<seq<bool>>, solver: Solver)
    requires Sound(solver) && solver(Remaining(fml, raw)).Sat? && RulesOut(raw, atoms, seen)
    ensures var m := solver(Remaining(fml, raw)).model; !Holds(fml, m) && Assignment(atoms, m) !in seen
  {
    hide Eval, Assignment;
    var m := solver(Remaining(fml, raw)).model;
    assert Holds(Remaining(fml, raw), m);
    assert AllHold(raw, m);
  }

  /** The atoms' values in a model of the negation already refute a Boolean combination of them. */
  lemma AtomsSuffice(fml: Term, atoms: seq<Term>, m: Env, o: Oracles)
    requires Boolean(fml) && (forall a :: a in atoms <==> AtomOf(a, fml)) && !Holds(fml, m)
    requires Decides(o.solver) && Evaluates(o.eval)
    ensures Confirms(fml, atoms, m, o)
  {
    hide Eval, Boolean, AtomOf, Evaluates, AllHold;
    var q := Conj(fml, ConjAll(Literals(atoms, m, o.eval)));
    if o.solver(q).Sat? {
      var e := o.solver(q).model;
      assert Holds(q, e);
      AllHolds(Literals(atoms, m, o.eval), e);
      LiteralsHold(atoms, m, o.eval, e);
      forall a | AtomOf(a, fml) ensures Holds(a, e) <==> Holds(a, m) {
        var i :| 0 <= i < |atoms| && atoms[i] == a;
        assert Assignment(atoms, e)[i] == Assignment(atoms, m)[i];
      }
      AtomsDecide(fml, e, m);
    }
  }

  lemma AllHolds(ts: seq<Term>, e: Env)
    ensures Holds(ConjAll(ts), e) <==> AllHold(ts, e)
  {
    hide Eval;
  }

  lemma Enumerated(fml: Term, raw: seq<Term>, clauses: seq<Term>, solver: Solver, simplify: Rewriter)
    requires Sound(solver) && Preserves(simplify) && Implied(fml, raw)
    requires |clauses| == |raw| && forall i | 0 <= i < |raw| :: clauses[i] == simplify(raw[i])
    ensures Implied(fml, clauses)
    ensures forall e | AllHold(clauses, e) :: Holds(fml, e) <==> !Holds(Remaining(fml, raw), e)
    ensures solver(Remaining(fml, raw)).Unsat? ==> forall e :: Holds(fml, e) <==> AllHold(clauses, e)
  {
    hide Eval;
    forall e ensures AllHold(clauses, e) <==> AllHold(raw, e) {
      assert forall i | 0 <= i < |raw| :: Eval(clauses[i], e) == Eval(raw[i], e);
      if AllHold(clauses, e) { forall i | 0 <= i < |raw| ensures Holds(raw[i], e) { assert Holds(clauses[i], e); } }
    }
    forall e ensures Holds(Remaining(fml, raw), e) <==> !Holds(fml, e) && AllHold(raw, e) { AllHolds(raw, e); }
    if solver(Remaining(fml, raw)).Unsat? {
      forall e ensures Holds(fml, e) <==> AllHold(clauses, e) { assert !Holds(Remaining(fml, raw), e); }
    }
  }

  lemma {:induction false} AppendedCount(assignments: set<seq<bool>>, b: bool, image: set<seq<bool>>)
    requires forall x | x in image :: x != [] && x[..|x| - 1] in assignments && x[|x| - 1] == b
    ensures |image| <= |assignments|
    decreases image
  {
    if x :| x in image {
      var front := x[..|x| - 1];
      forall y | y in image - {x} ensures y[..|y| - 1] in assignments - {front} {
        assert x == front + [b] && y == y[..|y| - 1] + [b];
      }
      AppendedCount(assignments - {front}, b, image - {x});
    }
  }

  /** The number of clauses is bounded: at most two to the number of atoms. */
  lemma {:induction false} AssignmentCount(n: nat)
    ensures |AllAssignments(n)| <= Bits.Pow2(n)
  {
    if n > 0 {
      AssignmentCount(n - 1);
      var shorter := AllAssignments(n - 1);
      var a, b := set s | s in shorter :: s + [true], set s | s in shorter :: s + [false];
      AppendedBound(shorter, true, a);
      AppendedBound(shorter, false, b);
      UnionBound(a, b);
      assert AllAssignments(n) == a + b;
    }
  }

  lemma AppendedBound(assignments: set<seq<bool>>, b: bool, image: set<seq<bool>>)
    requires forall x | x in image :: exists s :: s in assignments && x == s + [b]
    ensures |image| <= |assignments|
  {
    forall x | x in image ensures x != [] && x[..|x| - 1] in assignments && x[|x| - 1] == b {
      var s :| s in assignments && x == s + [b];
      assert x[..|x| - 1] == s;
    }
    AppendedCount(assignments, b, image);
  }

  lemma UnionBound(a: set<seq<bool>>, b: set<seq<bool>>)
    ensures |a + b| <= |a| + |b|
  {
    assert |a + b| == |a| + |b| - |a * b|;
  }

  /* ---- disjunctive normal form ---- */

  /** clause2list */
  function Clause2List(clause: Term): seq<Term>
    decreases Size(clause), 0
  {
    if clause.App? && clause.op.Or? then ListAll(clause.args) else [clause]
  }

  function ListAll(ts: seq<Term>): seq<Term>
    decreases SizeAll(ts), 1, |ts|
  {
    if ts == [] then [] else Clause2List(ts[0]) + ListAll(ts[1..])
  }

  ghost predicate SomeHolds(ts: seq<Term>, e: Env) { exists i | 0 <= i < |ts| :: Holds(ts[i], e) }

  lemma SomeHoldsConcat(a: seq<Term>, b: seq<Term>, e: Env)
    ensures SomeHolds(a + b, e) <==> SomeHolds(a, e) || SomeHolds(b, e)
  {
    hide Eval;
    if i :| 0 <= i < |a| && Holds(a[i], e) { assert Holds((a + b)[i], e); }
    if i :| 0 <= i < |b| && Holds(b[i], e) { assert Holds((a + b)[|a| + i], e); }
  }

  lemma {:induction false} ClauseList(clause: Term, e: Env)
    ensures Holds(clause, e) <==> SomeHolds(Clause2List(clause), e)
    decreases Size(clause), 0
  {
    if clause.App? && clause.op.Or? {
      ClauseListAll(clause.args, e);
      assert clause == DisjAll(clause.args);
    } else {
      assert Clause2List(clause)[0] == clause;
    }
  }

  lemma {:induction false} ClauseListAll(ts: seq<Term>, e: Env)
    ensures SomeHolds(ts, e) <==> SomeHolds(ListAll(ts), e)
    decreases SizeAll(ts), 1, |ts|
  {
    hide Eval;
    if ts != [] {
      ClauseList(ts[0], e);
      ClauseListAll(ts[1..], e);
      SomeHoldsConcat([ts[0]], ts[1..], e);
      assert SomeHolds([ts[0]], e) <==> Holds(ts[0], e) by { if Holds(ts[0], e) { assert Holds([ts[0]][0], e); } }
      assert [ts[0]] + ts[1..] == ts;
      SomeHoldsConcat(Clause2List(ts[0]), ListAll(ts[1..]), e);
    }
  }

  /** The conjunct of a clause of the negation: false exactly where the clause is true. */
  function ConjunctOf(clause: Term): Term { ConjAll(NegateAll(Clause2List(clause))) }

  lemma ConjunctMeans(clause: Term, e: Env)
    ensures Holds(ConjunctOf(clause), e) <==> !Holds(clause, e)
  {
    ClauseList(clause, e);
    hide Eval, Clause2List;
    var us := NegateAll(Clause2List(clause));
    AllHolds(us, e);
    assert forall i | 0 <= i < |us| :: Holds(us[i], e) <==> !Holds(Clause2List(clause)[i], e);
    if SomeHolds(Clause2List(clause), e) {
      var i :| 0 <= i < |us| && Holds(Clause2List(clause)[i], e);
      assert !Holds(us[i], e);
    }
  }

  /** to_dnf: every conjunct implies the formula, and they cover it exactly if nothing satisfies the
      query the enumeration for its negation ended with. */
  method ToDnf(fml: Term, o: Oracles) returns (r: Option<seq<Term>>, ghost run: Enumeration)
    requires Trusted(o)
    ensures AtomsOf(run.atoms, Negate(fml))
    ensures if r.Some? then Ends(Negate(fml), run, o) else GivesUp(Negate(fml), run, o)
    ensures r.Some? ==> |r.value| == |run.clauses|
    ensures r.Some? ==> forall e | SomeHolds(r.value, e) :: Holds(fml, e)
    ensures r.Some? ==> forall e | !SomeHolds(r.value, e) :: Holds(fml, e) <==> Holds(NextQuery(Negate(fml), run), e)
    ensures r.Some? && o.solver(NextQuery(Negate(fml), run)).Unsat? ==> forall e :: Holds(fml, e) <==>
        SomeHolds(r.value, e)
    ensures Decides(o.solver) && Boolean(fml) ==> r.Some?
  {
    hide Eval, Trusted, Decides, ConjunctOf, Ends, GivesUp, NextQuery, AtomsOf, Implied;
    var clauses;
    clauses, run := ToCnf(Negate(fml), o);
    if Boolean(fml) { NegateBoolean(fml); }
    if clauses.None? { return None, run; }
    var conjuncts: seq<Term> := [];
    var i := 0;
    while i < |clauses.value|
      invariant 0 <= i <= |clauses.value| && |conjuncts| == i
      invariant forall k | 0 <= k < i :: conjuncts[k] == ConjunctOf(clauses.value[k])
    {
      conjuncts := conjuncts + [ConjAll(NegateAll(Clause2List(clauses.value[i])))];
      assert conjuncts[i] == ConjunctOf(clauses.value[i]) by { ConjunctIs(clauses.value[i]); }
      i := i + 1;
    }
    forall e ensures SomeHolds(conjuncts, e) <==> !AllHold(clauses.value, e) { DualHolds(clauses.value, conjuncts, e); }
    ImpliedHolds(Negate(fml), clauses.value);
    r := Some(conjuncts);
  }

  lemma ImpliedHolds(fml: Term, clauses: seq<Term>)
    requires Implied(fml, clauses)
    ensures forall e | Holds(fml, e) :: AllHold(clauses, e)
  {
  }

  lemma ConjunctIs(clause: Term)
    ensures ConjunctOf(clause) == ConjAll(NegateAll(Clause2List(clause)))
  {
  }

  lemma NegateBoolean(fml: Term)
    requires Boolean(fml)
    ensures Boolean(Negate(fml))
  {
  }

  lemma DualHolds(clauses: seq<Term>, conjuncts: seq<Term>, e: Env)
    requires |conjuncts| == |clauses| && forall k | 0 <= k < |clauses| :: conjuncts[k] == ConjunctOf(clauses[k])
    ensures SomeHolds(conjuncts, e) <==> !AllHold(clauses, e)
  {
    hide Eval, ConjunctOf;
    forall k | 0 <= k < |clauses| ensures Holds(conjuncts[k], e) <==> !Holds(clauses[k], e) {
      ConjunctMeans(clauses[k], e);
    }
    if k :| 0 <= k < |clauses| && !Holds(clauses[k], e) { assert Holds(conjuncts[k], e); }
  }

  /* ---- simplification under an assumption ---- */

  /** The literals of a clause, negated. */
  function Denied(clause: Term): seq<Term> {
    if clause.App? && clause.op.Or? then NegateAll(clause.args) else [Negate(clause)]
  }

  lemma DeniedMeans(clause: Term, e: Env)
    ensures AllHold(Denied(clause), e) <==> !Holds(clause, e)
  {
    if clause.App? && clause.op.Or? {
      assert clause == DisjAll(clause.args);
      var us := NegateAll(clause.args);
      hide Eval;
      assert forall i | 0 <= i < |us| :: Holds(us[i], e) <==> !Holds(clause.args[i], e);
    } else {
      hide Eval;
      assert AllHold([Negate(clause)], e) <==> Holds([Negate(clause)][0], e);
    }
  }

  lemma DeniedPlain(clause: Term)
    requires QuantifierFree(clause)
    ensures Plain(Denied(clause))
  {
    if clause.App? && clause.op.Or? { ClausePlain(clause.args); } else { PairPlain(Not, clause, clause); }
  }

  lemma DeniedBoolean(clause: Term)
    requires Boolean(clause)
    ensures AllBoolean(Denied(clause))
  {
    if clause.App? && clause.op.Or? { ClauseBoolean(clause.args); } else { PairBoolean(clause, clause); }
  }

  function Shortened(clause: Term, solver: Solver): Term {
    DisjAll(NegateAll(MinimizeConjunction(Denied(clause), 1, Flag(true), solver)))
  }

  /** The clauses that the solver finds not entailed by the assumption, shortened. */
  function KeptClauses(clauses: seq<Term>, assumption: Term, solver: Solver): seq<Term> {
    if clauses == [] then []
    else
      var n := |clauses| - 1;
      KeptClauses(clauses[..n], assumption, solver)
      + if solver(Conj(assumption, Negate(clauses[n]))).Sat? then [Shortened(clauses[n], solver)] else []
  }

  lemma NoneKept(assumption: Term, solver: Solver)
    ensures KeptClauses([], assumption, solver) == []
  {
  }

  lemma KeptSnoc(clauses: seq<Term>, i: nat, assumption: Term, solver: Solver)
    requires i < |clauses|
    ensures KeptClauses(clauses[..i + 1], assumption, solver) ==
      KeptClauses(clauses[..i], assumption, solver)
      + if solver(Conj(assumption, Negate(clauses[i]))).Sat? then [Shortened(clauses[i], solver)] else []
  {
    hide Shortened;
    assert clauses[..i + 1][..i] == clauses[..i];
  }

  function SimplifyClauses(clauses: seq<Term>, simplify: Rewriter): (simple: seq<Term>)
    ensures |simple| == |clauses|
  {
    seq(|clauses|, i requires 0 <= i < |clauses| => simplify(clauses[i]))
  }

  /** A clause with redundant literals dropped. The assumption is passed where the starting pivot is
      expected, so the scan starts at literal 1 and assumes nothing. */
  method ShortenClause(clause: Term, solver: Solver) returns (shorter: Term)
    requires Sound(solver)
    ensures forall e :: Holds(shorter, e) <==> Holds(clause, e)
    ensures QuantifierFree(clause) ==> QuantifierFree(shorter)
    ensures Boolean(clause) ==> Boolean(shorter)
    ensures shorter == Shortened(clause, solver)
    ensures
      var literals, kept := Denied(clause), MinimizeConjunction(Denied(clause), 1, Flag(true), solver);
      && (forall t | t in kept :: t in literals) && (literals != [] ==> kept != [] && kept[0] == literals[0])
      && (Decides(solver) ==> forall k | 1 <= k < |kept| :: Needed(kept, k, Flag(true)))
  {
    hide Eval, Sound, Denied, AllHold, QuantifierFree, Boolean, Needed, Decides;
    var literals := Denied(clause);
    var minimal := MinimizeConjunction(literals, 1, Flag(true), solver);
    MinimizedConjunction(literals, 1, 1, Flag(true), solver);
    shorter := DisjAll(NegateAll(minimal));
    if literals != [] { assert minimal[..1] == literals[..1] && minimal[0] == minimal[..1][0]; }
    if QuantifierFree(clause) {
      DeniedPlain(clause);
      SomePlain(minimal, literals);
      ClausePlain(minimal);
    }
    if Boolean(clause) {
      DeniedBoolean(clause);
      SomeBoolean(minimal, literals);
      ClauseBoolean(minimal);
    }
    forall e ensures Holds(shorter, e) <==> Holds(clause, e) {
      TrueHolds(e);
      NegatedDisjunction(minimal, e);
      DeniedMeans(clause, e);
    }
  }

  /** The queries on which a simplification rests: is the enumeration complete, and which clauses does
      the assumption entail? */
  function Queries(fml: Term, assumption: Term, run: Enumeration, o: Oracles): (qs: seq<Term>)
    ensures |qs| == |run.clauses| + 1
  {
    [NextQuery(o.simplify(fml), run)] + seq(|run.clauses|, i requires 0 <= i < |run.clauses| =>
      Conj(assumption, Negate(o.simplify(run.clauses[i]))))
  }

  ghost predicate Answered(solver: Solver, queries: seq<Term>) {
    forall i | 0 <= i < |queries| :: !solver(queries[i]).Unknown?
  }

  /** The environment satisfies a query that the solver did not answer. */
  ghost predicate Doubtful(solver: Solver, queries: seq<Term>, e: Env) {
    exists i | 0 <= i < |queries| :: solver(queries[i]).Unknown? && Holds(queries[i], e)
  }

  lemma AnsweredLeavesNoDoubt(solver: Solver, queries: seq<Term>, e: Env)
    requires Answered(solver, queries)
    ensures !Doubtful(solver, queries, e)
  {
  }

  lemma DecidesAnswers(solver: Solver, queries: seq<Term>)
    requires Decides(solver)
    ensures Answered(solver, queries)
  {
  }

  /** The result is implied by the formula, and where the assumption and the result hold the formula
      holds exactly if no unanswered query does. */
  ghost predicate Simplified(fml: Term, assumption: Term, run: Enumeration, o: Oracles, result: Term) {
    && (forall e | Holds(fml, e) :: Holds(result, e))
    && (forall e | Holds(assumption, e) && Holds(result, e) ::
          Holds(fml, e) <==> !Doubtful(o.solver, Queries(fml, assumption, run, o), e))
  }

  /** The result of simplifying the formula in one completed enumeration. */
  ghost predicate SimplifiedTo(fml: Term, assumption: Term, run: Enumeration, o: Oracles, result: Term) {
    AtomsOf(run.atoms, o.simplify(fml)) && Ends(o.simplify(fml), run, o) && Simplified(fml, assumption, run, o, result)
  }

  /** The two formulas agree on the assumption. */
  ghost predicate SameOn(domain: Term, a: Term, b: Term) { forall e | Holds(domain, e) :: Holds(a, e) <==> Holds(b, e) }

  /** Exactly when simplification keeps the formula under the assumption: if and only if no clause
      dropped on an unknown answer, and no model missed on one, differs from the result there. It
      does if every query was answered. */
  lemma SimplifiedExactly(fml: Term, assumption: Term, run: Enumeration, o: Oracles, result: Term)
    requires Simplified(fml, assumption, run, o, result)
    ensures SameOn(assumption, result, fml) <==>
      forall e | Holds(assumption, e) && Holds(result, e) :: !Doubtful(o.solver, Queries(fml, assumption, run, o), e)
    ensures Answered(o.solver, Queries(fml, assumption, run, o)) ==> SameOn(assumption, result, fml)
    ensures Decides(o.solver) ==> Answered(o.solver, Queries(fml, assumption, run, o))
  {
    hide Eval, Doubtful, Queries, Answered;
    var qs := Queries(fml, assumption, run, o);
    if Decides(o.solver) { DecidesAnswers(o.solver, qs); }
    if Answered(o.solver, qs) {
      forall e ensures !Doubtful(o.solver, qs, e) { AnsweredLeavesNoDoubt(o.solver, qs, e); }
    }
  }

  /** simplify: clauses that the solver finds entailed by the assumption, or gives no answer about, are
      dropped. No result exactly if the enumeration of clauses fails its assertion. */
  method Simplify(fml: Term, assumption: Term, o: Oracles) returns (r: Option<Term>, ghost run: Enumeration)
    requires Trusted(o)
    ensures if r.Some? then SimplifiedTo(fml, assumption, run, o, r.value)
      else AtomsOf(run.atoms, o.simplify(fml)) && GivesUp(o.simplify(fml), run, o)
    ensures r.Some? ==> (SameOn(assumption, r.value, fml) <==> forall e | Holds(assumption, e) && Holds(r.value, e) ::
      !Doubtful(o.solver, Queries(fml, assumption, run, o), e))
    ensures r.Some? && Answered(o.solver, Queries(fml, assumption, run, o)) ==> SameOn(assumption, r.value, fml)
    ensures Decides(o.solver) && Boolean(o.simplify(fml)) ==> r.Some?
    ensures o.solver(Remaining(o.simplify(fml), [])).Unknown? ==> r == Some(ConjAll([]))
    ensures r.Some? && QuantifierFree(fml) && Simplifies(o.simplify) ==> QuantifierFree(r.value)
    ensures r.Some? && KeepsBoolean(o.simplify) ==> Boolean(r.value)
    ensures r.Some? ==>
      r.value == ConjAll(KeptClauses(SimplifyClauses(run.clauses, o.simplify), assumption, o.solver))
  {
    hide Eval, Trusted, Decides, Implied, Boolean, Remaining, Ends, GivesUp, NextQuery, AtomsOf, Simplified, AllHold,
        Kept, SameOn, Doubtful, Queries, Answered, KeepsBoolean, Shortened, MinimizeConjunction, Denied, Needed,
        KeptClauses;
    var clauses;
    clauses, run := ToCnf(o.simplify(fml), o);
    TrustedParts(o);
    UnknownAtOnce(o.simplify(fml), run, o);
    if clauses.None? { return None, run; }
    var remains: seq<Term> := [];
    var i := 0;
    NothingKept(clauses.value, assumption, o.solver);
    assert KeptClauses([], assumption, o.solver) == [] by { NoneKept(assumption, o.solver); }
    assert clauses.value[..0] == [];
    if KeepsBoolean(o.simplify) { ResultsBoolean(o.simplify(fml), run, o, clauses.value); }
    while i < |clauses.value|
      invariant 0 <= i <= |clauses.value|
      invariant clauses.value == [] ==> remains == []
      invariant remains == KeptClauses(clauses.value[..i], assumption, o.solver)
      invariant Kept(clauses.value, assumption, o.solver, i, remains)
      invariant Plain(clauses.value) ==> Plain(remains)
      invariant KeepsBoolean(o.simplify) ==> AllBoolean(remains)
    {
      var answer := o.solver(Conj(assumption, Negate(clauses.value[i])));
      KeptSnoc(clauses.value, i, assumption, o.solver);
      if answer.Sat? {
        var shorter := ShortenClause(clauses.value[i], o.solver);
        KeepClause(clauses.value, assumption, o.solver, i, remains, shorter);
        remains := remains + [shorter];
      } else {
        DropClause(clauses.value, assumption, o.solver, i, remains);
      }
      i := i + 1;
    }
    r := Some(ConjAll(remains));
    assert clauses.value[..i] == clauses.value == SimplifyClauses(run.clauses, o.simplify);
    if AllBoolean(remains) { ConjunctionBoolean(remains); }
    SimplifiedHolds(fml, assumption, run, o, clauses.value, remains);
    SimplifiedExactly(fml, assumption, run, o, r.value);
  }

  lemma ResultsBoolean(fml: Term, run: Enumeration, o: Oracles, clauses: seq<Term>)
    requires Trusted(o) && Ends(fml, run, o) && AtomsOf(run.atoms, fml) && KeepsBoolean(o.simplify)
    requires |clauses| == |run.clauses| && forall i | 0 <= i < |clauses| :: clauses[i] == o.simplify(run.clauses[i])
    ensures AllBoolean(clauses)
  {
    hide Boolean, IsRun;
    ClausesBoolean(fml, run, o);
  }

  lemma ConjunctionBoolean(ts: seq<Term>)
    requires AllBoolean(ts)
    ensures Boolean(ConjAll(ts))
  {
  }

  lemma UnknownAtOnce(fml: Term, run: Enumeration, o: Oracles)
    ensures o.solver(Remaining(fml, [])).Unknown? && Ends(fml, run, o) ==> run.clauses == []
    ensures o.solver(Remaining(fml, [])).Unknown? ==> !GivesUp(fml, run, o)
  {
    hide Remaining, Confirms, ClauseOf;
    if run.clauses != [] && IsRun(fml, run, o) {
      assert FoundAt(fml, run, 0, o);
      assert run.clauses[..0] == [];
    }
  }

  /** Of the first clauses, the remaining conjuncts say the ones that the solver found not entailed. */
  ghost predicate Kept(clauses: seq<Term>, assumption: Term, solver: Solver, n: nat, remains: seq<Term>)
    requires n <= |clauses|
  {
    forall e :: AllHold(remains, e) <==>
      forall i | 0 <= i < n :: solver(Conj(assumption, Negate(clauses[i]))).Sat? ==> Holds(clauses[i], e)
  }

  lemma NothingKept(clauses: seq<Term>, assumption: Term, solver: Solver)
    ensures Kept(clauses, assumption, solver, 0, [])
  {
  }

  lemma KeepClause(clauses: seq<Term>, assumption: Term, solver: Solver, i: nat, before: seq<Term>, shorter: Term)
    requires i < |clauses| && Kept(clauses, assumption, solver, i, before)
    requires solver(Conj(assumption, Negate(clauses[i]))).Sat? && forall e :: Holds(shorter, e) <==>
        Holds(clauses[i], e)
    ensures Kept(clauses, assumption, solver, i + 1, before + [shorter])
  {
    hide Eval, AllHold;
    forall e ensures AllHold(before + [shorter], e) <==>
      forall k | 0 <= k < i + 1 :: solver(Conj(assumption, Negate(clauses[k]))).Sat? ==> Holds(clauses[k], e)
    {
      HoldSnoc(before, shorter, e);
    }
  }

  lemma DropClause(clauses: seq<Term>, assumption: Term, solver: Solver, i: nat, before: seq<Term>)
    requires i < |clauses| && Kept(clauses, assumption, solver, i, before)
    requires !solver(Conj(assumption, Negate(clauses[i]))).Sat?
    ensures Kept(clauses, assumption, solver, i + 1, before)
  {
    hide Eval, AllHold;
  }

  lemma SimplifiedHolds(fml: Term, assumption: Term, run: Enumeration, o: Oracles, clauses: seq<Term>,
      remains: seq<Term>)
    requires Trusted(o) && Ends(o.simplify(fml), run, o)
    requires |clauses| == |run.clauses| && forall i | 0 <= i < |clauses| :: clauses[i] == o.simplify(run.clauses[i])
    requires Implied(o.simplify(fml), clauses)
    requires forall e | AllHold(clauses, e) :: Holds(o.simplify(fml), e) <==> !Holds(NextQuery(o.simplify(fml), run), e)
    requires Kept(clauses, assumption, o.solver, |clauses|, remains)
    ensures Simplified(fml, assumption, run, o, ConjAll(remains))
  {
    hide Eval, NextQuery, IsRun, Queries, Doubtful;
    SimplifiedMeans(fml, o.simplify, clauses, remains);
    forall e | Holds(fml, e) ensures Holds(ConjAll(remains), e) { assert AllHold(clauses, e); }
    forall e | Holds(assumption, e) && Holds(ConjAll(remains), e)
      ensures Holds(fml, e) <==> !Doubtful(o.solver, Queries(fml, assumption, run, o), e)
    {
      DoubtIsFailure(fml, assumption, run, o, clauses, e);
    }
  }

  /** Where the assumption and the kept clauses hold, an unanswered query holds exactly if the formula
      fails. */
  lemma DoubtIsFailure(fml: Term, assumption: Term, run: Enumeration, o: Oracles, clauses: seq<Term>, e: Env)
    requires Sound(o.solver) && !o.solver(NextQuery(o.simplify(fml), run)).Sat? && Holds(assumption, e)
    requires |clauses| == |run.clauses| && forall i | 0 <= i < |clauses| :: clauses[i] == o.simplify(run.clauses[i])
    requires Holds(fml, e) <==> Holds(o.simplify(fml), e)
    requires Holds(o.simplify(fml), e) ==> AllHold(clauses, e)
    requires AllHold(clauses, e) ==> (Holds(o.simplify(fml), e) <==> !Holds(NextQuery(o.simplify(fml), run), e))
    requires Holds(NextQuery(o.simplify(fml), run), e) ==> !Holds(o.simplify(fml), e)
    requires forall i | 0 <= i < |clauses| :: o.solver(Conj(assumption, Negate(clauses[i]))).Sat? ==>
        Holds(clauses[i], e)
    ensures Holds(fml, e) <==> !Doubtful(o.solver, Queries(fml, assumption, run, o), e)
  {
    hide Eval, NextQuery;
    var qs := Queries(fml, assumption, run, o);
    assert qs[0] == NextQuery(o.simplify(fml), run);
    forall i | 0 <= i < |clauses| ensures qs[i + 1] == Conj(assumption, Negate(clauses[i])) { }
    if Holds(fml, e) {
      forall j | 0 <= j < |qs| ensures !Holds(qs[j], e) {
        if j > 0 { assert qs[j - 1 + 1] == Conj(assumption, Negate(clauses[j - 1])) && Holds(clauses[j - 1], e); }
      }
    } else if AllHold(clauses, e) {
      assert Holds(qs[0], e) && o.solver(qs[0]).Unknown?;
    } else {
      var i :| 0 <= i < |clauses| && !Holds(clauses[i], e);
      assert Holds(qs[i + 1], e) && o.solver(qs[i + 1]).Unknown?;
    }
  }

  lemma SimplifiedMeans(fml: Term, simplify: Rewriter, clauses: seq<Term>, remains: seq<Term>)
    requires Preserves(simplify)
    ensures forall e :: Holds(ConjAll(remains), e) <==> AllHold(remains, e)
    ensures forall e :: Holds(simplify(fml), e) <==> Holds(fml, e)
    ensures Implied(simplify(fml), clauses) ==> forall e | Holds(fml, e) :: AllHold(clauses, e)
  {
    hide Eval;
    forall e ensures Holds(ConjAll(remains), e) <==> AllHold(remains, e) { AllHolds(remains, e); }
    assert forall e :: Eval(simplify(fml), e) == Eval(fml, e);
  }

  lemma HoldSnoc(ts: seq<Term>, t: Term, e: Env)
    ensures AllHold(ts + [t], e) <==> AllHold(ts, e) && Holds(t, e)
  {
    hide Eval;
    if AllHold(ts + [t], e) {
      forall i | 0 <= i < |ts| ensures Holds(ts[i], e) { assert ts[i] == (ts + [t])[i]; }
      assert (ts + [t])[|ts|] == t;
    }
  }

  /** An unknown answer loses meaning: a solver may refuse every question, and then the
      simplification of a contradiction is the empty conjunction, which is true everywhere. */
  method UnknownLosesMeaning(eval: Evaluator, simplify: Rewriter) returns (o: Oracles, r: Option<Term>)
    requires Evaluates(eval) && Preserves(simplify)
    ensures Trusted(o) && r.Some?
    ensures forall e :: Holds(r.value, e) && !Holds(Flag(false), e)
  {
    o := Oracles((f: Term) => Unknown, eval, (f: Term, ts: seq<Term>) => ts, simplify);
    ghost var run;
    r, run := Simplify(Flag(false), Flag(true), o);
  }
}
