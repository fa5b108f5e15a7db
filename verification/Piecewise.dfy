/** Terms as lists of guarded, conditional-free cases, and back. */
module Piecewise {
  import opened Terms
  import opened Wrappers

  /* ---- index tuples ---- */

  /** The tuple picks one index below each bound. */
  predicate Fits(tuple: seq<nat>, sizes: seq<nat>) {
    |tuple| == |sizes| && forall i | 0 <= i < |sizes| :: tuple[i] < sizes[i]
  }

  /** cartesian_product, from a start position: every fitting tuple, once. */
  method CartesianProduct(sizes: seq<nat>, start: nat) returns (tuples: seq<seq<nat>>)
    requires start < |sizes|
    ensures forall t :: t in tuples <==> Fits(t, sizes[start..])
    ensures forall a, b | 0 <= a < b < |tuples| :: tuples[a] != tuples[b]
    decreases |sizes| - start
  {
    tuples := [];
    var own := sizes[start..];
    if start == |sizes| - 1 {
      var i := 0;
      while i < sizes[start]
        invariant i <= sizes[start] && |tuples| == i
        invariant forall a | 0 <= a < i :: tuples[a] == [a]
      {
        tuples := tuples + [[i]];
        i := i + 1;
      }
      forall t | Fits(t, own) ensures t in tuples { assert t == [t[0]] == tuples[t[0]]; }
      return;
    }
    var rest := CartesianProduct(sizes, start + 1);
    assert own[1..] == sizes[start + 1..];
    var i := 0;
    while i < sizes[start]
      invariant i <= sizes[start]
      invariant forall t :: t in tuples <==> Fits(t, own) && t[0] < i
      invariant forall a, b | 0 <= a < b < |tuples| :: tuples[a] != tuples[b]
    {
      ghost var before := tuples;
      var k := 0;
      while k < |rest|
        invariant k <= |rest| && |tuples| == |before| + k
        invariant forall a | 0 <= a < |before| :: tuples[a] == before[a]
        invariant forall a | 0 <= a < k :: tuples[|before| + a] == [i] + rest[a]
      {
        tuples := tuples + [[i] + rest[k]];
        k := k + 1;
      }
      PrependedTuples(own, rest, before, tuples, i);
      i := i + 1;
    }
  }

  lemma PrependedTuples(own: seq<nat>, rest: seq<seq<nat>>, before: seq<seq<nat>>, after: seq<seq<nat>>, i: nat)
    requires own != [] && i < own[0]
    requires forall t :: t in rest <==> Fits(t, own[1..])
    requires forall a, b | 0 <= a < b < |rest| :: rest[a] != rest[b]
    requires forall t :: t in before <==> Fits(t, own) && t[0] < i
    requires forall a, b | 0 <= a < b < |before| :: before[a] != before[b]
    requires |after| == |before| + |rest|
    requires forall a | 0 <= a < |before| :: after[a] == before[a]
    requires forall a | 0 <= a < |rest| :: after[|before| + a] == [i] + rest[a]
    ensures forall t :: t in after <==> Fits(t, own) && t[0] < i + 1
    ensures forall a, b | 0 <= a < b < |after| :: after[a] != after[b]
  {
    forall t | t in after ensures Fits(t, own) && t[0] < i + 1 {
      var a :| 0 <= a < |after| && after[a] == t;
      if a < |before| {
        assert before[a] in before;
      } else {
        var u := rest[a - |before|];
        assert u in rest && after[|before| + (a - |before|)] == [i] + u;
        forall k | 0 <= k < |own| ensures t[k] < own[k] {
          if k > 0 { assert t[k] == u[k - 1] && own[k] == own[1..][k - 1]; }
        }
      }
    }
    forall t | Fits(t, own) && t[0] < i + 1 ensures t in after {
      if t[0] < i {
        assert t in before;
        var a :| 0 <= a < |before| && before[a] == t;
        assert after[a] == t;
      } else {
        assert Fits(t[1..], own[1..]);
        var a :| 0 <= a < |rest| && rest[a] == t[1..];
        assert t == [i] + t[1..] == after[|before| + a];
      }
    }
    forall a, b | 0 <= a < b < |after| ensures after[a] != after[b] {
      if b >= |before| {
        assert after[|before| + (b - |before|)] == [i] + rest[b - |before|];
        if a < |before| {
          assert before[a] in before && before[a][0] < i;
          assert after[b][0] == i;
        } else {
          assert after[|before| + (a - |before|)] == [i] + rest[a - |before|];
          assert after[a][1..] == rest[a - |before|] && after[b][1..] == rest[b - |before|];
        }
      }
    }
  }

  /* ---- cases ---- */

  ghost predicate Covered(conds: seq<Term>, e: Env) { exists i :: 0 <= i < |conds| && Holds(conds[i], e) }

  /** Some environment satisfies both. */
  ghost predicate Meet(a: Term, b: Term) { exists e :: Holds(a, e) && Holds(b, e) }

  /** Condition i holds, and no other. */
  ghost predicate Picks(conds: seq<Term>, e: Env, i: nat) {
    i < |conds| && Holds(conds[i], e) && forall j | 0 <= j < |conds| && j != i :: !Holds(conds[j], e)
  }

  /** Exactly one condition holds, and its expression has the value. */
  ghost predicate Yields(conds: seq<Term>, exprs: seq<Term>, e: Env, v: int)
    requires |conds| == |exprs|
  {
    exists i: nat :: Picks(conds, e, i) && Eval(exprs[i], e) == v
  }

  /** The cases are the term, wherever the context condition holds, and nothing elsewhere. */
  ghost predicate Splits(conds: seq<Term>, exprs: seq<Term>, context: Term, t: Term) {
    && |conds| == |exprs|
    && (forall e | Holds(context, e) :: Yields(conds, exprs, e, Eval(t, e)))
    && (forall e | !Holds(context, e) :: !Covered(conds, e))
  }

  /** The conditions of the conditionals that the split looks at are Boolean combinations of atoms. */
  predicate BooleanGuards(t: Term) {
    match t
    case Ite(c, a, b) => Boolean(c) && BooleanGuards(a) && BooleanGuards(b)
    case App(_, args) => forall i | 0 <= i < |args| :: BooleanGuards(args[i])
    case _ => true
  }

  predicate BooleanTables(tables: seq<seq<Term>>) { forall i | 0 <= i < |tables| :: AllBoolean(tables[i]) }

  predicate AllIteFree(ts: seq<Term>) { forall i | 0 <= i < |ts| :: IteFree(ts[i]) }

  /** Other cases that cover the same environments and yield the same values. */
  ghost predicate Refines(conds: seq<Term>, exprs: seq<Term>, conds': seq<Term>, exprs': seq<Term>) {
    && |conds| == |exprs| && |conds'| == |exprs'|
    && (forall e, v | Yields(conds, exprs, e, v) :: Yields(conds', exprs', e, v))
    && (forall e :: Covered(conds', e) <==> Covered(conds, e))
  }

  /* ---- merging ---- */

  function MergeQuery(cond: Term, a: Term, b: Term): Term { Conj(cond, Negate(Equals(a, b))) }

  /** conditionally_eq: the solver shows the terms equal under the condition. */
  predicate ConditionallyEq(solver: Solver, cond: Term, a: Term, b: Term) { solver(MergeQuery(cond, a, b)).Unsat? }

  lemma EqualUnder(solver: Solver, cond: Term, a: Term, b: Term)
    requires Sound(solver)
    ensures ConditionallyEq(solver, cond, a, b) ==> forall e | Holds(cond, e) :: Eval(a, e) == Eval(b, e)
    ensures Decides(solver) && !ConditionallyEq(solver, cond, a, b) ==>
        exists e :: Holds(cond, e) && Eval(a, e) != Eval(b, e)
  {
    hide Eval;
    var q := MergeQuery(cond, a, b);
    if ConditionallyEq(solver, cond, a, b) {
      forall e | Holds(cond, e) ensures Eval(a, e) == Eval(b, e) { assert !Holds(q, e); }
    }
    if Decides(solver) && !ConditionallyEq(solver, cond, a, b) {
      var e := solver(q).model;
      assert Holds(q, e);
    }
  }

  lemma PairPlain(op: Op, a: Term, b: Term)
    ensures QuantifierFree(a) && QuantifierFree(b) ==> QuantifierFree(App(op, [a, b]))
    ensures QuantifierFree(a) ==> QuantifierFree(Negate(a))
  {
    assert [a, b][0] == a && [a, b][1] == b && [a][0] == a;
  }

  /** Case i cannot be merged into case j. */
  ghost predicate Apart(conds: seq<Term>, exprs: seq<Term>, i: nat, j: nat)
    requires i < |conds| == |exprs| && j < |exprs|
  {
    exists e :: Holds(conds[i], e) && Eval(exprs[j], e) != Eval(exprs[i], e)
  }

  /** No case can be merged into any of the first n. */
  ghost predicate ApartUpTo(conds: seq<Term>, exprs: seq<Term>, n: nat) {
    |conds| == |exprs| && forall i, j | 0 <= i < |conds| && 0 <= j < |conds| && j < n && i != j ::
        Apart(conds, exprs, i, j)
  }

  /** What one round of merging into a pivot has done: the kept cases, by their old positions, and
      the pivot's wider condition. */
  ghost predicate Merged(conds: seq<Term>, exprs: seq<Term>, pivot: nat, merged: set<nat>, pivotCond: Term,
                         kept: seq<nat>, conds': seq<Term>, exprs': seq<Term>)
  {
    && |conds| == |exprs| && pivot < |conds| && pivot !in merged
    && |kept| == |conds'| == |exprs'|
    && (forall i | i in merged :: i < |conds| && forall e | Holds(conds[i], e) ::
        Eval(exprs[pivot], e) == Eval(exprs[i], e))
    && (forall e :: Holds(pivotCond, e) <==>
        Holds(conds[pivot], e) || exists i :: i in merged && i < |conds| && Holds(conds[i], e))
    && (forall k | 0 <= k < |kept| :: kept[k] < |conds| && kept[k] !in merged
          && exprs'[k] == exprs[kept[k]] && conds'[k] == if kept[k] == pivot then pivotCond else conds[kept[k]])
    && (forall k, l | 0 <= k < l < |kept| :: kept[k] < kept[l])
    && (forall i | 0 <= i < |conds| && i !in merged :: i in kept)
  }

  lemma MergedRefines(conds: seq<Term>, exprs: seq<Term>, pivot: nat, merged: set<nat>, pivotCond: Term,
                      kept: seq<nat>, conds': seq<Term>, exprs': seq<Term>)
    requires Merged(conds, exprs, pivot, merged, pivotCond, kept, conds', exprs')
    ensures Refines(conds, exprs, conds', exprs')
  {
    hide Eval;
    forall e, v | Yields(conds, exprs, e, v) ensures Yields(conds', exprs', e, v) {
      var i: nat :| Picks(conds, e, i) && Eval(exprs[i], e) == v;
      var target := if i in merged then pivot else i;
      var k :| 0 <= k < |kept| && kept[k] == target;
      assert Holds(conds'[k], e);
      forall l | 0 <= l < |conds'| && l != k ensures !Holds(conds'[l], e) {
        assert kept[l] != target;
        assert kept[l] != i;
      }
      assert Picks(conds', e, k);
    }
    forall e ensures Covered(conds', e) <==> Covered(conds, e) {
      if Covered(conds, e) {
        var i :| 0 <= i < |conds| && Holds(conds[i], e);
        var target := if i in merged then pivot else i;
        var k :| 0 <= k < |kept| && kept[k] == target;
        assert Holds(conds'[k], e);
      }
      if Covered(conds', e) {
        var k :| 0 <= k < |conds'| && Holds(conds'[k], e);
        if kept[k] != pivot { assert Holds(conds[kept[k]], e); }
      }
    }
  }

  /** A round keeps the earlier cases apart and adds the pivot to them. */
  lemma MergedApart(conds: seq<Term>, exprs: seq<Term>, pivot: nat, merged: set<nat>, pivotCond: Term,
                    kept: seq<nat>, conds': seq<Term>, exprs': seq<Term>, location: nat)
    requires Merged(conds, exprs, pivot, merged, pivotCond, kept, conds', exprs')
    requires ApartUpTo(conds, exprs, pivot) && location < |kept| && kept[location] == pivot
    requires forall i | 0 <= i < |conds| && i != pivot && i !in merged :: Apart(conds, exprs, i, pivot)
    ensures ApartUpTo(conds', exprs', location + 1)
  {
    hide Eval;
    forall k, l | 0 <= k < |conds'| && 0 <= l < |conds'| && l < location + 1 && k != l
        ensures Apart(conds', exprs', k, l) {
      var i, j := kept[k], kept[l];
      assert i != j && j <= pivot;
      assert Apart(conds, exprs, i, j);
      var e :| Holds(conds[i], e) && Eval(exprs[j], e) != Eval(exprs[i], e);
      assert Holds(conds'[k], e);
    }
  }

  /** The solver refutes nothing. */
  ghost predicate NeverRefutes(solver: Solver) { forall q :: !solver(q).Unsat? }

  /** One round: every case that the solver shows equal to the pivot under its own condition joins
      the pivot. */
  method MergeInto(conds: seq<Term>, exprs: seq<Term>, pivot: nat, solver: Solver)
    returns (merged: set<nat>, pivotCond: Term)
    requires Sound(solver) && |conds| == |exprs| && pivot < |conds|
    ensures pivot !in merged
    ensures forall i | i in merged :: i < |conds| && forall e | Holds(conds[i], e) ::
        Eval(exprs[pivot], e) == Eval(exprs[i], e)
    ensures forall e :: Holds(pivotCond, e) <==>
        Holds(conds[pivot], e) || exists i :: i in merged && i < |conds| && Holds(conds[i], e)
    ensures forall i | 0 <= i < |conds| && i != pivot && i !in merged ::
        !ConditionallyEq(solver, conds[i], exprs[pivot], exprs[i])
    ensures Plain(conds) ==> QuantifierFree(pivotCond)
    ensures AllBoolean(conds) ==> Boolean(pivotCond)
    ensures NeverRefutes(solver) ==> merged == {} && pivotCond == conds[pivot]
  {
    hide Eval, QuantifierFree, Boolean;
    merged, pivotCond := {}, conds[pivot];
    var i := 0;
    while i < |exprs|
      invariant i <= |exprs| && pivot !in merged
      invariant forall k | k in merged :: k < i && forall e | Holds(conds[k], e) ::
          Eval(exprs[pivot], e) == Eval(exprs[k], e)
      invariant forall e :: Holds(pivotCond, e) <==>
          Holds(conds[pivot], e) || exists k :: k in merged && k < |conds| && Holds(conds[k], e)
      invariant forall k | 0 <= k < i && k != pivot && k !in merged ::
          !ConditionallyEq(solver, conds[k], exprs[pivot], exprs[k])
      invariant Plain(conds) ==> QuantifierFree(pivotCond)
      invariant AllBoolean(conds) ==> Boolean(pivotCond)
      invariant NeverRefutes(solver) ==> merged == {} && pivotCond == conds[pivot]
    {
      if i != pivot && i !in merged && ConditionallyEq(solver, conds[i], exprs[pivot], exprs[i]) {
        EqualUnder(solver, conds[i], exprs[pivot], exprs[i]);
        ghost var before := merged;
        PairPlain(Or, pivotCond, conds[i]);
        PairBoolean(pivotCond, conds[i]);
        pivotCond := Disj(pivotCond, conds[i]);
        merged := merged + {i};
        forall e
          ensures Holds(pivotCond, e) <==>
              Holds(conds[pivot], e) || exists k :: k in merged && k < |conds| && Holds(conds[k], e)
        {
          if Holds(conds[i], e) { assert i in merged; }
          if k :| k in before && k < |conds| && Holds(conds[k], e) { assert k in merged; }
        }
      }
      i := i + 1;
    }
  }

  /** The lists without the merged cases; the pivot's new place accounts for those before it. */
  method Rebuild(conds: seq<Term>, exprs: seq<Term>, pivot: nat, merged: set<nat>, pivotCond: Term)
    returns (conds': seq<Term>, exprs': seq<Term>, location: nat, ghost kept: seq<nat>)
    requires |conds| == |exprs| && pivot < |conds| && pivot !in merged
    ensures |kept| == |conds'| == |exprs'| && location < |kept| && kept[location] == pivot
    ensures forall k | 0 <= k < |kept| ::
      && kept[k] < |conds| && kept[k] !in merged
      && exprs'[k] == exprs[kept[k]]
      && conds'[k] == if kept[k] == pivot then pivotCond else conds[kept[k]]
    ensures forall k, l | 0 <= k < l < |kept| :: kept[k] < kept[l]
    ensures forall i | 0 <= i < |conds| && i !in merged :: i in kept
    ensures merged == {} ==> location == pivot && |conds'| == |conds|
    ensures |conds'| - location <= |conds| - pivot
  {
    conds', exprs', location, kept := [], [], 0, [];
    var i := 0;
    while i < |conds|
      invariant i <= |conds|
      invariant |kept| == |conds'| == |exprs'| <= i
      invariant forall k | 0 <= k < |kept| ::
        && kept[k] < i && kept[k] !in merged
        && exprs'[k] == exprs[kept[k]]
        && conds'[k] == if kept[k] == pivot then pivotCond else conds[kept[k]]
      invariant forall k, l | 0 <= k < l < |kept| :: kept[k] < kept[l]
      invariant forall j | 0 <= j < i && j !in merged :: j in kept
      invariant i > pivot ==> location < |kept| && kept[location] == pivot
      invariant i > pivot ==> |kept| - location <= i - pivot
      invariant merged == {} ==> |kept| == i && (i > pivot ==> location == pivot)
    {
      if i !in merged {
        if i == pivot {
          location := |conds'|;
          conds' := conds' + [pivotCond];
        } else {
          conds' := conds' + [conds[i]];
        }
        exprs' := exprs' + [exprs[i]];
        kept := kept + [i];
      }
      i := i + 1;
    }
  }

  /** A round that merges nothing changes nothing. */
  lemma NothingMoved(conds: seq<Term>, exprs: seq<Term>, pivot: nat, pivotCond: Term,
                     kept: seq<nat>, conds': seq<Term>, exprs': seq<Term>)
    requires Merged(conds, exprs, pivot, {}, pivotCond, kept, conds', exprs')
    requires |kept| == |conds| && pivotCond == conds[pivot]
    ensures conds' == conds && exprs' == exprs
  {
    hide Eval;
    forall k | 0 <= k < |kept| ensures kept[k] == k { Straight(kept, k); }
  }

  lemma {:induction false} Straight(kept: seq<nat>, k: nat)
    requires k < |kept| && (forall j | 0 <= j < |kept| :: kept[j] < |kept|)
        && forall i, j | 0 <= i < j < |kept| :: kept[i] < kept[j]
    ensures kept[k] == k
  {
    AtLeast(kept, k);
    if kept[k] > k { Above(kept, k, |kept| - 1); }
  }

  lemma {:induction false} AtLeast(kept: seq<nat>, k: nat)
    requires k < |kept| && forall i, j | 0 <= i < j < |kept| :: kept[i] < kept[j]
    ensures kept[k] >= k
  {
    if k > 0 { AtLeast(kept, k - 1); }
  }

  lemma {:induction false} Above(kept: seq<nat>, k: nat, n: nat)
    requires k <= n < |kept| && kept[k] > k && forall i, j | 0 <= i < j < |kept| :: kept[i] < kept[j]
    ensures kept[n] > n
  {
    if k < n { Above(kept, k, n - 1); }
  }

  lemma RefinesTransitive(c: seq<Term>, x: seq<Term>, c': seq<Term>, x': seq<Term>, c'': seq<Term>, x'': seq<Term>)
    requires Refines(c, x, c', x') && Refines(c', x', c'', x'')
    ensures Refines(c, x, c'', x'')
  {
    hide Yields, Covered;
  }

  /** merge_cases: the result covers the same environments, yields the same value wherever exactly
      one case applied, and with a solver that decides no case can be merged into another. */
  method MergeCases(conditions: seq<Term>, expressions: seq<Term>, solver: Solver)
    returns (conds: seq<Term>, exprs: seq<Term>)
    requires Sound(solver) && |conditions| == |expressions|
    ensures Refines(conditions, expressions, conds, exprs)
    ensures conditions != [] ==> conds != []
    ensures forall x | x in exprs :: x in expressions
    ensures Plain(conditions) ==> Plain(conds)
    ensures AllBoolean(conditions) ==> AllBoolean(conds)
    ensures Decides(solver) ==> ApartUpTo(conds, exprs, |conds|)
    ensures NeverRefutes(solver) ==> conds == conditions && exprs == expressions
  {
    hide Eval, Refines, ApartUpTo, ConditionallyEq, Sound, Decides, Merged, QuantifierFree, Boolean,
        NeverRefutes;
    conds, exprs := conditions, expressions;
    var pivot: nat := 0;
    RefinesItself(conds, exprs);
    NothingApart(conds, exprs);
    while pivot < |exprs|
      invariant pivot <= |exprs| == |conds|
      invariant Refines(conditions, expressions, conds, exprs)
      invariant conditions != [] ==> conds != []
      invariant forall x | x in exprs :: x in expressions
      invariant Plain(conditions) ==> Plain(conds)
      invariant AllBoolean(conditions) ==> AllBoolean(conds)
      invariant Decides(solver) ==> ApartUpTo(conds, exprs, pivot)
      invariant NeverRefutes(solver) ==> conds == conditions && exprs == expressions
      decreases |exprs| - pivot
    {
      var merged, pivotCond := MergeInto(conds, exprs, pivot, solver);
      var conds', exprs', location, kept := Rebuild(conds, exprs, pivot, merged, pivotCond);
      IsMerged(conds, exprs, pivot, merged, pivotCond, kept, conds', exprs');
      MergedRefines(conds, exprs, pivot, merged, pivotCond, kept, conds', exprs');
      RefinesTransitive(conditions, expressions, conds, exprs, conds', exprs');
      if NeverRefutes(solver) { NothingMoved(conds, exprs, pivot, pivotCond, kept, conds', exprs'); }
      if Decides(solver) {
        Unmergeable(conds, exprs, pivot, merged, solver);
        MergedApart(conds, exprs, pivot, merged, pivotCond, kept, conds', exprs', location);
      }
      forall x | x in exprs' ensures x in expressions {
        var k :| 0 <= k < |exprs'| && exprs'[k] == x;
        assert exprs[kept[k]] in exprs;
      }
      if merged != {} { pivot := location + 1; } else { pivot := pivot + 1; }
      conds, exprs := conds', exprs';
    }
  }

  lemma IsMerged(conds: seq<Term>, exprs: seq<Term>, pivot: nat, merged: set<nat>, pivotCond: Term,
                 kept: seq<nat>, conds': seq<Term>, exprs': seq<Term>)
    requires |conds| == |exprs| && pivot < |conds| && pivot !in merged && |kept| == |conds'| == |exprs'|
    requires forall i | i in merged :: i < |conds| && forall e | Holds(conds[i], e) ::
        Eval(exprs[pivot], e) == Eval(exprs[i], e)
    requires forall e :: Holds(pivotCond, e) <==>
        Holds(conds[pivot], e) || exists i :: i in merged && i < |conds| && Holds(conds[i], e)
    requires forall k | 0 <= k < |kept| ::
      && kept[k] < |conds| && kept[k] !in merged
      && exprs'[k] == exprs[kept[k]]
      && conds'[k] == if kept[k] == pivot then pivotCond else conds[kept[k]]
    requires forall k, l | 0 <= k < l < |kept| :: kept[k] < kept[l]
    requires forall i | 0 <= i < |conds| && i !in merged :: i in kept
    ensures Merged(conds, exprs, pivot, merged, pivotCond, kept, conds', exprs')
  {
  }

  lemma Unmergeable(conds: seq<Term>, exprs: seq<Term>, pivot: nat, merged: set<nat>, solver: Solver)
    requires Decides(solver) && |conds| == |exprs| && pivot < |conds|
    requires forall i | 0 <= i < |conds| && i != pivot && i !in merged ::
        !ConditionallyEq(solver, conds[i], exprs[pivot], exprs[i])
    ensures forall i | 0 <= i < |conds| && i != pivot && i !in merged :: Apart(conds, exprs, i, pivot)
  {
    forall i | 0 <= i < |conds| && i != pivot && i !in merged ensures Apart(conds, exprs, i, pivot) {
      EqualUnder(solver, conds[i], exprs[pivot], exprs[i]);
    }
  }

  lemma RefinesItself(conds: seq<Term>, exprs: seq<Term>)
    requires |conds| == |exprs|
    ensures Refines(conds, exprs, conds, exprs)
  {
  }

  lemma NothingApart(conds: seq<Term>, exprs: seq<Term>)
    requires |conds| == |exprs|
    ensures ApartUpTo(conds, exprs, 0)
  {
  }

  /* ---- from terms to cases ---- */

  /** eliminate_ite, built from solver tactics: an equivalent condition without conditionals. */
  ghost predicate Eliminates(eliminate: Rewriter) {
    forall c :: IteFree(eliminate(c)) && forall e :: Holds(eliminate(c), e) <==> Holds(c, e)
  }

  /** The cases chosen for each argument. */
  function Chosen(table: seq<seq<Term>>, tuple: seq<nat>): (ts: seq<Term>)
    requires Fits(tuple, Sizes(table))
    ensures |ts| == |table|
  {
    assert forall i | 0 <= i < |table| :: tuple[i] < Sizes(table)[i];
    seq(|table|, i requires 0 <= i < |table| => table[i][tuple[i]])
  }

  function Sizes(table: seq<seq<Term>>): (sizes: seq<nat>)
    ensures |sizes| == |table|
  {
    seq(|table|, i requires 0 <= i < |table| => |table[i]|)
  }

  /** The tables hold the cases of every argument. */
  ghost predicate ArgumentCases(args: seq<Term>, conds: seq<seq<Term>>, exprs: seq<seq<Term>>) {
    && |conds| == |args| == |exprs|
    && forall i | 0 <= i < |args| :: ArgumentCase(conds[i], exprs[i], args[i])
  }

  ghost predicate ArgumentCase(conds: seq<Term>, exprs: seq<Term>, arg: Term) {
    |conds| == |exprs| && AllIteFree(exprs) && forall e :: Yields(conds, exprs, e, Eval(arg, e))
  }

  /** The cases of an application whose tuples are done. */
  ghost predicate TupleCases(op: Op, tables: seq<seq<Term>>, values: seq<seq<Term>>, context: Term,
      tuples: seq<seq<nat>>,
                             conds: seq<Term>, exprs: seq<Term>)
  {
    && |tables| == |values| && |conds| == |exprs| <= |tuples|
    && (forall t | t in tuples :: Fits(t, Sizes(tables)) && Fits(t, Sizes(values)))
    && (forall k | 0 <= k < |conds| ::
          && Fits(tuples[k], Sizes(tables)) && Fits(tuples[k], Sizes(values))
          && exprs[k] == App(op, Chosen(values, tuples[k]))
          && forall e :: Holds(conds[k], e) <==> Holds(context, e) && AllHold(Chosen(tables, tuples[k]), e))
  }

  ghost predicate AllHold(ts: seq<Term>, e: Env) { forall i | 0 <= i < |ts| :: Holds(ts[i], e) }

  /** Each argument has one case that applies; together they are the one tuple that applies. */
  ghost function PickedTuple(conds: seq<seq<Term>>, exprs: seq<seq<Term>>, args: seq<Term>, e: Env): (tuple: seq<nat>)
    requires ArgumentCases(args, conds, exprs)
    ensures |tuple| == |args|
    ensures forall i | 0 <= i < |args| ::
        Picks(conds[i], e, tuple[i]) && Eval(exprs[i][tuple[i]], e) == Eval(args[i], e)
  {
    if args == [] then []
    else
      var n := |args| - 1;
      assert ArgumentCase(conds[n], exprs[n], args[n]);
      assert forall i | 0 <= i < n :: ArgumentCase(conds[i], exprs[i], args[i]);
      assert Yields(conds[n], exprs[n], e, Eval(args[n], e));
      var last: nat :| Picks(conds[n], e, last) && Eval(exprs[n][last], e) == Eval(args[n], e);
      PickedTuple(conds[..n], exprs[..n], args[..n], e) + [last]
  }

  /** A tuple whose conditions all hold is the picked one. */
  lemma OnlyPicked(args: seq<Term>, tables: seq<seq<Term>>, values: seq<seq<Term>>, tuple: seq<nat>, e: Env)
    requires ArgumentCases(args, tables, values) && Fits(tuple, Sizes(tables))
    ensures Fits(PickedTuple(tables, values, args, e), Sizes(tables))
    ensures AllHold(Chosen(tables, tuple), e) <==> tuple == PickedTuple(tables, values, args, e)
  {
    hide Eval, ArgumentCase;
    var picked := PickedTuple(tables, values, args, e);
    if tuple != picked {
      var i :| 0 <= i < |args| && tuple[i] != picked[i];
      assert !Holds(Chosen(tables, tuple)[i], e);
    }
  }

  lemma PickedValue(op: Op, args: seq<Term>, tables: seq<seq<Term>>, values: seq<seq<Term>>, e: Env)
    requires ArgumentCases(args, tables, values) && Sizes(tables) == Sizes(values)
    ensures Fits(PickedTuple(tables, values, args, e), Sizes(values))
    ensures Eval(App(op, Chosen(values, PickedTuple(tables, values, args, e))), e) == Eval(App(op, args), e)
  {
    hide Eval, ArgumentCase;
    var picked := PickedTuple(tables, values, args, e);
    assert forall i | 0 <= i < |args| :: picked[i] < Sizes(tables)[i];
    EvalApp(op, args, e);
    EvalApp(op, Chosen(values, picked), e);
    assert EvalAll(Chosen(values, picked), e) == EvalAll(args, e);
  }

  lemma TuplesSplit(op: Op, args: seq<Term>, tables: seq<seq<Term>>, values: seq<seq<Term>>, context: Term,
                    tuples: seq<seq<nat>>, conds: seq<Term>, exprs: seq<Term>)
    requires ArgumentCases(args, tables, values) && |conds| == |tuples| && Sizes(tables) == Sizes(values)
    requires TupleCases(op, tables, values, context, tuples, conds, exprs)
    requires forall t :: t in tuples <==> Fits(t, Sizes(tables))
    requires forall a, b | 0 <= a < b < |tuples| :: tuples[a] != tuples[b]
    ensures Splits(conds, exprs, context, App(op, args))
  {
    hide Eval, AllHold, Chosen, ArgumentCases, Fits;
    forall e | Holds(context, e) ensures Yields(conds, exprs, e, Eval(App(op, args), e)) {
      var tuple := PickedTuple(tables, values, args, e);
      forall t | t in tuples ensures AllHold(Chosen(tables, t), e) <==> t == tuple {
        OnlyPicked(args, tables, values, t, e);
      }
      AnyTuple(args, tables, values, e);
      var k :| 0 <= k < |tuples| && tuples[k] == tuple;
      assert forall l | 0 <= l < |conds| :: tuples[l] in tuples;
      assert Picks(conds, e, k);
      PickedValue(op, args, tables, values, e);
    }
  }

  lemma AnyTuple(args: seq<Term>, tables: seq<seq<Term>>, values: seq<seq<Term>>, e: Env)
    requires ArgumentCases(args, tables, values)
    ensures Fits(PickedTuple(tables, values, args, e), Sizes(tables))
  {
  }

  /** The condition and the expression of one tuple. */
  method AccumulateCase(tables: seq<seq<Term>>, values: seq<seq<Term>>, tuple: seq<nat>)
    returns (condition: Term, parts: seq<Term>)
    requires |tables| == |values| && Fits(tuple, Sizes(tables)) && Fits(tuple, Sizes(values))
    ensures parts == Chosen(values, tuple)
    ensures forall e :: Holds(condition, e) <==> AllHold(Chosen(tables, tuple), e)
    ensures BooleanTables(tables) ==> Boolean(condition)
  {
    hide Eval;
    condition, parts := Flag(true), [];
    var i := 0;
    assert forall e :: Holds(condition, e) by { forall e ensures Holds(condition, e) { TrueHolds(e); } }
    while i < |tuple|
      invariant 0 <= i <= |tuple| && parts == Chosen(values, tuple)[..i]
      invariant forall e :: Holds(condition, e) <==> forall k | 0 <= k < i :: Holds(Chosen(tables, tuple)[k], e)
      invariant BooleanTables(tables) ==> Boolean(condition)
    {
      assert Chosen(tables, tuple)[i] == tables[i][tuple[i]] && Chosen(values, tuple)[i] == values[i][tuple[i]];
      ghost var before := condition;
      PairBoolean(condition, tables[i][tuple[i]]);
      condition := Conj(condition, tables[i][tuple[i]]);
      forall e ensures Holds(condition, e) <==> forall k | 0 <= k < i + 1 :: Holds(Chosen(tables, tuple)[k], e) {
        assert Holds(condition, e) <==> Holds(before, e) && Holds(Chosen(tables, tuple)[i], e);
      }
      parts := parts + [values[i][tuple[i]]];
      i := i + 1;
    }
  }

  lemma TrueHolds(e: Env)
    ensures Holds(Flag(true), e)
  {
  }

  /** The cases of an application, from the cases of its arguments: one for each tuple. */
  method TupleCasesOf(op: Op, args: seq<Term>, tables: seq<seq<Term>>, values: seq<seq<Term>>, sizes: seq<nat>,
      context: Term)
    returns (conds: seq<Term>, exprs: seq<Term>)
    requires args != [] && |tables| == |args| && ArgumentCases(args, tables, values)
        && sizes == Sizes(tables) == Sizes(values)
    ensures |conds| == |exprs| && Splits(conds, exprs, context, App(op, args)) && AllIteFree(exprs)
    ensures BooleanTables(tables) && Boolean(context) ==> AllBoolean(conds)
  {
    hide Eval, Splits, IteFree, ArgumentCases, BooleanTables, Boolean;
    var tuples := CartesianProduct(sizes, 0);
    assert sizes[0..] == sizes;
    conds, exprs := [], [];
    TupleCasesStart(op, tables, values, context, tuples);
    var k := 0;
    while k < |tuples|
      invariant k <= |tuples| && |conds| == |exprs| == k
      invariant TupleCases(op, tables, values, context, tuples, conds, exprs)
      invariant BooleanTables(tables) && Boolean(context) ==> AllBoolean(conds)
    {
      assert tuples[k] in tuples;
      var condition, parts := AccumulateCase(tables, values, tuples[k]);
      PairBoolean(condition, context);
      conds, exprs := conds + [Conj(condition, context)], exprs + [App(op, parts)];
      k := k + 1;
    }
    TuplesSplit(op, args, tables, values, context, tuples, conds, exprs);
    TuplesIteFree(op, args, tables, values, context, tuples, conds, exprs);
  }

  /** aux_expr2piecewise: the cases of a term under a context condition, after those already there. */
  method AuxExpr2Piecewise(t: Term, context: Term, conditions: seq<Term>, expressions: seq<Term>,
                           solver: Solver, eliminate: Rewriter)
    returns (conds: seq<Term>, exprs: seq<Term>)
    requires Sound(solver) && Eliminates(eliminate) && |conditions| == |expressions|
    ensures |conds| == |exprs| >= |conditions| && conds[..|conditions|] == conditions
        && exprs[..|conditions|] == expressions
    ensures Splits(conds[|conditions|..], exprs[|conditions|..], context, t)
    ensures AllIteFree(exprs[|conditions|..])
    ensures KeepsBoolean(eliminate) && BooleanGuards(t) && Boolean(context) && AllBoolean(conditions) ==>
        AllBoolean(conds)
    decreases t, 0
  {
    hide Eval, Sound, Eliminates, Splits, IteFree, Boolean, KeepsBoolean;
    var n := |conditions|;
    match t {
    case Ite(c, a, b) =>
      PairBoolean(c, context);
      PairBoolean(Negate(c), context);
      PairBoolean(c, c);
      conds, exprs := AuxExpr2Piecewise(a, Conj(c, context), conditions, expressions, solver, eliminate);
      ghost var middle, x := conds[n..], exprs[n..];
      ghost var k := |conds|;
      conds, exprs := AuxExpr2Piecewise(b, Conj(Negate(c), context), conds, exprs, solver, eliminate);
      BranchesSplit(c, a, b, context, middle, x, conds[k..], exprs[k..]);
      assert conds[n..] == middle + conds[k..];
      assert exprs[n..] == x + exprs[k..];
      assert conds[..n] == conds[..k][..n] && exprs[..n] == exprs[..k][..n];
    case App(op, args) =>
      if args == [] {
        conds, exprs := conditions + [context], expressions + [t];
        LeafSplits(t, context);
        assert conds[n..] == [context] && exprs[n..] == [t];
        return;
      }
      var tables, values, sizes := [], [], [];
      var i := 0;
      while i < |args|
        invariant i <= |args| && |tables| == |values| == i && sizes == Sizes(tables) == Sizes(values)
        invariant forall j | 0 <= j < i :: ArgumentCase(tables[j], values[j], args[j])
        invariant KeepsBoolean(eliminate) && BooleanGuards(t) ==> BooleanTables(tables)
      {
        var cs, xs := Expr2Piecewise(args[i], solver, eliminate);
        tables, values, sizes := tables + [cs], values + [xs], sizes + [|cs|];
        assert sizes == Sizes(tables) == Sizes(values);
        i := i + 1;
      }
      var newConds, newExprs := TupleCasesOf(op, args, tables, values, sizes, context);
      conds, exprs := conditions + newConds, expressions + newExprs;
      assert conds[n..] == newConds && exprs[n..] == newExprs;
    case _ =>
      conds, exprs := conditions + [context], expressions + [t];
      LeafSplits(t, context);
      assert conds[n..] == [context] && exprs[n..] == [t];
    }
  }

  lemma TupleCasesStart(op: Op, tables: seq<seq<Term>>, values: seq<seq<Term>>, context: Term, tuples: seq<seq<nat>>)
    requires |tables| == |values| && Sizes(tables) == Sizes(values) && forall t :: t in tuples <==>
        Fits(t, Sizes(tables))
    ensures TupleCases(op, tables, values, context, tuples, [], [])
  {
  }

  lemma TuplesIteFree(op: Op, args: seq<Term>, tables: seq<seq<Term>>, values: seq<seq<Term>>, context: Term,
                      tuples: seq<seq<nat>>, conds: seq<Term>, exprs: seq<Term>)
    requires ArgumentCases(args, tables, values) && TupleCases(op, tables, values, context, tuples, conds, exprs)
    ensures AllIteFree(exprs)
  {
    forall k | 0 <= k < |exprs| ensures IteFree(exprs[k]) {
      assert tuples[k] in tuples;
      var parts := Chosen(values, tuples[k]);
      forall i | 0 <= i < |parts| ensures IteFree(parts[i]) {
        assert ArgumentCase(tables[i], values[i], args[i]);
        assert Sizes(values)[i] == |values[i]|;
      }
    }
  }

  lemma LeafSplits(t: Term, context: Term)
    requires !t.Ite? && (t.App? ==> t.args == [])
    ensures Splits([context], [t], context, t) && AllIteFree([t])
  {
    hide Eval;
    forall e | Holds(context, e) ensures Yields([context], [t], e, Eval(t, e)) { assert Picks([context], e, 0); }
    assert IteFree(t);
  }

  lemma BranchesSplit(c: Term, a: Term, b: Term, context: Term, ca: seq<Term>, xa: seq<Term>, cb: seq<Term>,
      xb: seq<Term>)
    requires Splits(ca, xa, Conj(c, context), a) && Splits(cb, xb, Conj(Negate(c), context), b)
    ensures Splits(ca + cb, xa + xb, context, Ite(c, a, b))
  {
    var conds, exprs := ca + cb, xa + xb;
    forall e | Holds(context, e) ensures Yields(conds, exprs, e, Eval(Ite(c, a, b), e)) {
      IteMeans(c, a, b, e);
      hide Eval;
      if Holds(c, e) {
        assert Yields(ca, xa, e, Eval(a, e)) && !Covered(cb, e);
        var i: nat :| Picks(ca, e, i) && Eval(xa[i], e) == Eval(a, e);
        assert Picks(conds, e, i) by {
          forall j | 0 <= j < |conds| && j != i ensures !Holds(conds[j], e) {
            if j >= |ca| { assert !Holds(cb[j - |ca|], e); }
          }
        }
      } else {
        assert Yields(cb, xb, e, Eval(b, e)) && !Covered(ca, e);
        var i: nat :| Picks(cb, e, i) && Eval(xb[i], e) == Eval(b, e);
        assert Picks(conds, e, |ca| + i) by {
          forall j | 0 <= j < |conds| && j != |ca| + i ensures !Holds(conds[j], e) {
            if j < |ca| { assert !Holds(ca[j], e); } else { assert !Holds(cb[j - |ca|], e); }
          }
        }
      }
    }
    forall e | !Holds(context, e) ensures !Covered(conds, e) {
      hide Eval;
      assert !Covered(ca, e) && !Covered(cb, e);
      forall j | 0 <= j < |conds| ensures !Holds(conds[j], e) {
        if j < |ca| { assert !Holds(ca[j], e); } else { assert !Holds(cb[j - |ca|], e); }
      }
    }
  }

  lemma IteMeans(c: Term, a: Term, b: Term, e: Env)
    ensures Eval(Ite(c, a, b), e) == if Holds(c, e) then Eval(a, e) else Eval(b, e)
  {
  }

  /** expr2piecewise: in every environment exactly one condition holds, its expression is free of
      conditionals and has the value of the term. */
  method Expr2Piecewise(t: Term, solver: Solver, eliminate: Rewriter) returns (conds: seq<Term>, exprs: seq<Term>)
    requires Sound(solver) && Eliminates(eliminate)
    ensures |conds| == |exprs| && conds != []
    ensures AllIteFree(exprs) && forall e :: Yields(conds, exprs, e, Eval(t, e))
    ensures Decides(solver) ==> ApartUpTo(conds, exprs, |conds|)
    ensures KeepsBoolean(eliminate) && BooleanGuards(t) ==> AllBoolean(conds)
    decreases t, 1
  {
    hide Eval, Sound, Splits, IteFree, BooleanGuards, ApartUpTo, Decides;
    var conditions, expressions := AuxExpr2Piecewise(t, Flag(true), [], [], solver, eliminate);
    assert conditions[0..] == conditions && expressions[0..] == expressions;
    var eliminated: seq<Term> := [];
    var i := 0;
    while i < |conditions|
      invariant 0 <= i <= |conditions| && |eliminated| == i
      invariant forall k | 0 <= k < i :: eliminated[k] == eliminate(conditions[k])
    {
      eliminated := eliminated + [eliminate(conditions[i])];
      i := i + 1;
    }
    conds, exprs := MergeCases(eliminated, expressions, solver);
    EliminatedYields(t, conditions, eliminated, expressions, eliminate);
    forall k | 0 <= k < |exprs| ensures IteFree(exprs[k]) {
      assert exprs[k] in expressions;
    }
    YieldsAnywhere(t, conds, exprs, eliminated, expressions);
  }

  lemma YieldsAnywhere(t: Term, conds: seq<Term>, exprs: seq<Term>, eliminated: seq<Term>, expressions: seq<Term>)
    requires Refines(eliminated, expressions, conds, exprs)
    requires forall e :: Yields(eliminated, expressions, e, Eval(t, e))
    ensures conds != []
    ensures forall e :: Yields(conds, exprs, e, Eval(t, e))
  {
    hide Eval;
    var e := Env(map[], (name: nat, vs: seq<int>) => 0);
    assert Yields(conds, exprs, e, Eval(t, e));
  }

  lemma EliminatedYields(t: Term, conds: seq<Term>, eliminated: seq<Term>, exprs: seq<Term>, eliminate: Rewriter)
    requires Splits(conds, exprs, Flag(true), t) && |eliminated| == |conds| && Eliminates(eliminate)
    requires forall k | 0 <= k < |conds| :: eliminated[k] == eliminate(conds[k])
    ensures forall e :: Yields(eliminated, exprs, e, Eval(t, e))
  {
    hide Eval;
    forall e ensures Yields(eliminated, exprs, e, Eval(t, e)) {
      TrueHolds(e);
      assert Yields(conds, exprs, e, Eval(t, e));
      var i: nat :| Picks(conds, e, i) && Eval(exprs[i], e) == Eval(t, e);
      assert forall k | 0 <= k < |conds| :: Holds(eliminated[k], e) <==> Holds(conds[k], e);
      assert Picks(eliminated, e, i);
    }
  }

  /* ---- and back ---- */

  /** The value of the first case that holds; the last case takes what is left. */
  ghost function FirstMatch(conds: seq<Term>, exprs: seq<Term>, e: Env): (v: int)
    requires |conds| == |exprs| && conds != []
  {
    if |conds| == 1 || Holds(conds[0], e) then Eval(exprs[0], e) else FirstMatch(conds[1..], exprs[1..], e)
  }

  /** If one case alone holds, it is the first. */
  lemma {:induction false} OnlyMatch(conds: seq<Term>, exprs: seq<Term>, e: Env, i: nat)
    requires |conds| == |exprs| && Picks(conds, e, i)
    ensures FirstMatch(conds, exprs, e) == Eval(exprs[i], e)
  {
    hide Eval;
    if i > 0 {
      assert !Holds(conds[0], e) && conds[i] == conds[1..][i - 1] && exprs[i] == exprs[1..][i - 1];
      OnlyMatch(conds[1..], exprs[1..], e, i - 1);
    }
  }

  /** piecewise2ite: a nest of conditionals with the value of the one case that applies; where several
      overlap and the solver refutes nothing, the first of them. There is no result for lists of
      different lengths, which the source rejects, or for no case at all. */
  method Piecewise2Ite(conditions: seq<Term>, expressions: seq<Term>, solver: Solver) returns (r: Option<Term>)
    requires Sound(solver)
    ensures r.Some? <==> |conditions| == |expressions| && conditions != []
    ensures r.Some? ==> forall e, v | Yields(conditions, expressions, e, v) :: Eval(r.value, e) == v
    ensures r.Some? && NeverRefutes(solver) ==> forall e :: Eval(r.value, e) == FirstMatch(conditions, expressions, e)
    ensures r.Some? && Plain(conditions) && Plain(expressions) ==> QuantifierFree(r.value)
  {
    hide Eval, Sound, NeverRefutes;
    if |conditions| != |expressions| { return None; }
    if |conditions| == 1 {
      OneCase(conditions, expressions);
      return Some(expressions[0]);
    }
    var conds, exprs := MergeCases(conditions, expressions, solver);
    if exprs == [] {
      NothingFromNothing(conditions, expressions);
      return None;
    }
    assert exprs[0] in expressions;
    var i := |conds| - 1;
    var ite := exprs[i];
    while i > 0
      invariant 0 <= i < |conds|
      invariant forall e :: Eval(ite, e) == FirstMatch(conds[i..], exprs[i..], e)
      invariant Plain(conds) && Plain(exprs) ==> QuantifierFree(ite)
    {
      i := i - 1;
      ghost var before := ite;
      ite := Term.Ite(conds[i], exprs[i], ite);
      forall e ensures Eval(ite, e) == FirstMatch(conds[i..], exprs[i..], e) {
        IteMeans(conds[i], exprs[i], before, e);
        assert conds[i..][1..] == conds[i + 1..] && exprs[i..][1..] == exprs[i + 1..];
      }
    }
    assert conds[0..] == conds && exprs[0..] == exprs;
    forall e, v | Yields(conditions, expressions, e, v) ensures Eval(ite, e) == v {
      var k: nat :| Picks(conds, e, k) && Eval(exprs[k], e) == v;
      OnlyMatch(conds, exprs, e, k);
    }
    assert Plain(expressions) ==> Plain(exprs) by {
      forall k | 0 <= k < |exprs| ensures exprs[k] in expressions { }
    }
    r := Some(ite);
  }

  lemma NothingFromNothing(conds: seq<Term>, exprs: seq<Term>)
    requires conds == []
    ensures forall e, v :: |conds| == |exprs| ==> !Yields(conds, exprs, e, v)
  {
  }

  lemma OneCase(conds: seq<Term>, exprs: seq<Term>)
    requires |conds| == |exprs| == 1
    ensures forall e, v | Yields(conds, exprs, e, v) :: Eval(exprs[0], e) == v
  {
  }

  /** The round trip: the cases of a term, put together again, are the term. */
  method RoundTrip(t: Term, solver: Solver, eliminate: Rewriter) returns (back: Term)
    requires Sound(solver) && Eliminates(eliminate)
    ensures forall e :: Eval(back, e) == Eval(t, e)
  {
    var conds, exprs := Expr2Piecewise(t, solver, eliminate);
    var r := Piecewise2Ite(conds, exprs, solver);
    back := r.value;
  }
}
