/** The scalars that a loop carries around, which are the PHIs of its header, and the closed forms over
    them spread over all scalars: the others keep their values. */
module HeaderScalars {
  import opened Terms
  import opened ClosedForms
  import opened LoopNests
  import opened Selections

  /** The header's PHIs, in order: the scalars that the body modifies. */
  function Phis(body: Code, m: nat): (ids: seq<nat>)
    ensures Distinct(ids) && forall x: nat :: x in ids <==> x < m && Modifies(body, x)
  {
    if m == 0 then []
    else
      var before := Phis(body, m - 1);
      if Modifies(body, m - 1) then
        assert forall i | 0 <= i < |before| :: before[i] in before;
        before + [m - 1]
      else before
  }

  function PlaceOf(ids: seq<nat>, x: nat): (i: nat)
    requires x in ids
    ensures i < |ids| && ids[i] == x
  {
    if ids[|ids| - 1] == x then |ids| - 1 else PlaceOf(ids[..|ids| - 1], x)
  }

  /** A term for every scalar: the given ones, and the others themselves. */
  function Spread(ts: seq<Term>, ids: seq<nat>, m: nat): (all: seq<Term>)
    requires |ts| == |ids|
    ensures |all| == m
    ensures forall x: nat | x < m :: all[x] == if x in ids then ts[PlaceOf(ids, x)] else Var(x)
  {
    seq(m, x requires 0 <= x < m => if x in ids then ts[PlaceOf(ids, x)] else Var(x))
  }

  lemma SpreadPlain(ts: seq<Term>, ids: seq<nat>, m: nat)
    requires |ts| == |ids| && Plain(ts)
    ensures Plain(Spread(ts, ids, m))
  {
  }

  /** Environments with the same lookups give the same values. */
  lemma SameLookups(ts: seq<Term>, e: Env, e': Env)
    requires e.fns == e'.fns && forall id :: Lookup(e, id) == Lookup(e', id)
    ensures EvalAll(ts, e) == EvalAll(ts, e')
  {
    hide Eval;
    forall i | 0 <= i < |ts| ensures Eval(ts[i], e) == Eval(ts[i], e') { EvalAgree(ts[i], e, e'); }
  }

  /** The store with the carried scalars at u, seen through all scalars or through those alone. */
  lemma SameStore(ids: seq<nat>, m: nat, e: Env, s: State, u: State, full: State)
    requires Distinct(ids) && AllBelow(ids, m) && |s| == m == |full| && |u| == |ids|
    requires forall x: nat | x < m :: full[x] == if x in ids then u[PlaceOf(ids, x)] else s[x]
    ensures var b, b' := Store(e, m, full), Bind(Store(e, m, s), ids, u);
      b.fns == b'.fns && forall id :: Lookup(b, id) == Lookup(b', id)
  {
    var b, b' := Store(e, m, full), Bind(Store(e, m, s), ids, u);
    forall id ensures Lookup(b, id) == Lookup(b', id) {
      if id in ids {
        assert b.fns == b'.fns && Lookup(b', ids[PlaceOf(ids, id)]) == u[PlaceOf(ids, id)];
      }
    }
  }

  lemma StoreIsBind(e: Env, m: nat, s: State)
    requires |s| == m
    ensures Store(e, m, s) == Bind(e, Params(m), s)
  {
  }

  /** Terms for the carried scalars have the values they have through all scalars. */
  lemma SpreadValues(ts: seq<Term>, ids: seq<nat>, m: nat, s: State, b: Env, b': Env)
    requires |ts| == |ids| && |s| == m && b.fns == b'.fns && forall id :: Lookup(b, id) == Lookup(b', id)
    requires forall x: nat | x < m && x !in ids :: Lookup(b, x) == s[x]
    ensures var after := EvalAll(Spread(ts, ids, m), b);
      forall x: nat | x < m :: after[x] == if x in ids then EvalAll(ts, b')[PlaceOf(ids, x)] else s[x]
  {
    hide Eval, Spread, PlaceOf;
    SameLookups(ts, b, b');
    forall x: nat | x < m && x !in ids ensures Eval(Var(x), b) == s[x] { VarMeans(x, b); }
  }

  /** One iteration of all scalars is one of the carried scalars. */
  lemma SpreadStep(oneStep: seq<Term>, ids: seq<nat>, m: nat, e: Env, s: State, u: State, full: State)
    requires Distinct(ids) && AllBelow(ids, m) && |oneStep| == |ids| == |u| && |s| == m == |full|
    requires forall x: nat | x < m :: full[x] == if x in ids then u[PlaceOf(ids, x)] else s[x]
    ensures var after := EvalAll(Spread(oneStep, ids, m), Bind(e, Params(m), full));
      forall x: nat | x < m ::
        after[x] == if x in ids then EvalAll(oneStep, Bind(Store(e, m, s), ids, u))[PlaceOf(ids, x)] else s[x]
  {
    hide Eval, Bind, Spread, PlaceOf;
    StoreIsBind(e, m, full);
    SameStore(ids, m, e, s, u, full);
    SpreadValues(oneStep, ids, m, s, Store(e, m, full), Bind(Store(e, m, s), ids, u));
  }

  lemma {:induction false} SpreadIterates(oneStep: seq<Term>, ids: seq<nat>, m: nat, e: Env, s: State, n: nat)
    requires Distinct(ids) && AllBelow(ids, m) && |oneStep| == |ids| && |s| == m
    ensures var full := Iterate(Spread(oneStep, ids, m), Params(m), e, s, n);
      var u := Iterate(oneStep, ids, Store(e, m, s), Picked(s, ids), n);
      forall x: nat | x < m :: full[x] == if x in ids then u[PlaceOf(ids, x)] else s[x]
  {
    hide Eval, Bind, Spread, PlaceOf, Store, Params;
    if n > 0 {
      SpreadIterates(oneStep, ids, m, e, s, n - 1);
      SpreadStep(oneStep, ids, m, e, s, Iterate(oneStep, ids, Store(e, m, s), Picked(s, ids), n - 1),
        Iterate(Spread(oneStep, ids, m), Params(m), e, s, n - 1));
    }
  }

  lemma PointsAlike(ids: seq<nat>, m: nat, e: Env, s: State, ind: nat, n: int)
    requires Distinct(ids) && AllBelow(ids, m) && |s| == m && ind >= m
    ensures var b, b' := At(e, Params(m), s, ind, n), At(Store(e, m, s), ids, Picked(s, ids), ind, n);
      && b.fns == b'.fns && (forall id :: Lookup(b, id) == Lookup(b', id))
      && forall x: nat | x < m :: Lookup(b, x) == s[x]
  {
    hide Bind, PlaceOf, Params, Store;
    StoreIsBind(e, m, s);
    SameStore(ids, m, e, s, Picked(s, ids), s);
    var b, b' := Store(e, m, s), Bind(Store(e, m, s), ids, Picked(s, ids));
    forall id ensures Lookup(Set(b, ind, n), id) == Lookup(Set(b', ind, n), id) {
      assert Lookup(b, id) == Lookup(b', id);
    }
    forall x: nat | x < m ensures Lookup(Set(b, ind, n), x) == s[x] {
      assert Lookup(b, x) == s[x];
    }
  }

  /** A closed form of the carried scalars, spread, is one of all scalars. */
  lemma SpreadCloses(oneStep: seq<Term>, closed: seq<Term>, ids: seq<nat>, m: nat, ind: nat)
    requires Distinct(ids) && AllBelow(ids, m) && |oneStep| == |ids| && Closes(oneStep, closed, ids, ind) && ind >= m
    ensures Closes(Spread(oneStep, ids, m), Spread(closed, ids, m), Params(m), ind)
  {
    hide Eval, Iterate, Spread, PlaceOf, Bind, Store, Params;
    forall e: Env, s: State, n: nat | |s| == m
      ensures EvalAll(Spread(closed, ids, m), At(e, Params(m), s, ind, n)) ==
        Iterate(Spread(oneStep, ids, m), Params(m), e, s, n)
    {
      SpreadIterates(oneStep, ids, m, e, s, n);
      PointsAlike(ids, m, e, s, ind, n);
      SpreadValues(closed, ids, m, s, At(e, Params(m), s, ind, n), At(Store(e, m, s), ids, Picked(s, ids), ind, n));
    }
  }
}
