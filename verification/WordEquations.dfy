/** Polynomial expressions that satisfy one linear recurrence along every sequence of branches. */
module WordEquations {
  import opened Wrappers

  /** Polynomials over symbols and the loop counter. */
  datatype Poly =
    | Const(value: real)
    | Sym(id: nat)
    | Counter
    | Sum(l: Poly, r: Poly)
    | Product(l: Poly, r: Poly)

  type Valuation = seq<real>

  function Eval(p: Poly, x: Valuation, n: real): real {
    match p
    case Const(c) => c
    case Sym(id) => if id < |x| then x[id] else 0.0
    case Counter => n
    case Sum(l, r) => Eval(l, x, n) + Eval(r, x, n)
    case Product(l, r) => Eval(l, x, n) * Eval(r, x, n)
  }

  /* ---- runs ---- */

  /** A branch assigns the first symbols; the others are parameters. */
  type Transition = seq<Poly>

  type Word = seq<nat>

  ghost predicate Branches(trs: seq<Transition>, w: nat) { forall i | 0 <= i < |trs| :: |trs[i]| == w }

  predicate IsWord(word: Word, count: nat) { forall i | 0 <= i < |word| :: word[i] < count }

  /** What polynomials, one for each variable, make of the variables' values. */
  function Image(polys: seq<Poly>, x: Valuation, n: real): (y: Valuation)
    ensures |y| == |x|
  {
    seq(|x|, i requires 0 <= i < |x| => if i < |polys| then Eval(polys[i], x, n) else x[i])
  }

  /** The valuation after a word of branches, from counter n. */
  function Run(trs: seq<Transition>, word: Word, x: Valuation, n: real): (y: Valuation)
    requires IsWord(word, |trs|)
    ensures |y| == |x|
    decreases |word|
  {
    if word == [] then x
    else
      var k := |word| - 1;
      Image(trs[word[k]], Run(trs, word[..k], x, n), n + k as real)
  }

  lemma {:induction false} RunConcat(trs: seq<Transition>, u: Word, v: Word, x: Valuation, n: real)
    requires IsWord(u, |trs|) && IsWord(v, |trs|)
    ensures IsWord(u + v, |trs|)
    ensures Run(trs, u + v, x, n) == Run(trs, v, Run(trs, u, x, n), n + |u| as real)
    decreases |v|
  {
    if v == [] {
      assert u + v == u;
    } else {
      var k := |v| - 1;
      RunConcat(trs, u, v[..k], x, n);
      assert (u + v)[..|u + v| - 1] == u + v[..k];
      assert n + (|u| + k) as real == n + |u| as real + k as real;
    }
  }

  /** The value of the expression along a branch sequence. */
  function Along(p: Poly, trs: seq<Transition>, branches: nat -> nat, x: Valuation, k: nat): real
    requires forall i: nat :: branches(i) < |trs|
  {
    Eval(p, Run(trs, Prefix(branches, 0, k), x, 0.0), k as real)
  }

  function Prefix(branches: nat -> nat, start: nat, k: nat): (word: Word)
    ensures |word| == k && forall i | 0 <= i < k :: word[i] == branches(start + i)
  {
    seq(k, i requires 0 <= i < k => branches(start + i))
  }

  /* ---- symbolic runs ---- */

  /** The counter replaced by the counter plus a number. */
  function Shift(p: Poly, step: nat): Poly {
    match p
    case Counter => Sum(Counter, Const(step as real))
    case Sum(l, r) => Sum(Shift(l, step), Shift(r, step))
    case Product(l, r) => Product(Shift(l, step), Shift(r, step))
    case _ => p
  }

  /** The first symbols replaced by polynomials, all at once. */
  function Substitute(p: Poly, state: seq<Poly>): Poly {
    match p
    case Sym(id) => if id < |state| then state[id] else p
    case Sum(l, r) => Sum(Substitute(l, state), Substitute(r, state))
    case Product(l, r) => Product(Substitute(l, state), Substitute(r, state))
    case _ => p
  }

  lemma {:induction false} ShiftMeans(p: Poly, step: nat, x: Valuation, n: real)
    ensures Eval(Shift(p, step), x, n) == Eval(p, x, n + step as real)
  {
    match p
    case Sum(l, r) => ShiftMeans(l, step, x, n); ShiftMeans(r, step, x, n);
    case Product(l, r) => ShiftMeans(l, step, x, n); ShiftMeans(r, step, x, n);
    case _ =>
  }

  lemma {:induction false} SubstituteMeans(p: Poly, state: seq<Poly>, x: Valuation, n: real)
    requires |state| <= |x|
    ensures Eval(Substitute(p, state), x, n) == Eval(p, Image(state, x, n), n)
  {
    match p
    case Sum(l, r) => SubstituteMeans(l, state, x, n); SubstituteMeans(r, state, x, n);
    case Product(l, r) => SubstituteMeans(l, state, x, n); SubstituteMeans(r, state, x, n);
    case _ =>
  }

  /** The expression or right-hand side at a symbolic state, some steps on. */
  function AtState(p: Poly, state: seq<Poly>, step: nat): Poly { Substitute(Shift(p, step), state) }

  lemma AtStateMeans(p: Poly, state: seq<Poly>, step: nat, x: Valuation, n: real)
    requires |state| <= |x|
    ensures Eval(AtState(p, state, step), x, n) == Eval(p, Image(state, x, n), n + step as real)
  {
    SubstituteMeans(Shift(p, step), state, x, n);
    ShiftMeans(p, step, Image(state, x, n), n);
  }

  /** _advance_state_symbolic */
  function Advance(state: seq<Poly>, tr: Transition, step: nat): (next: seq<Poly>)
    ensures |next| == |tr|
  {
    seq(|tr|, i requires 0 <= i < |tr| => AtState(tr[i], state, step))
  }

  lemma AdvanceMeans(state: seq<Poly>, tr: Transition, step: nat, x: Valuation, n: real)
    requires |state| == |tr| <= |x|
    ensures Image(Advance(state, tr, step), x, n) == Image(tr, Image(state, x, n), n + step as real)
  {
    forall i | 0 <= i < |x|
        ensures Image(Advance(state, tr, step), x, n)[i] == Image(tr, Image(state, x, n), n + step as real)[i] {
      if i < |tr| { AtStateMeans(tr[i], state, step, x, n); }
    }
  }

  function Symbols(w: nat): (state: seq<Poly>)
    ensures |state| == w
  {
    seq(w, i requires 0 <= i < w => Sym(i))
  }

  lemma SymbolsMean(w: nat, x: Valuation, n: real)
    requires w <= |x|
    ensures Image(Symbols(w), x, n) == x
  {
  }

  /** The iterates of a template stand for its values along the word. */
  ghost predicate Iterates(p: Poly, trs: seq<Transition>, word: Word, w: nat, iterates: seq<Poly>)
    requires IsWord(word, |trs|)
  {
    |iterates| == |word| + 1 && forall x: Valuation, n: real, k | |x| >= w && 0 <= k <= |word| ::
      Eval(iterates[k], x, n) == Eval(p, Run(trs, word[..k], x, n), n + k as real)
  }

  /** _template_iterates_for_word */
  method TemplateIterates(p: Poly, trs: seq<Transition>, word: Word, w: nat) returns (iterates: seq<Poly>)
    requires Branches(trs, w) && IsWord(word, |trs|)
    ensures Iterates(p, trs, word, w, iterates)
  {
    hide Eval, Shift, Substitute;
    var state := Symbols(w);
    iterates := [AtState(p, state, 0)];
    forall x: Valuation, n: real | |x| >= w
        ensures Eval(iterates[0], x, n) == Eval(p, Run(trs, word[..0], x, n), n + 0 as real) {
      AtStateMeans(p, state, 0, x, n);
      SymbolsMean(w, x, n);
    }
    var step := 0;
    forall x: Valuation, n: real | |x| >= w ensures Image(state, x, n) == Run(trs, word[..0], x, n) {
      SymbolsMean(w, x, n);
    }
    while step < |word|
      invariant 0 <= step <= |word| && |state| == w && |iterates| == step + 1
      invariant forall x: Valuation, n: real | |x| >= w :: Image(state, x, n) == Run(trs, word[..step], x, n)
      invariant forall x: Valuation, n: real, k | |x| >= w && 0 <= k <= step ::
        Eval(iterates[k], x, n) == Eval(p, Run(trs, word[..k], x, n), n + k as real)
    {
      ghost var before := state;
      state := Advance(state, trs[word[step]], step);
      iterates := iterates + [AtState(p, state, step + 1)];
      forall x: Valuation, n: real | |x| >= w
        ensures Image(state, x, n) == Run(trs, word[..step + 1], x, n)
        ensures Eval(iterates[step + 1], x, n) == Eval(p, Run(trs, word[..step + 1], x, n), n + (step + 1) as real)
      {
        AdvanceMeans(before, trs[word[step]], step, x, n);
        assert word[..step + 1][..step] == word[..step];
        AtStateMeans(p, state, step + 1, x, n);
      }
      step := step + 1;
    }
  }

  /* ---- all words of a length ---- */

  /** product(range(count), repeat = length) */
  function Words(count: nat, length: nat): (words: seq<Word>)
    decreases length
  {
    if length == 0 then [[]] else Prepended(count, Words(count, length - 1))
  }

  function Prepended(count: nat, words: seq<Word>): seq<Word>
    decreases count
  {
    if count == 0 then []
    else Prepended(count - 1, words) + seq(|words|, i requires 0 <= i < |words| => [count - 1] + words[i])
  }

  lemma {:induction false} PrependedHas(count: nat, words: seq<Word>, head: nat, tail: Word)
    ensures [head] + tail in Prepended(count, words) <==> head < count && tail in words
    decreases count
  {
    if count > 0 {
      PrependedHas(count - 1, words, head, tail);
      var last := seq(|words|, i requires 0 <= i < |words| => [count - 1] + words[i]);
      if [head] + tail in last {
        var i :| 0 <= i < |words| && last[i] == [head] + tail;
        assert ([head] + tail)[1..] == tail && ([count - 1] + words[i])[1..] == words[i];
        assert ([head] + tail)[0] == ([count - 1] + words[i])[0];
      }
      if head == count - 1 && tail in words {
        var i :| 0 <= i < |words| && words[i] == tail;
        assert last[i] == [head] + tail;
      }
    }
  }

  lemma {:induction false} PrependedNonempty(count: nat, words: seq<Word>, word: Word)
    requires word in Prepended(count, words)
    ensures word != []
    decreases count
  {
    if word in Prepended(count - 1, words) { PrependedNonempty(count - 1, words, word); }
  }

  lemma {:induction false} WordsAreAll(count: nat, length: nat, word: Word)
    ensures word in Words(count, length) <==> |word| == length && IsWord(word, count)
    decreases length
  {
    if length > 0 {
      if word == [] {
        if word in Words(count, length) { PrependedNonempty(count, Words(count, length - 1), word); }
      } else {
        assert word == [word[0]] + word[1..];
        PrependedHas(count, Words(count, length - 1), word[0], word[1..]);
        WordsAreAll(count, length - 1, word[1..]);
        if IsWord(word[1..], count) && word[0] < count {
          forall i | 0 <= i < |word| ensures word[i] < count { if i > 0 { assert word[i] == word[1..][i - 1]; } }
        }
      }
    }
  }

  /* ---- equations ---- */

  /** The recurrence's right-hand side up to a term: the i-th coefficient meets the i-th value from
      the end. */
  function PartialSum(coeffs: seq<real>, last: seq<real>, i: nat): real
    requires |last| == |coeffs| && i <= |coeffs|
  {
    if i == 0 then 0.0 else PartialSum(coeffs, last, i - 1) + coeffs[i - 1] * last[|coeffs| - i]
  }

  function Recur(coeffs: seq<real>, last: seq<real>): real
    requires |last| == |coeffs|
  {
    PartialSum(coeffs, last, |coeffs|)
  }

  /** The values of the expression at the first positions of a word. */
  function Values(p: Poly, trs: seq<Transition>, word: Word, x: Valuation, n: real, k: nat): (vs: seq<real>)
    requires IsWord(word, |trs|) && k <= |word| + 1
    ensures |vs| == k
  {
    seq(k, j requires 0 <= j < k => Eval(p, Run(trs, word[..j], x, n), n + j as real))
  }

  /** The expression satisfies the recurrence along every word of its order, from every state and
      counter. */
  ghost predicate OnWords(p: Poly, coeffs: seq<real>, trs: seq<Transition>, w: nat) {
    forall word, x: Valuation, n: real | |word| == |coeffs| && IsWord(word, |trs|) && |x| >= w ::
        HoldsOn(p, coeffs, trs, word, x, n)
  }

  ghost predicate HoldsOn(p: Poly, coeffs: seq<real>, trs: seq<Transition>, word: Word, x: Valuation, n: real)
    requires |word| == |coeffs| && IsWord(word, |trs|)
  {
    Eval(p, Run(trs, word, x, n), n + |word| as real) == Recur(coeffs, Values(p, trs, word, x, n, |word|))
  }

  /** The equation has no nonzero coefficient: it is zero everywhere. */
  ghost predicate Vanishes(equation: Poly, w: nat) {
    forall x: Valuation, n: real | |x| >= w :: Eval(equation, x, n) == 0.0
  }

  ghost predicate AllVanish(equations: seq<Poly>, w: nat) {
    forall i | 0 <= i < |equations| :: Vanishes(equations[i], w)
  }

  /** The equation of one word. */
  method WordEquation(p: Poly, coeffs: seq<real>, trs: seq<Transition>, word: Word, w: nat) returns (equation: Poly)
    requires Branches(trs, w) && IsWord(word, |trs|) && |word| == |coeffs|
    ensures Vanishes(equation, w) <==> forall x: Valuation, n: real | |x| >= w :: HoldsOn(p, coeffs, trs, word, x, n)
  {
    hide Run, Eval, PartialSum, HoldsOn, Iterates;
    var order := |coeffs|;
    var iterates := TemplateIterates(p, trs, word, w);
    var rhs := Const(0.0);
    var i := 0;
    IteratesCount(p, trs, word, w, iterates);
    RhsStart(p, coeffs, trs, word, w);
    while i < order
      invariant 0 <= i <= order && |iterates| == order + 1
      invariant RhsUpTo(rhs, p, coeffs, trs, word, w, i)
    {
      RhsStep(rhs, p, coeffs, trs, word, w, i, iterates);
      rhs := Sum(rhs, Product(Const(coeffs[i]), iterates[order - 1 - i]));
      i := i + 1;
    }
    equation := Sum(iterates[order], Product(Const(-1.0), rhs));
    RhsEnd(rhs, p, coeffs, trs, word, w, iterates);
  }

  /** The right-hand side built from the first terms. */
  ghost predicate RhsUpTo(rhs: Poly, p: Poly, coeffs: seq<real>, trs: seq<Transition>, word: Word, w: nat, i: nat)
    requires IsWord(word, |trs|) && |word| == |coeffs| && i <= |coeffs|
  {
    forall x: Valuation, n: real | |x| >= w ::
        Eval(rhs, x, n) == PartialSum(coeffs, Values(p, trs, word, x, n, |coeffs|), i)
  }

  lemma ScaledTerm(a: Poly, c: real, b: Poly, x: Valuation, n: real)
    ensures Eval(Sum(a, Product(Const(c), b)), x, n) == Eval(a, x, n) + c * Eval(b, x, n)
  {
    assert Eval(Product(Const(c), b), x, n) == Eval(Const(c), x, n) * Eval(b, x, n);
  }

  lemma IterateIs(p: Poly, trs: seq<Transition>, word: Word, w: nat, iterates: seq<Poly>, x: Valuation, n: real, k: nat)
    requires IsWord(word, |trs|) && Iterates(p, trs, word, w, iterates) && |x| >= w && k <= |word|
    ensures Eval(iterates[k], x, n) == Eval(p, Run(trs, word[..k], x, n), n + k as real)
  {
    hide Eval, Run;
  }

  lemma RhsStart(p: Poly, coeffs: seq<real>, trs: seq<Transition>, word: Word, w: nat)
    requires IsWord(word, |trs|) && |word| == |coeffs|
    ensures RhsUpTo(Const(0.0), p, coeffs, trs, word, w, 0)
  {
  }

  lemma RhsStep(rhs: Poly, p: Poly, coeffs: seq<real>, trs: seq<Transition>, word: Word, w: nat, i: nat,
      iterates: seq<Poly>)
    requires IsWord(word, |trs|) && |word| == |coeffs| && i < |coeffs| && RhsUpTo(rhs, p, coeffs, trs, word, w, i)
    requires Iterates(p, trs, word, w, iterates)
    ensures |iterates| == |coeffs| + 1
    ensures RhsUpTo(Sum(rhs, Product(Const(coeffs[i]), iterates[|coeffs| - 1 - i])), p, coeffs, trs, word, w, i + 1)
  {
    hide Eval, Run, Iterates;
    var order := |coeffs|;
    assert |iterates| == order + 1 by { IteratesCount(p, trs, word, w, iterates); }
    var next := Sum(rhs, Product(Const(coeffs[i]), iterates[order - 1 - i]));
    forall x: Valuation, n: real | |x| >= w
        ensures Eval(next, x, n) == PartialSum(coeffs, Values(p, trs, word, x, n, order), i + 1) {
      ScaledTerm(rhs, coeffs[i], iterates[order - 1 - i], x, n);
      IterateIs(p, trs, word, w, iterates, x, n, order - 1 - i);
      assert Values(p, trs, word, x, n, order)[order - 1 - i] == Eval(iterates[order - 1 - i], x, n);
      assert Eval(rhs, x, n) == PartialSum(coeffs, Values(p, trs, word, x, n, order), i);
    }
  }

  lemma IteratesCount(p: Poly, trs: seq<Transition>, word: Word, w: nat, iterates: seq<Poly>)
    requires IsWord(word, |trs|) && Iterates(p, trs, word, w, iterates)
    ensures |iterates| == |word| + 1
  {
  }

  lemma RhsEnd(rhs: Poly, p: Poly, coeffs: seq<real>, trs: seq<Transition>, word: Word, w: nat, iterates: seq<Poly>)
    requires IsWord(word, |trs|) && |word| == |coeffs| && RhsUpTo(rhs, p, coeffs, trs, word, w, |coeffs|)
    requires Iterates(p, trs, word, w, iterates) && |iterates| == |coeffs| + 1
    ensures Vanishes(Sum(iterates[|coeffs|], Product(Const(-1.0), rhs)), w)
       <==> forall x: Valuation, n: real | |x| >= w :: HoldsOn(p, coeffs, trs, word, x, n)
  {
    hide Eval, Run, Iterates, PartialSum;
    var order := |coeffs|;
    var equation := Sum(iterates[order], Product(Const(-1.0), rhs));
    assert word[..order] == word;
    forall x: Valuation, n: real | |x| >= w
        ensures Eval(equation, x, n) == 0.0 <==> HoldsOn(p, coeffs, trs, word, x, n) {
      ScaledTerm(iterates[order], -1.0, rhs, x, n);
      IterateIs(p, trs, word, w, iterates, x, n, order);
      assert Eval(rhs, x, n) == PartialSum(coeffs, Values(p, trs, word, x, n, order), order);
    }
  }

  /** _general_cfinite_equations: one equation for every word of the order's length. They vanish if
      and only if the recurrence holds along all of them. */
  method GeneralEquations(p: Poly, coeffs: seq<real>, trs: seq<Transition>, w: nat) returns (equations: seq<Poly>)
    requires Branches(trs, w)
    ensures AllVanish(equations, w) <==> OnWords(p, coeffs, trs, w)
  {
    hide HoldsOn, Vanishes;
    var words := Words(|trs|, |coeffs|);
    equations := [];
    var i := 0;
    while i < |words|
      invariant 0 <= i <= |words| && |equations| == i
      invariant forall k | 0 <= k < i :: WordHolds(p, coeffs, trs, words[k], w) <==> Vanishes(equations[k], w)
    {
      assert words[i] in words;
      WordsAreAll(|trs|, |coeffs|, words[i]);
      var equation := WordEquation(p, coeffs, trs, words[i], w);
      equations := equations + [equation];
      i := i + 1;
    }
    AllWordsHold(p, coeffs, trs, w, words, equations);
  }

  ghost predicate WordHolds(p: Poly, coeffs: seq<real>, trs: seq<Transition>, word: Word, w: nat) {
    |word| == |coeffs| && IsWord(word, |trs|)
        && forall x: Valuation, n: real | |x| >= w :: HoldsOn(p, coeffs, trs, word, x, n)
  }

  lemma AllWordsHold(p: Poly, coeffs: seq<real>, trs: seq<Transition>, w: nat, words: seq<Word>, equations: seq<Poly>)
    requires words == Words(|trs|, |coeffs|) && |equations| == |words|
    requires forall k | 0 <= k < |words| :: WordHolds(p, coeffs, trs, words[k], w) <==> Vanishes(equations[k], w)
    ensures AllVanish(equations, w) <==> OnWords(p, coeffs, trs, w)
  {
    hide HoldsOn, Vanishes;
    if AllVanish(equations, w) {
      forall word, x: Valuation, n: real | |word| == |coeffs| && IsWord(word, |trs|) && |x| >= w
          ensures HoldsOn(p, coeffs, trs, word, x, n) {
        WordsAreAll(|trs|, |coeffs|, word);
        var k :| 0 <= k < |words| && words[k] == word;
        assert WordHolds(p, coeffs, trs, words[k], w);
      }
    }
    if OnWords(p, coeffs, trs, w) {
      forall k | 0 <= k < |words| ensures Vanishes(equations[k], w) {
        assert words[k] in words;
        WordsAreAll(|trs|, |coeffs|, words[k]);
        assert WordHolds(p, coeffs, trs, words[k], w);
      }
    }
  }

  /* ---- characteristic polynomials ---- */

  /** _recurrence_coeffs_from_characteristic */
  function RecurrenceCoeffs(h: seq<real>): (coeffs: seq<real>)
    requires h != []
    ensures |coeffs| == |h| - 1
  {
    var order := |h| - 1;
    seq(order, i requires 0 <= i < order => -h[order - 1 - i])
  }

  function CharacteristicSum(h: seq<real>, vs: seq<real>, i: nat): real
    requires i <= |h| && i <= |vs|
  {
    if i == 0 then 0.0 else CharacteristicSum(h, vs, i - 1) + h[i - 1] * vs[i - 1]
  }

  lemma {:induction false} CharacteristicReversed(h: seq<real>, vs: seq<real>, i: nat)
    requires h != [] && |vs| == |h| && i < |h|
    ensures CharacteristicSum(h, vs, |h| - 1 - i) - PartialSum(RecurrenceCoeffs(h), vs[..|h| - 1], i) ==
        CharacteristicSum(h, vs, |h| - 1)
  {
    if i > 0 {
      CharacteristicReversed(h, vs, i - 1);
      var order := |h| - 1;
      var coeffs, last := RecurrenceCoeffs(h), vs[..order];
      assert coeffs[i - 1] == -h[order - i] && last[order - i] == vs[order - i];
      assert coeffs[i - 1] * last[order - i] == -(h[order - i] * vs[order - i]);
      assert |coeffs| == order;
      assert PartialSum(coeffs, last, i) == PartialSum(coeffs, last, i - 1) + coeffs[i - 1] * last[|coeffs| - i];
      assert CharacteristicSum(h, vs, order - i + 1) ==
          CharacteristicSum(h, vs, order - i) + h[order - i] * vs[order - i];
    }
  }

  /** A monic characteristic polynomial annihilates the values if and only if they satisfy the
      recurrence with the derived coefficients. */
  lemma CharacteristicIsRecurrence(h: seq<real>, vs: seq<real>)
    requires h != [] && |vs| == |h| && h[|h| - 1] == 1.0
    ensures CharacteristicSum(h, vs, |h|) == 0.0 <==> vs[|h| - 1] == Recur(RecurrenceCoeffs(h), vs[..|h| - 1])
  {
    CharacteristicReversed(h, vs, |h| - 1);
  }

  /** The equation of one word for a fixed characteristic polynomial. */
  method CharacteristicEquation(p: Poly, h: seq<real>, trs: seq<Transition>, word: Word, w: nat)
      returns (equation: Poly)
    requires Branches(trs, w) && IsWord(word, |trs|) && |word| + 1 == |h| && h[|h| - 1] == 1.0
    ensures Vanishes(equation, w) <==>
        forall x: Valuation, n: real | |x| >= w :: HoldsOn(p, RecurrenceCoeffs(h), trs, word, x, n)
  {
    hide Run, Eval, CharacteristicSum, HoldsOn, Iterates, RecurrenceCoeffs;
    var iterates := TemplateIterates(p, trs, word, w);
    equation := Const(0.0);
    var i := 0;
    IteratesCount(p, trs, word, w, iterates);
    SumStart(p, h, trs, word, w);
    while i < |h|
      invariant 0 <= i <= |h|
      invariant SumUpTo(equation, p, h, trs, word, w, i)
    {
      SumStep(equation, p, h, trs, word, w, i, iterates);
      equation := Sum(equation, Product(Const(h[i]), iterates[i]));
      i := i + 1;
    }
    SumEnd(equation, p, h, trs, word, w);
  }

  ghost predicate SumUpTo(equation: Poly, p: Poly, h: seq<real>, trs: seq<Transition>, word: Word, w: nat, i: nat)
    requires IsWord(word, |trs|) && |word| + 1 == |h| && i <= |h|
  {
    forall x: Valuation, n: real | |x| >= w ::
        Eval(equation, x, n) == CharacteristicSum(h, Values(p, trs, word, x, n, |h|), i)
  }

  lemma SumStart(p: Poly, h: seq<real>, trs: seq<Transition>, word: Word, w: nat)
    requires IsWord(word, |trs|) && |word| + 1 == |h|
    ensures SumUpTo(Const(0.0), p, h, trs, word, w, 0)
  {
  }

  lemma SumStep(equation: Poly, p: Poly, h: seq<real>, trs: seq<Transition>, word: Word, w: nat, i: nat,
      iterates: seq<Poly>)
    requires IsWord(word, |trs|) && |word| + 1 == |h| && i < |h| && SumUpTo(equation, p, h, trs, word, w, i)
    requires Iterates(p, trs, word, w, iterates) && |iterates| == |h|
    ensures SumUpTo(Sum(equation, Product(Const(h[i]), iterates[i])), p, h, trs, word, w, i + 1)
  {
    hide Eval, Run, Iterates;
    var next := Sum(equation, Product(Const(h[i]), iterates[i]));
    forall x: Valuation, n: real | |x| >= w
        ensures Eval(next, x, n) == CharacteristicSum(h, Values(p, trs, word, x, n, |h|), i + 1) {
      ScaledTerm(equation, h[i], iterates[i], x, n);
      IterateIs(p, trs, word, w, iterates, x, n, i);
      assert Values(p, trs, word, x, n, |h|)[i] == Eval(iterates[i], x, n);
      assert Eval(equation, x, n) == CharacteristicSum(h, Values(p, trs, word, x, n, |h|), i);
    }
  }

  lemma SumEnd(equation: Poly, p: Poly, h: seq<real>, trs: seq<Transition>, word: Word, w: nat)
    requires IsWord(word, |trs|) && |word| + 1 == |h| && h[|h| - 1] == 1.0 && SumUpTo(equation, p, h, trs, word, w, |h|)
    ensures Vanishes(equation, w) <==>
        forall x: Valuation, n: real | |x| >= w :: HoldsOn(p, RecurrenceCoeffs(h), trs, word, x, n)
  {
    hide Eval, Run, CharacteristicSum, Recur, RecurrenceCoeffs;
    assert word[..|word|] == word;
    forall x: Valuation, n: real | |x| >= w
      ensures Eval(equation, x, n) == 0.0 <==> HoldsOn(p, RecurrenceCoeffs(h), trs, word, x, n)
    {
      var vs := Values(p, trs, word, x, n, |h|);
      CharacteristicIsRecurrence(h, vs);
      assert vs[..|h| - 1] == Values(p, trs, word, x, n, |word|);
      assert Eval(equation, x, n) == CharacteristicSum(h, vs, |h|);
    }
  }

  /** _fixed_characteristic_word_equations, for a monic polynomial. */
  method FixedCharacteristicEquations(p: Poly, h: seq<real>, trs: seq<Transition>, w: nat)
      returns (equations: seq<Poly>)
    requires Branches(trs, w) && h != [] && h[|h| - 1] == 1.0
    ensures AllVanish(equations, w) <==> OnWords(p, RecurrenceCoeffs(h), trs, w)
  {
    hide HoldsOn, Vanishes;
    ghost var coeffs := RecurrenceCoeffs(h);
    var words := Words(|trs|, |h| - 1);
    equations := [];
    var i := 0;
    while i < |words|
      invariant 0 <= i <= |words| && |equations| == i
      invariant forall k | 0 <= k < i :: WordHolds(p, coeffs, trs, words[k], w) <==> Vanishes(equations[k], w)
    {
      assert words[i] in words;
      WordsAreAll(|trs|, |h| - 1, words[i]);
      var equation := CharacteristicEquation(p, h, trs, words[i], w);
      equations := equations + [equation];
      i := i + 1;
    }
    AllWordsHold(p, coeffs, trs, w, words, equations);
  }

  /* ---- from words to runs ---- */

  lemma PrefixConcat(branches: nat -> nat, k: nat, j: nat)
    ensures Prefix(branches, 0, k) + Prefix(branches, k, j) == Prefix(branches, 0, k + j)
  {
  }

  /** The values of a run in a window. */
  function Window(p: Poly, trs: seq<Transition>, branches: nat -> nat, x: Valuation, k: nat, r: nat): (vs: seq<real>)
    requires forall i: nat :: branches(i) < |trs|
    ensures |vs| == r
  {
    seq(r, j requires 0 <= j < r => Along(p, trs, branches, x, k + j))
  }

  lemma AlongFrom(p: Poly, trs: seq<Transition>, branches: nat -> nat, x: Valuation, k: nat, j: nat, word: Word)
    requires (forall i: nat :: branches(i) < |trs|) && word == Prefix(branches, k, j)
    ensures var s := Run(trs, Prefix(branches, 0, k), x, 0.0);
      Eval(p, Run(trs, word, s, k as real), k as real + j as real) == Along(p, trs, branches, x, k + j)
  {
    PrefixConcat(branches, k, j);
    RunConcat(trs, Prefix(branches, 0, k), word, x, 0.0);
    assert 0.0 + k as real == k as real && (k + j) as real == k as real + j as real;
  }

  /** The recurrence lifts: if it holds along every word of its order, it holds at every position of
      every infinite branch sequence. */
  lemma RecurrenceLifts(p: Poly, coeffs: seq<real>, trs: seq<Transition>, w: nat, branches: nat -> nat, x: Valuation,
      k: nat)
    requires OnWords(p, coeffs, trs, w) && |x| >= w && forall i: nat :: branches(i) < |trs|
    ensures Along(p, trs, branches, x, k + |coeffs|) == Recur(coeffs, Window(p, trs, branches, x, k, |coeffs|))
  {
    hide Eval, Run, Recur, Along;
    var r := |coeffs|;
    var word := Prefix(branches, k, r);
    var s := Run(trs, Prefix(branches, 0, k), x, 0.0);
    assert HoldsOn(p, coeffs, trs, word, s, k as real);
    AlongFrom(p, trs, branches, x, k, r, word);
    forall j | 0 <= j < r ensures Values(p, trs, word, s, k as real, r)[j] == Window(p, trs, branches, x, k, r)[j] {
      assert word[..j] == Prefix(branches, k, j);
      AlongFrom(p, trs, branches, x, k, j, word[..j]);
    }
    assert Values(p, trs, word, s, k as real, r) == Window(p, trs, branches, x, k, r);
  }

  /** The sequence with given first values that satisfies the recurrence. */
  function Linear(coeffs: seq<real>, first: seq<real>, n: nat): real
    requires |first| == |coeffs|
    decreases n
  {
    var r := |coeffs|;
    if n < r then first[n] else Recur(coeffs, seq(r, j requires 0 <= j < r => Linear(coeffs, first, n - r + j)))
  }

  /** With the same first values, the expression has the same value at every step of every branch
      sequence. */
  lemma {:induction false} SameOnEveryRun(p: Poly, coeffs: seq<real>, trs: seq<Transition>, w: nat,
      branches: nat -> nat, x: Valuation,
                                          first: seq<real>, n: nat)
    requires OnWords(p, coeffs, trs, w) && |x| >= w && (forall i: nat :: branches(i) < |trs|) && |first| == |coeffs|
    requires forall k: nat | k < |coeffs| :: Along(p, trs, branches, x, k) == first[k]
    ensures Along(p, trs, branches, x, n) == Linear(coeffs, first, n)
    decreases n
  {
    hide Recur, Along, OnWords;
    var r := |coeffs|;
    if n >= r {
      RecurrenceLifts(p, coeffs, trs, w, branches, x, n - r);
      var window := seq(r, j requires 0 <= j < r => Linear(coeffs, first, n - r + j));
      forall j | 0 <= j < r ensures Window(p, trs, branches, x, n - r, r)[j] == window[j] {
        SameOnEveryRun(p, coeffs, trs, w, branches, x, first, n - r + j);
      }
      assert Window(p, trs, branches, x, n - r, r) == window;
    }
  }

  function Power(c: real, n: nat): real {
    if n == 0 then 1.0 else Power(c, n - 1) * c
  }

  /** Order one: the sequence is geometric. */
  lemma {:induction false} GeometricIsLinear(c: real, v: real, n: nat)
    ensures Linear([c], [v], n) == Power(c, n) * v
    decreases n
  {
    if n > 0 {
      GeometricIsLinear(c, v, n - 1);
      var window := seq(1, j requires 0 <= j < 1 => Linear([c], [v], n - 1 + j));
      assert window[0] == Linear([c], [v], n - 1);
      assert Recur([c], window) == PartialSum([c], window, 0) + c * window[0];
      assert Power(c, n - 1) * c * v == c * (Power(c, n - 1) * v);
    }
  }

  /* ---- branch-independent initial values ---- */

  function FixCounter(p: Poly, step: nat): Poly {
    match p
    case Counter => Const(step as real)
    case Sum(l, r) => Sum(FixCounter(l, step), FixCounter(r, step))
    case Product(l, r) => Product(FixCounter(l, step), FixCounter(r, step))
    case _ => p
  }

  lemma {:induction false} FixMeans(p: Poly, step: nat, x: Valuation, n: real)
    ensures Eval(FixCounter(p, step), x, n) == Eval(p, x, step as real)
  {
    match p
    case Sum(l, r) => FixMeans(l, step, x, n); FixMeans(r, step, x, n);
    case Product(l, r) => FixMeans(l, step, x, n); FixMeans(r, step, x, n);
    case _ =>
  }

  /** The symbolic state after a word from step zero. */
  ghost predicate Represents(state: seq<Poly>, trs: seq<Transition>, word: Word, w: nat) {
    |state| == w && IsWord(word, |trs|)
        && forall x: Valuation, m: real | |x| >= w :: Image(state, x, m) == Run(trs, word, x, 0.0)
  }

  /** _advance_state_from_initial */
  function AdvanceFromInitial(state: seq<Poly>, tr: Transition, step: nat): (next: seq<Poly>)
    ensures |next| == |tr|
  {
    seq(|tr|, i requires 0 <= i < |tr| => Substitute(FixCounter(tr[i], step), state))
  }

  /** The symbolic state that is computed along a word. */
  function StateAfter(trs: seq<Transition>, w: nat, word: Word): (state: seq<Poly>)
    requires IsWord(word, |trs|)
    decreases |word|
  {
    if word == [] then Symbols(w)
    else
      var k := |word| - 1;
      AdvanceFromInitial(StateAfter(trs, w, word[..k]), trs[word[k]], k)
  }

  /** The word that always takes the first branch. */
  function FirstWord(k: nat): (word: Word)
    ensures |word| == k
  {
    seq(k, i requires 0 <= i < k => 0)
  }

  lemma AdvancedRepresents(state: seq<Poly>, trs: seq<Transition>, word: Word, w: nat, t: nat)
    requires Represents(state, trs, word, w) && Branches(trs, w) && t < |trs|
    ensures Represents(AdvanceFromInitial(state, trs[t], |word|), trs, word + [t], w)
  {
    hide Eval, Substitute, FixCounter;
    var next, longer := AdvanceFromInitial(state, trs[t], |word|), word + [t];
    assert longer[..|longer| - 1] == word;
    forall x: Valuation, m: real | |x| >= w ensures Image(next, x, m) == Run(trs, longer, x, 0.0) {
      var before := Run(trs, word, x, 0.0);
      assert Image(state, x, m) == before && |trs[t]| == w;
      assert Run(trs, longer, x, 0.0) == Image(trs[t], before, |word| as real) by {
        assert 0.0 + |word| as real == |word| as real && longer[|word|] == t;
      }
      forall i | 0 <= i < |x| ensures Image(next, x, m)[i] == Image(trs[t], before, |word| as real)[i] {
        if i < w {
          SubstituteMeans(FixCounter(trs[t][i], |word|), state, x, m);
          FixMeans(trs[t][i], |word|, before, m);
          assert next[i] == Substitute(FixCounter(trs[t][i], |word|), state);
        }
      }
    }
  }

  /** The expression's value at a state and step, in terms of the initial values. */
  function InitialValue(p: Poly, state: seq<Poly>, inits: seq<Poly>, step: nat): Poly {
    Substitute(Substitute(FixCounter(p, step), state), inits)
  }

  lemma InitialValueMeans(p: Poly, state: seq<Poly>, trs: seq<Transition>, word: Word, w: nat, inits: seq<Poly>,
      x: Valuation, m: real)
    requires Represents(state, trs, word, w) && |inits| == w <= |x|
    ensures Eval(InitialValue(p, state, inits, |word|), x, m) ==
        Eval(p, Run(trs, word, Image(inits, x, m), 0.0), |word| as real)
  {
    hide Eval, Substitute, FixCounter;
    SubstituteMeans(Substitute(FixCounter(p, |word|), state), inits, x, m);
    SubstituteMeans(FixCounter(p, |word|), state, Image(inits, x, m), m);
    FixMeans(p, |word|, Image(state, Image(inits, x, m), m), m);
  }

  /** The value computed after a word, in terms of the initial values. */
  function ValueAfter(p: Poly, trs: seq<Transition>, w: nat, inits: seq<Poly>, word: Word): Poly
    requires IsWord(word, |trs|)
  {
    InitialValue(p, StateAfter(trs, w, word), inits, |word|)
  }

  /** The values computed along the first branch. */
  function ValuesAlongFirst(p: Poly, trs: seq<Transition>, w: nat, inits: seq<Poly>, order: nat): (values: seq<Poly>)
    requires trs == [] ==> order <= 1
    ensures |values| == order
  {
    seq(order, k requires 0 <= k < order => ValueAfter(p, trs, w, inits, FirstWord(k)))
  }

  /** The test for equal values: equality shown by the simplifier holds everywhere. */
  type Equality = (Poly, Poly) -> bool

  ghost predicate SameEverywhere(a: Poly, b: Poly, w: nat) {
    forall x: Valuation, m: real | |x| >= w :: Eval(a, x, m) == Eval(b, x, m)
  }

  ghost predicate Shows(same: Equality, w: nat) { forall a, b | same(a, b) :: SameEverywhere(a, b, w) }

  ghost predicate ShowsAll(same: Equality, w: nat) { forall a, b :: same(a, b) <==> SameEverywhere(a, b, w) }

  /** The test finds the values after all words of the length equal to that along the first branch. */
  ghost predicate ShownAt(p: Poly, trs: seq<Transition>, w: nat, inits: seq<Poly>, length: nat, same: Equality)
    requires trs == [] ==> length == 0
  {
    forall word | |word| == length && IsWord(word, |trs|) ::
      same(ValueAfter(p, trs, w, inits, word), ValueAfter(p, trs, w, inits, FirstWord(length)))
  }

  /** ... at every length below the order. Later values are only there with a branch. */
  ghost predicate Shown(p: Poly, trs: seq<Transition>, w: nat, inits: seq<Poly>, order: nat, same: Equality) {
    (trs == [] ==> order <= 1) && forall k: nat | k < order :: ShownAt(p, trs, w, inits, k, same)
  }

  /** The value after every word of a length, in terms of the initial values, is the given one. */
  ghost predicate ValueOfWords(p: Poly, trs: seq<Transition>, inits: seq<Poly>, w: nat, length: nat, value: Poly) {
    forall word, x: Valuation, m: real | |word| == length && IsWord(word, |trs|) && |x| >= w ::
      Eval(p, Run(trs, word, Image(inits, x, m), 0.0), length as real) == Eval(value, x, m)
  }

  ghost predicate NoCommonValue(p: Poly, trs: seq<Transition>, inits: seq<Poly>, w: nat, length: nat) {
    forall value :: !ValueOfWords(p, trs, inits, w, length, value)
  }

  /** The symbolic states of all words of a length. */
  ghost predicate StatesOf(states: seq<seq<Poly>>, words: seq<Word>, trs: seq<Transition>, w: nat, length: nat) {
    && |states| == |words|
    && (forall i | 0 <= i < |states| :: StateOf(states[i], words[i], trs, w, length))
    && (words != [] ==> words[0] == FirstWord(length))
    && (forall word | |word| == length && IsWord(word, |trs|) :: word in words)
  }

  ghost predicate StateOf(state: seq<Poly>, word: Word, trs: seq<Transition>, w: nat, length: nat) {
    |word| == length && Represents(state, trs, word, w) && state == StateAfter(trs, w, word)
  }

  lemma StateAdvances(state: seq<Poly>, word: Word, trs: seq<Transition>, w: nat, length: nat, t: nat)
    requires StateOf(state, word, trs, w, length) && Branches(trs, w) && t < |trs|
    ensures StateOf(AdvanceFromInitial(state, trs[t], length), word + [t], trs, w, length + 1)
  {
    hide Represents, AdvanceFromInitial;
    AdvancedRepresents(state, trs, word, w, t);
    assert IsWord(word + [t], |trs|) && (word + [t])[..length] == word by { RepresentsWord(state, trs, word, w); }
  }

  lemma RepresentsWord(state: seq<Poly>, trs: seq<Transition>, word: Word, w: nat)
    requires Represents(state, trs, word, w)
    ensures IsWord(word, |trs|)
  {
  }

  /** All states one step on. */
  method AdvanceAll(states: seq<seq<Poly>>, trs: seq<Transition>, step: nat, ghost words: seq<Word>, ghost w: nat)
    returns (next: seq<seq<Poly>>, ghost longer: seq<Word>)
    requires StatesOf(states, words, trs, w, step) && Branches(trs, w)
    ensures StatesOf(next, longer, trs, w, step + 1)
    ensures states != [] && trs != [] ==> next != []
    ensures trs == [] ==> next == []
  {
    hide Represents, StateOf, AdvanceFromInitial;
    next, longer := [], [];
    var i := 0;
    while i < |states|
      invariant 0 <= i <= |states| && |next| == |longer|
      invariant forall k | 0 <= k < |next| :: StateOf(next[k], longer[k], trs, w, step + 1)
      invariant forall k, t: nat | 0 <= k < i && t < |trs| :: words[k] + [t] in longer
      invariant i > 0 && trs != [] ==> next != []
      invariant trs == [] ==> next == []
      invariant longer != [] ==> words != [] && longer[0] == words[0] + [0]
    {
      var t := 0;
      while t < |trs|
        invariant 0 <= t <= |trs| && |next| == |longer|
        invariant forall k | 0 <= k < |next| :: StateOf(next[k], longer[k], trs, w, step + 1)
        invariant forall k, u: nat | 0 <= k < i && u < |trs| :: words[k] + [u] in longer
        invariant forall u: nat | u < t :: words[i] + [u] in longer
        invariant t > 0 || (i > 0 && trs != []) ==> next != []
        invariant trs == [] ==> next == []
        invariant longer == [] ==> i == t == 0 || trs == []
        invariant longer != [] ==> longer[0] == words[0] + [0]
      {
        StateAdvances(states[i], words[i], trs, w, step, t);
        next, longer := next + [AdvanceFromInitial(states[i], trs[t], step)], longer + [words[i] + [t]];
        t := t + 1;
      }
      i := i + 1;
    }
    forall word | |word| == step + 1 && IsWord(word, |trs|) ensures word in longer {
      var front := word[..step];
      assert front in words;
      var k :| 0 <= k < |words| && words[k] == front;
      assert word == words[k] + [word[step]];
    }
  }

  /** One step of the check: are the values of all states shown equal to the first? */
  method CommonValue(p: Poly, states: seq<seq<Poly>>, trs: seq<Transition>, inits: seq<Poly>, step: nat, same: Equality,
                     ghost words: seq<Word>, ghost w: nat)
    returns (r: Option<Poly>)
    requires StatesOf(states, words, trs, w, step) && states != [] && |inits| == w && Shows(same, w)
    ensures r.Some? ==> ValueOfWords(p, trs, inits, w, step, r.value)
    ensures r.None? && ShowsAll(same, w) ==> NoCommonValue(p, trs, inits, w, step)
    ensures (trs == [] ==> step == 0) && (r.Some? <==> ShownAt(p, trs, w, inits, step, same))
    ensures r.Some? ==> r.value == ValueAfter(p, trs, w, inits, FirstWord(step))
  {
    hide Represents, Run, Eval, InitialValue, StateAfter;
    FirstState(states, words, trs, w, step);
    var first := InitialValue(p, states[0], inits, step);
    var i := 0;
    while i < |states|
      invariant 0 <= i <= |states|
      invariant forall k | 0 <= k < i :: SameEverywhere(InitialValue(p, states[k], inits, step), first, w)
      invariant forall k | 0 <= k < i :: same(InitialValue(p, states[k], inits, step), first)
    {
      if !same(InitialValue(p, states[i], inits, step), first) {
        assert StateOf(states[i], words[i], trs, w, step);
        RepresentsWord(states[i], trs, words[i], w);
        assert !same(ValueAfter(p, trs, w, inits, words[i]), first);
        if ShowsAll(same, w) { Disagree(p, states, trs, inits, step, words, w, i); }
        return None;
      }
      i := i + 1;
    }
    r := Some(first);
    forall word | |word| == step && IsWord(word, |trs|) ensures same(ValueAfter(p, trs, w, inits, word), first) {
      assert word in words;
      var k :| 0 <= k < |words| && words[k] == word;
      assert StateOf(states[k], words[k], trs, w, step);
    }
    forall word, x: Valuation, m: real | |word| == step && IsWord(word, |trs|) && |x| >= w
      ensures Eval(p, Run(trs, word, Image(inits, x, m), 0.0), step as real) == Eval(first, x, m)
    {
      assert word in words;
      var k :| 0 <= k < |words| && words[k] == word;
      InitialValueMeans(p, states[k], trs, word, w, inits, x, m);
      assert SameEverywhere(InitialValue(p, states[k], inits, step), first, w);
    }
  }

  lemma FirstState(states: seq<seq<Poly>>, words: seq<Word>, trs: seq<Transition>, w: nat, step: nat)
    requires StatesOf(states, words, trs, w, step) && states != []
    ensures (trs == [] ==> step == 0) && IsWord(FirstWord(step), |trs|)
    ensures states[0] == StateAfter(trs, w, FirstWord(step))
  {
    hide Represents, StateAfter;
    assert StateOf(states[0], words[0], trs, w, step);
    RepresentsWord(states[0], trs, words[0], w);
    if step > 0 { assert FirstWord(step)[0] == 0; }
  }

  lemma Disagree(p: Poly, states: seq<seq<Poly>>, trs: seq<Transition>, inits: seq<Poly>, step: nat, words: seq<Word>,
      w: nat, i: nat)
    requires StatesOf(states, words, trs, w, step) && i < |states| && |inits| == w
    requires !SameEverywhere(InitialValue(p, states[i], inits, step), InitialValue(p, states[0], inits, step), w)
    ensures NoCommonValue(p, trs, inits, w, step)
  {
    hide Run, Eval, InitialValue;
    var x: Valuation, m: real :| |x| >= w
        && Eval(InitialValue(p, states[i], inits, step), x, m) != Eval(InitialValue(p, states[0], inits, step), x, m);
    InitialValueMeans(p, states[i], trs, words[i], w, inits, x, m);
    InitialValueMeans(p, states[0], trs, words[0], w, inits, x, m);
  }

  /** There are no initial values: a later one is asked for without any branch, or the values after some
      shorter words differ. */
  ghost predicate NoInitialValues(p: Poly, trs: seq<Transition>, inits: seq<Poly>, order: nat, w: nat)
    requires |inits| == w
  {
    (trs == [] && order >= 2) || exists k: nat :: k < order && NoCommonValue(p, trs, inits, w, k)
  }

  lemma NotBoth(p: Poly, trs: seq<Transition>, inits: seq<Poly>, w: nat, length: nat, value: Poly)
    requires |inits| == w && ValueOfWords(p, trs, inits, w, length, value)
    ensures !NoCommonValue(p, trs, inits, w, length)
  {
    hide Run, Eval;
  }

  /** _branch_independent_initial_values: the values at the first steps, if they do not depend on the
      branches taken: those computed along the first branch, if the test finds them equal to all others.
      Without any branch there is no state to read later values from, which the source fails on. */
  method BranchIndependentInitialValues(p: Poly, trs: seq<Transition>, inits: seq<Poly>, order: nat, same: Equality,
      w: nat)
    returns (r: Option<seq<Poly>>)
    requires Branches(trs, w) && |inits| == w && Shows(same, w)
    ensures r.Some? <==> Shown(p, trs, w, inits, order, same)
    ensures r.Some? ==> r.value == ValuesAlongFirst(p, trs, w, inits, order)
    ensures r.Some? ==> |r.value| == order && forall k | 0 <= k < order :: ValueOfWords(p, trs, inits, w, k, r.value[k])
    ensures r.Some? ==> !NoInitialValues(p, trs, inits, order, w)
    ensures r.None? && ShowsAll(same, w) ==> NoInitialValues(p, trs, inits, order, w)
  {
    hide Represents, Run, Eval, ValueOfWords, Shows, ShowsAll, StatesOf, NoCommonValue, ShownAt, ValueAfter;
    var states := [Symbols(w)];
    ghost var words: seq<Word> := [[]];
    StartStates(trs, w);
    var values: seq<Poly> := [];
    var step := 0;
    while step < order
      invariant 0 <= step <= order && |values| == step
      invariant step < order ==> StatesOf(states, words, trs, w, step)
      invariant trs != [] || step == 0 ==> states != []
      invariant trs == [] && 0 < step < order ==> states == []
      invariant step >= 2 ==> trs != []
      invariant forall k | 0 <= k < step :: ValueOfWords(p, trs, inits, w, k, values[k])
      invariant forall k: nat | k < step :: (trs == [] ==> k == 0) && ShownAt(p, trs, w, inits, k, same)
      invariant forall k: nat | k < step :: values[k] == ValueAfter(p, trs, w, inits, FirstWord(k))
    {
      if states == [] { return None; }
      var value := CommonValue(p, states, trs, inits, step, same, words, w);
      if value.None? { return None; }
      values := values + [value.value];
      if step + 1 < order {
        states, words := AdvanceAll(states, trs, step, words, w);
      }
      step := step + 1;
    }
    r := Some(values);
    forall k: nat | k < order ensures !NoCommonValue(p, trs, inits, w, k) { NotBoth(p, trs, inits, w, k, values[k]); }
  }

  lemma StartStates(trs: seq<Transition>, w: nat)
    ensures StatesOf([Symbols(w)], [[]], trs, w, 0)
  {
    forall x: Valuation, m: real | |x| >= w ensures Image(Symbols(w), x, m) == Run(trs, [], x, 0.0) {
      SymbolsMean(w, x, m);
    }
    assert Represents(Symbols(w), trs, [], w);
  }

  /* ---- closed forms ---- */

  /** A closed form, as a function of the parameters and the counter. */
  type Closed = (Valuation, nat) -> real

  /** The recurrence solver of the computer algebra system. */
  type RecurrenceSolver = (seq<real>, seq<Poly>) -> Option<Closed>

  function FirstValues(values: seq<Poly>, x: Valuation): (first: seq<real>)
    ensures |first| == |values|
  {
    seq(|values|, k requires 0 <= k < |values| => Eval(values[k], x, 0.0))
  }

  ghost predicate SolvesRecurrences(rsolve: RecurrenceSolver, w: nat) {
    forall coeffs, values, x: Valuation, n: nat | |coeffs| == |values| && rsolve(coeffs, values).Some? && |x| >= w ::
      rsolve(coeffs, values).value(x, n) == Linear(coeffs, FirstValues(values, x), n)
  }

  /** The closed form is the value of the expression at every step of every branch sequence from the
      initial values. */
  ghost predicate ClosedOnRuns(p: Poly, trs: seq<Transition>, inits: seq<Poly>, w: nat, closed: Closed) {
    forall branches: nat -> nat, x: Valuation, n: nat | (forall i: nat :: branches(i) < |trs|) && |x| >= w ::
      Along(p, trs, branches, Image(inits, x, 0.0), n) == closed(x, n)
  }

  /** The powers of the coefficient times the first value. */
  ghost predicate IsGeometric(closed: Closed, c: real, v: Poly) {
    forall x: Valuation, n: nat :: closed(x, n) == Power(c, n) * Eval(v, x, 0.0)
  }

  lemma GeometricSolves(c: real, values: seq<Poly>, closed: Closed)
    requires |values| == 1 && IsGeometric(closed, c, values[0])
    ensures forall x: Valuation, n: nat :: closed(x, n) == Linear([c], FirstValues(values, x), n)
  {
    hide Eval, Linear, Power;
    forall x: Valuation, n: nat ensures closed(x, n) == Linear([c], FirstValues(values, x), n) {
      var v := Eval(values[0], x, 0.0);
      assert FirstValues(values, x) == [v];
      GeometricIsLinear(c, v, n);
    }
  }

  /** solve_cfinite_rec: for an expression that satisfies the recurrence along all words, a closed
      form that holds on every run. There is none exactly if the test does not find the values at the first
      steps equal or, at an order other than one, the recurrence solver gives up on them. */
  method SolveCFinite(coeffs: seq<real>, p: Poly, trs: seq<Transition>, inits: seq<Poly>, w: nat, same: Equality,
      rsolve: RecurrenceSolver)
    returns (closed: Option<Closed>)
    requires Branches(trs, w) && |inits| == w && Shows(same, w) && SolvesRecurrences(rsolve, w)
    requires OnWords(p, coeffs, trs, w)
    ensures closed.Some? ==> ClosedOnRuns(p, trs, inits, w, closed.value)
    ensures closed.Some? <==>
      Shown(p, trs, w, inits, |coeffs|, same)
      && (|coeffs| == 1 || rsolve(coeffs, ValuesAlongFirst(p, trs, w, inits, |coeffs|)).Some?)
    ensures ShowsAll(same, w) ==>
        (Shown(p, trs, w, inits, |coeffs|, same) <==> !NoInitialValues(p, trs, inits, |coeffs|, w))
    ensures |coeffs| == 1 && closed.Some? ==> IsGeometric(closed.value, coeffs[0], ValueAfter(p, trs, w, inits, []))
  {
    hide OnWords, Shows, ShowsAll, Run, Eval, ValueOfWords, ClosedOnRuns, Linear, Power, IsGeometric, FirstValues,
        NoInitialValues, Shown, ValueAfter;
    var values := BranchIndependentInitialValues(p, trs, inits, |coeffs|, same, w);
    if values.None? { return None; }
    if |coeffs| == 1 {
      var c, v := coeffs[0], values.value[0];
      var f: Closed := (x: Valuation, n: nat) => Power(c, n) * Eval(v, x, 0.0);
      closed := Some(f);
      assert coeffs == [c] && FirstWord(0) == [];
      assert IsGeometric(f, c, v) by { FormulaIsGeometric(f, c, v); }
      GeometricSolves(c, values.value, f);
    } else {
      closed := rsolve(coeffs, values.value);
      if closed.None? { return; }
    }
    ClosedHolds(p, coeffs, trs, inits, w, values.value, closed.value);
  }

  lemma FormulaIsGeometric(f: Closed, c: real, v: Poly)
    requires f == ((x: Valuation, n: nat) => Power(c, n) * Eval(v, x, 0.0))
    ensures IsGeometric(f, c, v)
  {
    hide Eval, Power;
  }

  lemma ClosedHolds(p: Poly, coeffs: seq<real>, trs: seq<Transition>, inits: seq<Poly>, w: nat, values: seq<Poly>,
      closed: Closed)
    requires OnWords(p, coeffs, trs, w) && |inits| == w && |values| == |coeffs|
    requires forall k | 0 <= k < |values| :: ValueOfWords(p, trs, inits, w, k, values[k])
    requires forall x: Valuation, n: nat | |x| >= w :: closed(x, n) == Linear(coeffs, FirstValues(values, x), n)
    ensures ClosedOnRuns(p, trs, inits, w, closed)
  {
    hide OnWords, Run, Eval, Linear;
    forall branches: nat -> nat, x: Valuation, n: nat | (forall i: nat :: branches(i) < |trs|) && |x| >= w
      ensures Along(p, trs, branches, Image(inits, x, 0.0), n) == closed(x, n)
    {
      var first := FirstValues(values, x);
      forall k: nat | k < |coeffs| ensures Along(p, trs, branches, Image(inits, x, 0.0), k) == first[k] {
        assert ValueOfWords(p, trs, inits, w, k, values[k]);
      }
      SameOnEveryRun(p, coeffs, trs, w, branches, Image(inits, x, 0.0), first, n);
    }
  }
}
