/** Minimum-cost factorisation of a path prefix into primitive powers: the word dynamic program. */
module PathFactors {
  import opened Arith
  import opened PathWords
  import Bits

  const BLOCK_WEIGHT: nat := 2
  const EXPONENT_WEIGHT: nat := 1

  /** std::bit_width: the number of binary digits, none for zero. */
  function ExponentBits(exponent: nat): nat {
    if exponent == 0 then 0 else 1 + ExponentBits(exponent / 2)
  }

  /** It is the number of binary digits: one more than the largest power of two below. */
  lemma {:induction false} ExponentBitsIsWidth(exponent: nat)
    ensures ExponentBits(0) == 0 && (exponent > 0 ==> ExponentBits(exponent) > 0)
    ensures exponent > 0 ==> Bits.Pow2(ExponentBits(exponent) - 1) <= exponent < Bits.Pow2(ExponentBits(exponent))
  {
    if exponent > 1 {
      ExponentBitsIsWidth(exponent / 2);
      var b := ExponentBits(exponent / 2);
      assert Bits.Pow2(b + 1) == 2 * Bits.Pow2(b) && Bits.Pow2(b) == 2 * Bits.Pow2(b - 1);
    } else if exponent == 1 {
      assert ExponentBits(1) == 1 + ExponentBits(0) == 1;
      assert Bits.Pow2(0) == 1 && Bits.Pow2(1) == 2 * Bits.Pow2(0);
    }
  }

  /** A block costs two, the length of its root, and the binary digits of its exponent. */
  lemma BlockCostIs(root: Word, exponent: nat, digits: nat)
    requires exponent > 0 && digits > 0 && Bits.Pow2(digits - 1) <= exponent < Bits.Pow2(digits)
    ensures ExponentBits(exponent) == digits && BlockCost(root, exponent) == 2 + |root| + digits
  {
    ExponentBitsIsWidth(exponent);
    Bits.Pow2Monotone(ExponentBits(exponent), digits - 1);
    Bits.Pow2Monotone(digits, ExponentBits(exponent) - 1);
  }

  function BlockCost(root: Word, exponent: nat): nat {
    BLOCK_WEIGHT + |root| + EXPONENT_WEIGHT * ExponentBits(exponent)
  }

  function TotalCost(powers: seq<Power>): nat {
    if powers == [] then 0
    else
      var last := powers[|powers| - 1];
      TotalCost(powers[..|powers| - 1]) + BlockCost(last.root, last.exponent)
  }

  /** A block the factoriser may use. */
  ghost predicate Block(p: Power, maxRoot: nat) {
    Primitive(p.root) && |p.root| <= maxRoot && p.exponent >= 1
  }

  /** A factorisation of a word: primitive powers with short roots that spell the word. */
  ghost predicate Factors(powers: seq<Power>, word: Word, maxRoot: nat) {
    (forall i | 0 <= i < |powers| :: Block(powers[i], maxRoot)) && Expand(powers) == word
  }

  /** The least total cost over all factorisations of a word. */
  ghost predicate LeastCost(word: Word, maxRoot: nat, cost: nat) {
    (exists powers :: Factors(powers, word, maxRoot) && TotalCost(powers) == cost)
    && forall powers :: Factors(powers, word, maxRoot) ==> cost <= TotalCost(powers)
  }

  datatype Cost = Infinity | Finite(value: nat)

  datatype FactorChoice = Absent | Choice(predecessor: nat, root: Word, exponent: nat)

  datatype FactorTable = FactorTable(costs: seq<Cost>, choices: seq<FactorChoice>)

  /** std::lexicographical_compare on words. */
  predicate WordLess(a: Word, b: Word) {
    if b == [] then false
    else if a == [] then true
    else if a[0] != b[0] then a[0] < b[0]
    else WordLess(a[1..], b[1..])
  }

  /** The order on choice keys: cost, predecessor, root length, root, and the larger exponent
      first. */
  predicate KeyLess(cost: nat, predecessor: nat, root: Word, exponent: nat,
                    cost': nat, predecessor': nat, root': Word, exponent': nat)
  {
    if cost != cost' then cost < cost'
    else if predecessor != predecessor' then predecessor < predecessor'
    else if |root| != |root'| then |root| < |root'|
    else if root != root' then WordLess(root, root')
    else exponent > exponent'
  }

  /** The power root^exponent spells the letters from one position to another. */
  ghost predicate Edge(prefix: Word, maxRoot: nat, from: nat, root: Word, exponent: nat, to: nat) {
    from < to <= |prefix| && Block(Power(root, exponent), maxRoot)
    && prefix[from..to] == Repeat(root, exponent)
  }

  /** Two blocks with the same ends are the same block, so the root and exponent parts of a choice
      key never decide a tie. */
  lemma TieNeverReachesRoot(prefix: Word, maxRoot: nat, from: nat, to: nat,
                            root: Word, exponent: nat, root': Word, exponent': nat)
    requires Edge(prefix, maxRoot, from, root, exponent, to)
    requires Edge(prefix, maxRoot, from, root', exponent', to)
    ensures root == root' && exponent == exponent'
  {
    UniquePrimitiveRoot(root, exponent, root', exponent');
  }

  /** The Bellman inequality for one block. */
  ghost predicate Relaxed(costs: seq<Cost>, from: nat, root: Word, exponent: nat, to: nat)
    requires from < |costs| && to < |costs|
  {
    costs[from].Finite? ==>
      costs[to].Finite? && costs[to].value <= costs[from].value + BlockCost(root, exponent)
  }

  /** Entry `to` is justified by its choice, made from a position already processed, and no block
      from a processed position has a smaller (cost, predecessor) key. */
  ghost predicate Justified(prefix: Word, maxRoot: nat, t: FactorTable, to: nat)
    requires |t.costs| == |t.choices| == |prefix| + 1 && to <= |prefix|
  {
    var c := t.choices[to];
    if c.Absent? then t.costs[to] == if to == 0 then Finite(0) else Infinity
    else
      && Edge(prefix, maxRoot, c.predecessor, c.root, c.exponent, to)
      && t.costs[c.predecessor].Finite? && t.costs[to].Finite?
      && t.costs[to].value == t.costs[c.predecessor].value + BlockCost(c.root, c.exponent)
  }

  /** Among the blocks of least cost into `to`, the choice has the earliest predecessor. */
  ghost predicate Earliest(t: FactorTable, from: nat, root: Word, exponent: nat, to: nat)
    requires from < |t.costs| && to < |t.costs| == |t.choices|
  {
    t.costs[from].Finite? && t.costs[to].Finite? && t.choices[to].Choice?
    && t.costs[to].value == t.costs[from].value + BlockCost(root, exponent)
    ==> t.choices[to].predecessor <= from
  }

  ghost predicate WellFormed(prefix: Word, maxRoot: nat, t: FactorTable) {
    && |t.costs| == |t.choices| == |prefix| + 1
    && t.choices[0].Absent?
    && forall to | 0 <= to <= |prefix| :: Justified(prefix, maxRoot, t, to)
  }

  /** Blocks out of one position have all been relaxed. */
  ghost predicate Processed(prefix: Word, maxRoot: nat, t: FactorTable, from: nat)
    requires |t.costs| == |t.choices| == |prefix| + 1 && from < |prefix|
  {
    forall root, exponent: nat, to :: Edge(prefix, maxRoot, from, root, exponent, to) ==>
      Relaxed(t.costs, from, root, exponent, to) && Earliest(t, from, root, exponent, to)
  }

  /** The finished table: every Bellman inequality holds and every entry is attained. */
  ghost predicate Solved(prefix: Word, maxRoot: nat, t: FactorTable) {
    WellFormed(prefix, maxRoot, t) && forall from | 0 <= from < |prefix| :: Processed(prefix, maxRoot, t, from)
  }

  predicate WordEqualAt(text: Word, position: nat, word: Word) {
    position + |word| <= |text| && text[position..position + |word|] == word
  }

  /** The tables differ at `end` at most, where the new entry is finite and is the old one unless
      it is cheaper. */
  ghost predicate Lowered(t: FactorTable, t': FactorTable, end: nat) {
    && |t.costs| == |t.choices| == |t'.costs| == |t'.choices| && end < |t.costs|
    && (forall to | 0 <= to < |t.costs| && to != end :: t'.costs[to] == t.costs[to] && t'.choices[to] == t.choices[to])
    && t'.costs[end].Finite? && t'.choices[end].Choice?
    && (t.costs[end].Finite? ==>
      t'.costs[end].value < t.costs[end].value
      || (t'.costs[end] == t.costs[end] && t'.choices[end] == t.choices[end]))
  }

  /** Relaxing one block from position i leaves every entry justified and only improves keys. */
  method Improve(prefix: Word, maxRoot: nat, t: FactorTable, i: nat, root: Word, exponent: nat, end: nat)
    returns (t': FactorTable)
    requires WellFormed(prefix, maxRoot, t) && i < end <= |prefix|
    requires Edge(prefix, maxRoot, i, root, exponent, end)
    requires t.costs[i].Finite?
    requires forall to | 0 <= to <= |prefix| && t.choices[to].Choice? :: t.choices[to].predecessor <= i
    ensures WellFormed(prefix, maxRoot, t')
    ensures Lowered(t, t', end) && t'.choices[end].predecessor <= i
    ensures Relaxed(t'.costs, i, root, exponent, end) && Earliest(t', i, root, exponent, end)
  {
    var cost := t.costs[i].value + BlockCost(root, exponent);
    var previous := t.choices[end];
    assert Justified(prefix, maxRoot, t, end);
    var improve := previous.Absent?
      || KeyLess(cost, i, root, exponent, t.costs[end].value, previous.predecessor, previous.root, previous.exponent);
    if previous.Choice? && previous.predecessor == i {
      TieNeverReachesRoot(prefix, maxRoot, i, end, root, exponent, previous.root, previous.exponent);
    }
    if improve {
      t' := FactorTable(t.costs[end := Finite(cost)], t.choices[end := Choice(i, root, exponent)]);
    } else {
      t' := t;
    }
    forall to | 0 <= to <= |prefix| ensures Justified(prefix, maxRoot, t', to) {
      assert Justified(prefix, maxRoot, t, to);
    }
  }

  /** An improvement that lowers an entry or leaves it alone keeps every Bellman inequality out of
      positions it does not touch. */
  lemma KeepProcessed(prefix: Word, maxRoot: nat, t: FactorTable, t': FactorTable, j: nat, end: nat)
    requires Lowered(t, t', end) && |t.costs| == |prefix| + 1
    requires j < |prefix| && j != end && Processed(prefix, maxRoot, t, j)
    ensures Processed(prefix, maxRoot, t', j)
  {
    forall root, exponent: nat, to | Edge(prefix, maxRoot, j, root, exponent, to)
      ensures Relaxed(t'.costs, j, root, exponent, to) && Earliest(t', j, root, exponent, to)
    {
      assert Relaxed(t.costs, j, root, exponent, to) && Earliest(t, j, root, exponent, to);
    }
  }

  /** Every block out of position i whose root has the given length and at most the given exponent
      has been relaxed. */
  ghost predicate RootProcessed(prefix: Word, maxRoot: nat, t: FactorTable, i: nat, length: nat, bound: nat)
    requires |t.costs| == |t.choices| == |prefix| + 1 && i < |prefix|
  {
    forall root, exponent: nat, to ::
      Edge(prefix, maxRoot, i, root, exponent, to) && |root| == length && exponent <= bound ==>
        Relaxed(t.costs, i, root, exponent, to) && Earliest(t, i, root, exponent, to)
  }

  /** Every block out of position i whose root is shorter than the given length has been relaxed. */
  ghost predicate RootsBelow(prefix: Word, maxRoot: nat, t: FactorTable, i: nat, length: nat)
    requires |t.costs| == |t.choices| == |prefix| + 1 && i < |prefix|
  {
    forall root, exponent: nat, to :: Edge(prefix, maxRoot, i, root, exponent, to) && |root| < length ==>
        Relaxed(t.costs, i, root, exponent, to) && Earliest(t, i, root, exponent, to)
  }

  /** What the table satisfies while position i is being processed. */
  ghost predicate Midway(prefix: Word, maxRoot: nat, t: FactorTable, i: nat) {
    && i < |prefix| && WellFormed(prefix, maxRoot, t) && t.costs[i].Finite?
    && (forall to | 0 <= to <= |prefix| && t.choices[to].Choice? :: t.choices[to].predecessor <= i)
    && (forall j | 0 <= j < i :: Processed(prefix, maxRoot, t, j))
  }

  /** An Edge whose root has a given length spells that many copies of the letters at its start. */
  lemma EdgeRoot(prefix: Word, maxRoot: nat, i: nat, root: Word, exponent: nat, to: nat)
    requires Edge(prefix, maxRoot, i, root, exponent, to)
    ensures to == i + exponent * |root| && i + |root| <= to
    ensures root == prefix[i..i + |root|]
  {
    RepeatLength(root, exponent);
    MulAtLeast(|root|, exponent);
    assert Repeat(root, exponent)[..|root|] == root;
    assert prefix[i..to][..|root|] == prefix[i..i + |root|];
  }

  /** Improving the next power of the current root keeps what the smaller roots and powers had. */
  lemma KeepRoots(prefix: Word, maxRoot: nat, t: FactorTable, t': FactorTable, i: nat,
                  root: Word, exponent: nat, end: nat)
    requires Lowered(t, t', end) && |t.costs| == |prefix| + 1
    requires exponent >= 1 && Edge(prefix, maxRoot, i, root, exponent, end)
    requires Relaxed(t'.costs, i, root, exponent, end) && Earliest(t', i, root, exponent, end)
    requires RootProcessed(prefix, maxRoot, t, i, |root|, exponent - 1)
    ensures RootProcessed(prefix, maxRoot, t', i, |root|, exponent)
    ensures forall length :: RootsBelow(prefix, maxRoot, t, i, length) ==> RootsBelow(prefix, maxRoot, t', i, length)
  {
    forall r, k: nat, to | Edge(prefix, maxRoot, i, r, k, to) && |r| == |root| && k <= exponent
      ensures Relaxed(t'.costs, i, r, k, to) && Earliest(t', i, r, k, to)
    {
      EdgeRoot(prefix, maxRoot, i, r, k, to);
      EdgeRoot(prefix, maxRoot, i, root, exponent, end);
      if k < exponent {
        assert Relaxed(t.costs, i, r, k, to) && Earliest(t, i, r, k, to);
      }
    }
    forall length | RootsBelow(prefix, maxRoot, t, i, length) ensures RootsBelow(prefix, maxRoot, t', i, length) {
      forall r, k: nat, to | Edge(prefix, maxRoot, i, r, k, to) && |r| < length
        ensures Relaxed(t'.costs, i, r, k, to) && Earliest(t', i, r, k, to)
      {
        assert Relaxed(t.costs, i, r, k, to) && Earliest(t, i, r, k, to);
      }
    }
  }

  /** When the next copy of the root does not match, no larger power starts at i. */
  lemma LastPower(prefix: Word, maxRoot: nat, t: FactorTable, i: nat, root: Word, exponent: nat, end: nat)
    requires |t.costs| == |t.choices| == |prefix| + 1 && i < |prefix|
    requires i + |root| <= |prefix| && root == prefix[i..i + |root|]
    requires end == i + exponent * |root| <= |prefix| && !WordEqualAt(prefix, end, root)
    requires RootProcessed(prefix, maxRoot, t, i, |root|, exponent)
    requires RootsBelow(prefix, maxRoot, t, i, |root|)
    ensures RootsBelow(prefix, maxRoot, t, i, |root| + 1)
  {
    forall r, k: nat, to | Edge(prefix, maxRoot, i, r, k, to) && |r| == |root|
      ensures Relaxed(t.costs, i, r, k, to) && Earliest(t, i, r, k, to)
    {
      EdgeRoot(prefix, maxRoot, i, r, k, to);
      if k > exponent {
        NextCopy(prefix, i, to, root, exponent, k, exponent * |root|);
        assert false;
      }
    }
  }

  lemma NextCopy(prefix: Word, i: nat, to: nat, root: Word, exponent: nat, k: nat, low: nat)
    requires exponent < k && i <= to <= |prefix| && prefix[i..to] == Repeat(root, k)
    requires low == exponent * |root|
    ensures WordEqualAt(prefix, i + low, root)
  {
    RepeatCopy(root, k, exponent, low);
    hide Repeat;
    assert |prefix[i..to]| == to - i;
    SliceOfSlice(prefix, i, to, low, low + |root|);
  }

  lemma SliceOfSlice(w: Word, i: nat, to: nat, a: nat, b: nat)
    requires i <= to <= |w| && a <= b <= to - i
    ensures w[i..to][a..b] == w[i + a..i + b]
  {
    forall k | 0 <= k < b - a ensures w[i..to][a..b][k] == w[i + a..i + b][k] { }
  }

  /** The inner loop of the dynamic program: all powers of one root at position i. */
  method RelaxRoot(prefix: Word, maxRoot: nat, t: FactorTable, i: nat, length: nat) returns (t': FactorTable)
    requires Midway(prefix, maxRoot, t, i)
    requires 1 <= length <= maxRoot && i + length <= |prefix|
    requires Primitive(prefix[i..i + length])
    requires RootsBelow(prefix, maxRoot, t, i, length)
    ensures Midway(prefix, maxRoot, t', i)
    ensures t'.costs[i] == t.costs[i]
    ensures RootsBelow(prefix, maxRoot, t', i, length + 1)
    ensures forall to | 0 <= to <= |prefix| && t.costs[to].Finite? :: t'.costs[to].Finite?
    ensures t'.costs[i + length].Finite?
  {
    hide Primitive, Relaxed, Earliest, RootsBelow, Justified, Processed, Repeat;
    var root := prefix[i..i + length];
    var exponent, end := 0, i;
    t' := t;
    NonePowers(prefix, maxRoot, t, i, root);
    hide RootProcessed;
    while WordEqualAt(prefix, end, root)
      invariant Midway(prefix, maxRoot, t', i) && t'.costs[i] == t.costs[i]
      invariant i <= end <= |prefix| && end == i + exponent * length
      invariant prefix[i..end] == Repeat(root, exponent)
      invariant RootsBelow(prefix, maxRoot, t', i, length)
      invariant RootProcessed(prefix, maxRoot, t', i, length, exponent)
      invariant forall to | 0 <= to <= |prefix| && t.costs[to].Finite? :: t'.costs[to].Finite?
      invariant exponent >= 1 ==> t'.costs[i + length].Finite?
      invariant exponent == 0 ==> WordEqualAt(prefix, end, root)
      decreases |prefix| - end
    {
      NextEdge(prefix, maxRoot, i, root, exponent, end);
      exponent := exponent + 1;
      end := end + length;
      ghost var before := t';
      t' := Improve(prefix, maxRoot, t', i, root, exponent, end);
      AfterImprove(prefix, maxRoot, before, t', i, root, exponent, end);
    }
    LastPower(prefix, maxRoot, t', i, root, exponent, end);
  }

  lemma NonePowers(prefix: Word, maxRoot: nat, t: FactorTable, i: nat, root: Word)
    requires |t.costs| == |t.choices| == |prefix| + 1 && i + |root| <= |prefix| && root == prefix[i..i + |root|]
    requires i < |prefix|
    ensures RootProcessed(prefix, maxRoot, t, i, |root|, 0) && prefix[i..i] == Repeat(root, 0)
    ensures WordEqualAt(prefix, i, root)
  {
  }

  lemma NextEdge(prefix: Word, maxRoot: nat, i: nat, root: Word, exponent: nat, end: nat)
    requires i <= end == i + exponent * |root| && WordEqualAt(prefix, end, root)
    requires Primitive(root) && |root| <= maxRoot
    requires prefix[i..end] == Repeat(root, exponent)
    ensures Edge(prefix, maxRoot, i, root, exponent + 1, end + |root|)
    ensures end + |root| == i + (exponent + 1) * |root|
  {
    RepeatSnoc(root, exponent);
    assert prefix[i..end + |root|] == prefix[i..end] + prefix[end..end + |root|];
  }

  lemma AfterImprove(prefix: Word, maxRoot: nat, t: FactorTable, t': FactorTable, i: nat,
                     root: Word, exponent: nat, end: nat)
    requires Midway(prefix, maxRoot, t, i) && WellFormed(prefix, maxRoot, t')
    requires exponent >= 1 && Edge(prefix, maxRoot, i, root, exponent, end)
    requires Lowered(t, t', end) && t'.choices[end].predecessor <= i
    requires Relaxed(t'.costs, i, root, exponent, end) && Earliest(t', i, root, exponent, end)
    requires RootsBelow(prefix, maxRoot, t, i, |root|)
    requires RootProcessed(prefix, maxRoot, t, i, |root|, exponent - 1)
    ensures Midway(prefix, maxRoot, t', i)
    ensures RootsBelow(prefix, maxRoot, t', i, |root|)
    ensures RootProcessed(prefix, maxRoot, t', i, |root|, exponent)
  {
    forall j | 0 <= j < i ensures Processed(prefix, maxRoot, t', j) {
      KeepProcessed(prefix, maxRoot, t, t', j, end);
    }
    KeepRoots(prefix, maxRoot, t, t', i, root, exponent, end);
  }

  function MinNat(a: nat, b: nat): (n: nat)
    ensures n <= a && n <= b && (n == a || n == b)
  {
    if a <= b then a else b
  }

  /** The dynamic program. A single letter is primitive, so with a positive root bound every
      position is reached. */
  method ComputeFactorTable(prefix: Word, maxRoot: nat) returns (t: FactorTable)
    ensures Solved(prefix, maxRoot, t)
    ensures maxRoot >= 1 ==> forall e | 0 <= e <= |prefix| :: t.costs[e].Finite?
  {
    t := FactorTable(seq(|prefix| + 1, _ => Infinity)[0 := Finite(0)], seq(|prefix| + 1, _ => Absent));
    for i := 0 to |prefix|
      invariant WellFormed(prefix, maxRoot, t)
      invariant forall to | 0 <= to <= |prefix| && t.choices[to].Choice? :: t.choices[to].predecessor < i
      invariant forall j | 0 <= j < i :: Processed(prefix, maxRoot, t, j)
      invariant maxRoot >= 1 ==> forall e | 0 <= e <= i :: t.costs[e].Finite?
    {
      if t.costs[i].Finite? {
        var maxLength := MinNat(maxRoot, |prefix| - i);
        var length := 1;
        ghost var entry := t;
        while length <= maxLength
          invariant 1 <= length <= maxLength + 1
          invariant Midway(prefix, maxRoot, t, i)
          invariant RootsBelow(prefix, maxRoot, t, i, length)
          invariant forall to | 0 <= to <= |prefix| && entry.costs[to].Finite? :: t.costs[to].Finite?
          invariant length > 1 ==> t.costs[i + 1].Finite?
        {
          var root := prefix[i..i + length];
          var primitive := IsPrimitivePathWord(root);
          if primitive {
            t := RelaxRoot(prefix, maxRoot, t, i, length);
          } else {
            NoPrimitiveRoot(prefix, maxRoot, t, i, length);
            if length == 1 { LetterIsPrimitive(root); }
          }
          length := length + 1;
        }
        AllLengths(prefix, maxRoot, t, i);
      }
    }
  }

  lemma LetterIsPrimitive(w: Word)
    requires |w| == 1
    ensures Primitive(w)
  {
    PrimitiveByPeriods(w);
  }

  lemma NoPrimitiveRoot(prefix: Word, maxRoot: nat, t: FactorTable, i: nat, length: nat)
    requires |t.costs| == |t.choices| == |prefix| + 1 && i < |prefix| && i + length <= |prefix|
    requires !Primitive(prefix[i..i + length])
    requires RootsBelow(prefix, maxRoot, t, i, length)
    ensures RootsBelow(prefix, maxRoot, t, i, length + 1)
  {
    forall r, k: nat, to | Edge(prefix, maxRoot, i, r, k, to) ensures |r| != length {
      EdgeRoot(prefix, maxRoot, i, r, k, to);
    }
  }

  lemma AllLengths(prefix: Word, maxRoot: nat, t: FactorTable, i: nat)
    requires |t.costs| == |t.choices| == |prefix| + 1 && i < |prefix|
    requires RootsBelow(prefix, maxRoot, t, i, MinNat(maxRoot, |prefix| - i) + 1)
    ensures Processed(prefix, maxRoot, t, i)
  {
    forall r, k: nat, to | Edge(prefix, maxRoot, i, r, k, to)
      ensures Relaxed(t.costs, i, r, k, to) && Earliest(t, i, r, k, to)
    {
      EdgeRoot(prefix, maxRoot, i, r, k, to);
    }
  }

  /** No factorisation of prefix[..e] is cheaper than the table entry. */
  lemma {:induction false} BellmanBound(prefix: Word, maxRoot: nat, t: FactorTable, e: nat, powers: seq<Power>)
    requires Solved(prefix, maxRoot, t) && e <= |prefix|
    requires Factors(powers, prefix[..e], maxRoot)
    ensures t.costs[e].Finite? && t.costs[e].value <= TotalCost(powers)
    decreases |powers|
  {
    if powers == [] {
      assert e == 0 && Justified(prefix, maxRoot, t, 0);
    } else {
      var init, last := powers[..|powers| - 1], powers[|powers| - 1];
      assert Block(last, maxRoot);
      RepeatLength(last.root, last.exponent);
      MulAtLeast(|last.root|, last.exponent);
      var j := |Expand(init)|;
      assert prefix[..e] == Expand(init) + Repeat(last.root, last.exponent);
      assert prefix[..e][..j] == prefix[..j] && prefix[..e][j..] == prefix[j..e];
      BellmanBound(prefix, maxRoot, t, j, init);
      assert Edge(prefix, maxRoot, j, last.root, last.exponent, e);
      assert Processed(prefix, maxRoot, t, j);
      assert Relaxed(t.costs, j, last.root, last.exponent, e);
    }
  }

  lemma {:induction false} ExpandCons(p: Power, powers: seq<Power>)
    ensures Expand([p] + powers) == Repeat(p.root, p.exponent) + Expand(powers)
    ensures TotalCost([p] + powers) == BlockCost(p.root, p.exponent) + TotalCost(powers)
    decreases |powers|
  {
    var all := [p] + powers;
    if powers == [] {
      assert all == [p] && all[..0] == [];
    } else {
      var init, last := powers[..|powers| - 1], powers[|powers| - 1];
      assert all[..|all| - 1] == [p] + init && all[|all| - 1] == last;
      ExpandCons(p, init);
      assert (Repeat(p.root, p.exponent) + Expand(init)) + Repeat(last.root, last.exponent)
          == Repeat(p.root, p.exponent) + (Expand(init) + Repeat(last.root, last.exponent));
    }
  }

  function Reversed(powers: seq<Power>): (r: seq<Power>)
    ensures |r| == |powers| && forall i :: 0 <= i < |r| ==> r[i] == powers[|powers| - 1 - i]
  {
    seq(|powers|, i requires 0 <= i < |powers| => powers[|powers| - 1 - i])
  }

  /** The blocks are the table's choices, followed back from a position to the start. */
  ghost predicate Follows(t: FactorTable, end: nat, powers: seq<Power>)
    decreases |powers|
  {
    if powers == [] then end == 0
    else
      var n := |powers| - 1;
      && end < |t.choices| && t.choices[end].Choice?
      && powers[n] == Power(t.choices[end].root, t.choices[end].exponent)
      && Follows(t, t.choices[end].predecessor, powers[..n])
  }

  lemma FollowsFurther(t: FactorTable, start: nat, end: nat, later: seq<Power>)
    requires end < |t.choices| && t.choices[end].Choice?
    requires forall ps | Follows(t, end, ps) :: Follows(t, start, ps + later)
    ensures var c := t.choices[end];
      forall ps | Follows(t, c.predecessor, ps) :: Follows(t, start, ps + ([Power(c.root, c.exponent)] + later))
  {
    var c := t.choices[end];
    var p := Power(c.root, c.exponent);
    forall ps | Follows(t, c.predecessor, ps) ensures Follows(t, start, ps + ([p] + later)) {
      assert (ps + [p])[..|ps|] == ps;
      assert Follows(t, end, ps + [p]);
      assert ps + ([p] + later) == (ps + [p]) + later;
    }
  }

  /** One more block in front: what is behind it spells the prefix from its start, at the cost difference. */
  ghost predicate Behind(prefix: Word, maxRoot: nat, t: FactorTable, start: nat, end: nat, later: seq<Power>) {
    && end <= start <= |prefix| && |t.costs| == |prefix| + 1 && t.costs[end].Finite? && t.costs[start].Finite?
    && t.costs[start].value == t.costs[end].value + TotalCost(later) && Factors(later, prefix[end..start], maxRoot)
  }

  lemma BehindMore(prefix: Word, maxRoot: nat, t: FactorTable, start: nat, end: nat, later: seq<Power>)
    requires Solved(prefix, maxRoot, t) && 0 < end && Behind(prefix, maxRoot, t, start, end, later)
    ensures var c := t.choices[end];
      && c.Choice? && c.exponent > 0 && c.predecessor < end
      && Behind(prefix, maxRoot, t, start, c.predecessor, [Power(c.root, c.exponent)] + later)
  {
    hide Expand, Repeat, Primitive;
    assert Justified(prefix, maxRoot, t, end);
    var c := t.choices[end];
    ExpandCons(Power(c.root, c.exponent), later);
    assert prefix[c.predecessor..start] == prefix[c.predecessor..end] + prefix[end..start];
  }

  /** Following the predecessors from a position back to the start. On a solved table this is a
      factorisation of the prefix up to that position, at the cost the table states. */
  method Backtrack(t: FactorTable, start: nat, ghost prefix: Word, ghost maxRoot: nat) returns (powers: seq<Power>)
    requires start < |t.choices|
    ensures Solved(prefix, maxRoot, t) && t.costs[start].Finite? ==>
      && Factors(powers, prefix[..start], maxRoot) && TotalCost(powers) == t.costs[start].value
      && Follows(t, start, powers)
  {
    var reversed: seq<Power> := [];
    var end: nat := start;
    ghost var solved := Solved(prefix, maxRoot, t) && t.costs[start].Finite?;
    assert Reversed(reversed) == [] && forall ps: seq<Power> :: ps + [] == ps;
    assert solved ==> Behind(prefix, maxRoot, t, start, start, []);
    hide Behind, Follows, Solved, Factors, TotalCost;
    while end != 0
      invariant end <= start
      invariant solved ==> Behind(prefix, maxRoot, t, start, end, Reversed(reversed))
      invariant forall ps | Follows(t, end, ps) :: Follows(t, start, ps + Reversed(reversed))
      decreases end
    {
      var choice := t.choices[end];
      if solved { BehindMore(prefix, maxRoot, t, start, end, Reversed(reversed)); }
      if choice.Absent? || choice.exponent == 0 || choice.predecessor >= end {
        return [];
      }
      var power := Power(choice.root, choice.exponent);
      assert Reversed(reversed + [power]) == [power] + Reversed(reversed);
      FollowsFurther(t, start, end, Reversed(reversed));
      reversed := reversed + [power];
      end := choice.predecessor;
    }
    powers := Reversed(reversed);
    if solved { AllBehind(prefix, maxRoot, t, start, powers); }
    FollowsNothing(t);
    assert [] + powers == powers;
  }

  lemma AllBehind(prefix: Word, maxRoot: nat, t: FactorTable, start: nat, powers: seq<Power>)
    requires Solved(prefix, maxRoot, t) && Behind(prefix, maxRoot, t, start, 0, powers)
    ensures Factors(powers, prefix[..start], maxRoot) && TotalCost(powers) == t.costs[start].value
  {
    assert Justified(prefix, maxRoot, t, 0);
    assert prefix[0..start] == prefix[..start];
  }

  lemma FollowsNothing(t: FactorTable)
    ensures Follows(t, 0, [])
  {
  }

  /** Every table entry is the least cost of a factorisation of its prefix, and is finite exactly
      when there is one. */
  lemma TableIsMinimum(prefix: Word, maxRoot: nat, t: FactorTable, e: nat)
    requires Solved(prefix, maxRoot, t) && e <= |prefix|
    ensures t.costs[e].Finite? ==> LeastCost(prefix[..e], maxRoot, t.costs[e].value)
    ensures t.costs[e].Infinity? ==> forall powers :: !Factors(powers, prefix[..e], maxRoot)
  {
    forall powers | Factors(powers, prefix[..e], maxRoot)
      ensures t.costs[e].Finite? && t.costs[e].value <= TotalCost(powers)
    {
      BellmanBound(prefix, maxRoot, t, e, powers);
    }
    if t.costs[e].Finite? {
      var powers := Attained(prefix, maxRoot, t, e);
      assert Factors(powers, prefix[..e], maxRoot);
    }
  }

  lemma {:induction false} Attained(prefix: Word, maxRoot: nat, t: FactorTable, e: nat) returns (powers: seq<Power>)
    requires Solved(prefix, maxRoot, t) && e <= |prefix| && t.costs[e].Finite?
    ensures Factors(powers, prefix[..e], maxRoot) && TotalCost(powers) == t.costs[e].value
    decreases e
  {
    assert Justified(prefix, maxRoot, t, e);
    var c := t.choices[e];
    if c.Absent? {
      powers := [];
    } else {
      var init := Attained(prefix, maxRoot, t, c.predecessor);
      var p := Power(c.root, c.exponent);
      powers := init + [p];
      ExpandSnoc(init, p);
      assert powers[..|init|] == init;
      assert prefix[..e] == prefix[..c.predecessor] + prefix[c.predecessor..e];
    }
  }

  /** Two solved tables for one prefix are equal: ties are broken to a single answer. */
  lemma {:induction false} TableIsUnique(prefix: Word, maxRoot: nat, t1: FactorTable, t2: FactorTable)
    requires Solved(prefix, maxRoot, t1) && Solved(prefix, maxRoot, t2)
    ensures t1 == t2
  {
    forall e | 0 <= e <= |prefix| ensures t1.costs[e] == t2.costs[e] {
      TableIsMinimum(prefix, maxRoot, t1, e);
      TableIsMinimum(prefix, maxRoot, t2, e);
      if t1.costs[e].Finite? { var _ := Attained(prefix, maxRoot, t1, e); }
      if t2.costs[e].Finite? { var _ := Attained(prefix, maxRoot, t2, e); }
    }
    assert t1.costs == t2.costs;
    forall e | 0 <= e <= |prefix| ensures t1.choices[e] == t2.choices[e] {
      SameChoice(prefix, maxRoot, t1, t2, e);
    }
    assert t1.choices == t2.choices;
  }

  lemma SameChoice(prefix: Word, maxRoot: nat, t1: FactorTable, t2: FactorTable, e: nat)
    requires Solved(prefix, maxRoot, t1) && Solved(prefix, maxRoot, t2)
    requires t1.costs == t2.costs && e <= |prefix|
    ensures t1.choices[e] == t2.choices[e]
  {
    var c1, c2 := t1.choices[e], t2.choices[e];
    assert Justified(prefix, maxRoot, t1, e) && Justified(prefix, maxRoot, t2, e);
    if c1.Choice? && c2.Choice? {
      assert Processed(prefix, maxRoot, t1, c2.predecessor);
      assert Earliest(t1, c2.predecessor, c2.root, c2.exponent, e);
      assert Processed(prefix, maxRoot, t2, c1.predecessor);
      assert Earliest(t2, c1.predecessor, c1.root, c1.exponent, e);
      TieNeverReachesRoot(prefix, maxRoot, c1.predecessor, e, c1.root, c1.exponent, c2.root, c2.exponent);
    } else {
      assert e == 0 || t1.costs[e].Infinity? || (c1.Choice? && c2.Choice?);
    }
  }
}
