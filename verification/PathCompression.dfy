/** Candidate generation: the best open expressions Q star^* that explain a path prefix exactly. */
module PathCompression {
  import opened Arith
  import opened PathWords
  import opened PathFactors
  import Bits

  const STAR_WEIGHT: nat := 2

  datatype Candidate = Candidate(closed: seq<Power>, star: Word, exponent: nat, score: nat)

  function MaxNat(a: nat, b: nat): (n: nat)
    ensures n >= a && n >= b && (n == a || n == b)
  {
    if a >= b then a else b
  }

  /* ---- the order on candidates ---- */

  predicate PowerLess(a: Power, b: Power) {
    if a.root != b.root then WordLess(a.root, b.root) else a.exponent < b.exponent
  }

  predicate PowersLess(a: seq<Power>, b: seq<Power>) {
    if b == [] then false
    else if a == [] then true
    else if a[0] != b[0] then PowerLess(a[0], b[0])
    else PowersLess(a[1..], b[1..])
  }

  /** CandidateOrder: score, larger exponent first, star length, star, closed prefix. */
  predicate CandidateLess(a: Candidate, b: Candidate) {
    if a.score != b.score then a.score < b.score
    else if a.exponent != b.exponent then a.exponent > b.exponent
    else if |a.star| != |b.star| then |a.star| < |b.star|
    else if a.star != b.star then WordLess(a.star, b.star)
    else PowersLess(a.closed, b.closed)
  }

  lemma {:induction false} WordOrder(a: Word, b: Word, c: Word)
    ensures !WordLess(a, a)
    ensures a == b || WordLess(a, b) || WordLess(b, a)
    ensures WordLess(a, b) && WordLess(b, c) ==> WordLess(a, c)
    decreases |a| + |b| + |c|
  {
    if a != [] { WordOrder(a[1..], if b == [] then [] else b[1..], if c == [] then [] else c[1..]); }
    if a != [] && b != [] && a[0] == b[0] && a[1..] == b[1..] {
      assert a == [a[0]] + a[1..] == [b[0]] + b[1..] == b;
    }
  }

  lemma PowerOrder(a: Power, b: Power, c: Power)
    ensures !PowerLess(a, a)
    ensures a == b || PowerLess(a, b) || PowerLess(b, a)
    ensures PowerLess(a, b) && PowerLess(b, c) ==> PowerLess(a, c)
  {
    WordOrder(a.root, b.root, c.root);
    WordOrder(b.root, c.root, a.root);
    WordOrder(a.root, b.root, a.root);
  }

  lemma {:induction false} PowersOrder(a: seq<Power>, b: seq<Power>, c: seq<Power>)
    ensures !PowersLess(a, a)
    ensures a == b || PowersLess(a, b) || PowersLess(b, a)
    ensures PowersLess(a, b) && PowersLess(b, c) ==> PowersLess(a, c)
    decreases |a| + |b| + |c|
  {
    if a != [] {
      PowersOrder(a[1..], if b == [] then [] else b[1..], if c == [] then [] else c[1..]);
      if b != [] && c != [] {
        PowerOrder(a[0], b[0], c[0]);
        PowerOrder(a[0], b[0], a[0]);
      }
      if b != [] { PowerOrder(a[0], b[0], a[0]); }
    }
    if a != [] && b != [] && a[0] == b[0] && a[1..] == b[1..] {
      assert a == [a[0]] + a[1..] == [b[0]] + b[1..] == b;
    }
  }

  /** CandidateOrder is a strict total order, as std::sort demands. */
  lemma CandidateOrder(a: Candidate, b: Candidate, c: Candidate)
    ensures !CandidateLess(a, a)
    ensures a == b || CandidateLess(a, b) || CandidateLess(b, a)
    ensures CandidateLess(a, b) && CandidateLess(b, c) ==> CandidateLess(a, c)
  {
    WordOrder(a.star, b.star, c.star);
    WordOrder(a.star, b.star, a.star);
    WordOrder(b.star, c.star, a.star);
    PowersOrder(a.closed, b.closed, c.closed);
  }

  ghost predicate Sorted(cs: seq<Candidate>) {
    forall i, j :: 0 <= i < j < |cs| ==> !CandidateLess(cs[j], cs[i])
  }

  /** Candidates with distinct star lengths: among them CandidateLess never compares stars. */
  ghost predicate DistinctStars(cs: seq<Candidate>) {
    forall i, j :: 0 <= i < j < |cs| ==> |cs[i].star| != |cs[j].star|
  }

  method Insert(c: Candidate, cs: seq<Candidate>) returns (r: seq<Candidate>)
    requires Sorted(cs)
    ensures Sorted(r) && multiset(r) == multiset(cs) + multiset{c} && |r| == |cs| + 1
    ensures forall x :: x in r <==> x == c || x in cs
    ensures DistinctStars(cs) && (forall x :: x in cs ==> |x.star| != |c.star|) ==> DistinctStars(r)
  {
    hide CandidateLess, Sorted, DistinctStars;
    var i := 0;
    while i < |cs| && CandidateLess(cs[i], c)
      invariant 0 <= i <= |cs|
      invariant forall j :: 0 <= j < i ==> CandidateLess(cs[j], c)
    {
      i := i + 1;
    }
    r := cs[..i] + [c] + cs[i..];
    InsertAt(c, cs, i, r);
  }

  lemma InsertAt(c: Candidate, cs: seq<Candidate>, i: nat, r: seq<Candidate>)
    requires Sorted(cs) && i <= |cs| && r == cs[..i] + [c] + cs[i..]
    requires forall j :: 0 <= j < i ==> CandidateLess(cs[j], c)
    requires i < |cs| ==> !CandidateLess(cs[i], c)
    ensures Sorted(r) && multiset(r) == multiset(cs) + multiset{c} && |r| == |cs| + 1
    ensures forall x :: x in r <==> x == c || x in cs
    ensures DistinctStars(cs) && (forall x :: x in cs ==> |x.star| != |c.star|) ==> DistinctStars(r)
  {
    hide CandidateLess;
    assert cs == cs[..i] + cs[i..];
    InsertSorted(c, cs, i, r);
    hide Sorted;
    InsertedMembers(c, cs, i, r);
    InsertedDistinct(c, cs, i, r);
  }

  lemma InsertedMembers(c: Candidate, cs: seq<Candidate>, i: nat, r: seq<Candidate>)
    requires i <= |cs| && r == cs[..i] + [c] + cs[i..] && cs == cs[..i] + cs[i..]
    ensures multiset(r) == multiset(cs) + multiset{c} && |r| == |cs| + 1
    ensures forall x :: x in r <==> x == c || x in cs
  {
  }

  lemma InsertedDistinct(c: Candidate, cs: seq<Candidate>, i: nat, r: seq<Candidate>)
    requires i <= |cs| && r == cs[..i] + [c] + cs[i..]
    ensures DistinctStars(cs) && (forall x :: x in cs ==> |x.star| != |c.star|) ==> DistinctStars(r)
  {
  }

  lemma InsertSorted(c: Candidate, cs: seq<Candidate>, i: nat, r: seq<Candidate>)
    requires Sorted(cs) && i <= |cs| && r == cs[..i] + [c] + cs[i..]
    requires forall j :: 0 <= j < i ==> CandidateLess(cs[j], c)
    requires i < |cs| ==> !CandidateLess(cs[i], c)
    ensures Sorted(r)
  {
    hide CandidateLess;
    forall j, k | 0 <= j < k < |r| ensures !CandidateLess(r[k], r[j]) {
      if k < i {
        assert r[k] == cs[k] && r[j] == cs[j];
      } else if k == i {
        CandidateOrder(cs[j], c, cs[j]);
      } else if j < i {
        assert r[k] == cs[k - 1] && r[j] == cs[j];
      } else if j == i {
        assert r[k] == cs[k - 1];
        CandidateOrder(cs[k - 1], c, cs[i]);
        CandidateOrder(c, cs[i], c);
      } else {
        assert r[k] == cs[k - 1] && r[j] == cs[j - 1];
      }
    }
  }

  method Sort(cs: seq<Candidate>) returns (r: seq<Candidate>)
    ensures Sorted(r) && multiset(r) == multiset(cs) && |r| == |cs|
    ensures forall x :: x in r <==> x in cs
    ensures DistinctStars(cs) ==> DistinctStars(r)
  {
    r := [];
    for i := 0 to |cs|
      invariant Sorted(r) && multiset(r) == multiset(cs[..i]) && |r| == i
      invariant forall x :: x in r <==> x in cs[..i]
      invariant DistinctStars(cs) ==> DistinctStars(r)
    {
      r := Insert(cs[i], r);
      assert cs[..i + 1] == cs[..i] + [cs[i]];
    }
    assert cs[..|cs|] == cs;
  }

  /** std::unique: every run of equal elements becomes one. */
  method Unique(cs: seq<Candidate>) returns (r: seq<Candidate>)
    ensures forall i | 0 < i < |r| :: r[i - 1] != r[i]
    ensures forall x :: x in r <==> x in cs
    ensures (forall i :: 0 < i < |cs| ==> cs[i - 1] != cs[i]) ==> r == cs
  {
    r := [];
    for i := 0 to |cs|
      invariant forall j | 0 < j < |r| :: r[j - 1] != r[j]
      invariant forall x :: x in r <==> x in cs[..i]
      invariant i > 0 ==> r != [] && r[|r| - 1] == cs[i - 1]
      invariant (forall j :: 0 < j < |cs| ==> cs[j - 1] != cs[j]) ==> r == cs[..i]
    {
      assert cs[..i + 1] == cs[..i] + [cs[i]];
      if r == [] || r[|r| - 1] != cs[i] { r := r + [cs[i]]; }
    }
    assert cs[..|cs|] == cs;
  }

  /* ---- what a candidate must be ---- */

  /** The last `length` letters are a primitive word repeated exactly `exponent` times, no more, at
      the end of the prefix. */
  ghost predicate SuffixStar(prefix: Word, maxRoot: nat, length: nat, exponent: nat) {
    && 1 <= length <= maxRoot && exponent >= 1 && length <= |prefix| && exponent * length <= |prefix|
    && var star := prefix[|prefix| - length..];
       var start := |prefix| - exponent * length;
       && Primitive(star) && prefix[start..] == Repeat(star, exponent)
       && !(start >= length && WordEqualAt(prefix, start - length, star))
  }

  function Score(cost: nat, length: nat, exponent: nat): nat {
    cost + STAR_WEIGHT + length + EXPONENT_WEIGHT * ExponentBits(exponent)
  }

  /** A candidate is scored by its closed part, two, the length of its star, and the binary digits of its
      exponent. */
  lemma ScoreIs(cost: nat, length: nat, exponent: nat, digits: nat)
    requires exponent > 0 && digits > 0 && Bits.Pow2(digits - 1) <= exponent < Bits.Pow2(digits)
    ensures Score(cost, length, exponent) == cost + 2 + length + digits
  {
    BlockCostIs([], exponent, digits);
  }

  /** The candidate is exact evidence for the prefix: its closed part is the least-cost factorisation
      of all but the maximal run of the star that the solved table gives, and the two spell the prefix. */
  ghost predicate Explains(prefix: Word, maxRoot: nat, c: Candidate) {
    && SuffixStar(prefix, maxRoot, |c.star|, c.exponent)
    && c.star == prefix[|prefix| - |c.star|..]
    && Expand(c.closed) + Repeat(c.star, c.exponent) == prefix
    && var rest := prefix[..|prefix| - c.exponent * |c.star|];
       && Factors(c.closed, rest, maxRoot)
       && LeastCost(rest, maxRoot, TotalCost(c.closed))
       && c.score == Score(TotalCost(c.closed), |c.star|, c.exponent)
       && forall t | Solved(prefix, maxRoot, t) :: Follows(t, |rest|, c.closed)
  }

  /** Some suffix repeats at least `threshold` times. */
  ghost predicate HasEvidence(prefix: Word, maxRoot: nat, threshold: nat) {
    exists length, exponent: nat :: SuffixStar(prefix, maxRoot, length, exponent) && exponent >= threshold
  }

  /** The threshold in force after the retry. */
  ghost function Threshold(prefix: Word, maxRoot: nat, evidence: nat): nat {
    if HasEvidence(prefix, maxRoot, MaxNat(evidence, 1)) then MaxNat(evidence, 1) else 1
  }

  /** A result no worse than any explanation built on the suffix of the given length. */
  ghost predicate Beats(c: Candidate, score: nat, exponent: nat, length: nat) {
    c.score < score || (c.score == score && (c.exponent > exponent || (c.exponent == exponent && |c.star| <= length)))
  }

  /** Every suffix with enough evidence is among the results, or the beam is full of candidates
      that precede it. */
  ghost predicate BestOf(prefix: Word, maxRoot: nat, beam: nat, threshold: nat, results: seq<Candidate>) {
    forall length, exponent: nat, cost ::
      Rival(prefix, maxRoot, threshold, length, exponent, cost) ==> Settled(beam, results, length, exponent, cost)
  }

  /** A suffix run with enough evidence, and the least cost of what precedes it. */
  ghost predicate Rival(prefix: Word, maxRoot: nat, threshold: nat, length: nat, exponent: nat, cost: nat) {
    SuffixStar(prefix, maxRoot, length, exponent) && exponent >= threshold
    && LeastCost(prefix[..|prefix| - exponent * length], maxRoot, cost)
  }

  ghost predicate Settled(beam: nat, results: seq<Candidate>, length: nat, exponent: nat, cost: nat) {
    (exists k | 0 <= k < |results| :: |results[k].star| == length)
    || (|results| == beam && forall k | 0 <= k < |results| ::
        Beats(results[k], Score(cost, length, exponent), exponent, length))
  }

  /** The maximal run of a word at the end of the prefix. */
  method SuffixRun(prefix: Word, maxRoot: nat, length: nat) returns (exponent: nat, start: nat)
    requires 1 <= length <= MinNat(maxRoot, |prefix|)
    requires Primitive(prefix[|prefix| - length..])
    ensures SuffixStar(prefix, maxRoot, length, exponent) && start == |prefix| - exponent * length
  {
    hide Primitive;
    var root := prefix[|prefix| - length..];
    exponent, start := 0, |prefix|;
    assert WordEqualAt(prefix, |prefix| - length, root);
    while start >= length && WordEqualAt(prefix, start - length, root)
      invariant start <= |prefix| && prefix[start..] == Repeat(root, exponent)
      invariant exponent == 0 ==> start == |prefix|
      decreases start
    {
      assert prefix[start - length..] == root + prefix[start..];
      exponent := exponent + 1;
      start := start - length;
    }
    RunStart(prefix, maxRoot, length, exponent, start);
  }

  lemma RunStart(prefix: Word, maxRoot: nat, length: nat, exponent: nat, start: nat)
    requires 1 <= length <= MinNat(maxRoot, |prefix|) && start <= |prefix| && exponent >= 1
    requires Primitive(prefix[|prefix| - length..])
    requires prefix[start..] == Repeat(prefix[|prefix| - length..], exponent)
    requires !(start >= length && WordEqualAt(prefix, start - length, prefix[|prefix| - length..]))
    ensures SuffixStar(prefix, maxRoot, length, exponent) && start == |prefix| - exponent * length
  {
    hide Primitive, Repeat, WordEqualAt;
    RepeatLength(prefix[|prefix| - length..], exponent);
  }

  /** The run at the end of the prefix has one exponent. */
  lemma SuffixRunUnique(prefix: Word, maxRoot: nat, length: nat, e1: nat, e2: nat)
    requires SuffixStar(prefix, maxRoot, length, e1) && SuffixStar(prefix, maxRoot, length, e2)
    ensures e1 == e2
  {
    hide Primitive, Repeat, WordEqualAt;
    if e1 < e2 { LongerRun(prefix, length, e1, |prefix| - e1 * length, e2, |prefix| - e2 * length); }
    if e2 < e1 { LongerRun(prefix, length, e2, |prefix| - e2 * length, e1, |prefix| - e1 * length); }
  }

  /** Below a longer run there is one more copy under every shorter run. */
  lemma LongerRun(prefix: Word, length: nat, e1: nat, start1: nat, e2: nat, start2: nat)
    requires 1 <= length <= |prefix| && e1 < e2 && start1 <= |prefix| && start2 <= |prefix|
    requires prefix[start1..] == Repeat(prefix[|prefix| - length..], e1)
    requires prefix[start2..] == Repeat(prefix[|prefix| - length..], e2)
    ensures start1 >= length && WordEqualAt(prefix, start1 - length, prefix[|prefix| - length..])
  {
    var star := prefix[|prefix| - length..];
    RepeatAdd(star, e2 - e1, e1);
    RepeatSnoc(star, e2 - e1 - 1);
    var low := Repeat(star, e2 - e1 - 1);
    assert prefix[start2..] == (low + star) + prefix[start1..];
    assert |prefix| - start2 == |low| + length + (|prefix| - start1);
    assert prefix[start2..][|low|..|low| + length] == star;
    assert prefix[start2..][|low|..|low| + length] == prefix[start1 - length..start1];
  }

  /** What the candidate loop has collected from the suffixes shorter than `length`. */
  ghost predicate Collected(prefix: Word, maxRoot: nat, threshold: nat, length: nat, cs: seq<Candidate>) {
    && (forall k | 0 <= k < |cs| ::
        Explains(prefix, maxRoot, cs[k]) && cs[k].exponent >= threshold && |cs[k].star| < length)
    && DistinctStars(cs)
    && (forall l: nat, exponent: nat | l < length && SuffixStar(prefix, maxRoot, l, exponent)
        && exponent >= threshold ::
          exists k | 0 <= k < |cs| :: |cs[k].star| == l)
  }

  /** One suffix and the table entry before its run make a candidate. */
  method Explanation(prefix: Word, maxRoot: nat, t: FactorTable, length: nat, exponent: nat, start: nat)
      returns (c: Candidate)
    requires Solved(prefix, maxRoot, t)
    requires forall e | 0 <= e <= |prefix| :: t.costs[e].Finite?
    requires SuffixStar(prefix, maxRoot, length, exponent) && start == |prefix| - exponent * length
    ensures Explains(prefix, maxRoot, c) && |c.star| == length && c.exponent == exponent
  {
    hide Processed, Justified, Primitive, LeastCost, Follows, Solved, Repeat, WordEqualAt, TotalCost, Score;
    TableWidth(prefix, maxRoot, t);
    var closed := Backtrack(t, start, prefix, maxRoot);
    TableIsMinimum(prefix, maxRoot, t, start);
    forall t' | Solved(prefix, maxRoot, t') ensures t' == t { TableIsUnique(prefix, maxRoot, t, t'); }
    assert prefix == prefix[..start] + prefix[start..];
    c := Candidate(closed, prefix[|prefix| - length..], exponent, Score(t.costs[start].value, length, exponent));
  }

  lemma TableWidth(prefix: Word, maxRoot: nat, t: FactorTable)
    requires Solved(prefix, maxRoot, t)
    ensures |t.costs| == |t.choices| == |prefix| + 1
  {
  }

  method Collect(prefix: Word, maxRoot: nat, threshold: nat, t: FactorTable) returns (cs: seq<Candidate>)
    requires prefix != [] && maxRoot > 0 && Solved(prefix, maxRoot, t)
    requires forall e | 0 <= e <= |prefix| :: t.costs[e].Finite?
    ensures Collected(prefix, maxRoot, threshold, MinNat(maxRoot, |prefix|) + 1, cs)
  {
    hide Explains, Solved, Primitive, WellFormed;
    cs := [];
    var maxLength := MinNat(maxRoot, |prefix|);
    var length := 1;
    assert Collected(prefix, maxRoot, threshold, 1, cs);
    hide SuffixStar, Collected;
    while length <= maxLength
      invariant 1 <= length <= maxLength + 1
      invariant Collected(prefix, maxRoot, threshold, length, cs)
    {
      var root := prefix[|prefix| - length..];
      var primitive := IsPrimitivePathWord(root);
      if primitive {
        var exponent, start := SuffixRun(prefix, maxRoot, length);
        if exponent >= threshold {
          var c := Explanation(prefix, maxRoot, t, length, exponent, start);
          CollectOne(prefix, maxRoot, threshold, length, exponent, cs, c);
          cs := cs + [c];
        } else {
          forall e: nat | SuffixStar(prefix, maxRoot, length, e) ensures e < threshold {
            SuffixRunUnique(prefix, maxRoot, length, exponent, e);
          }
          CollectNone(prefix, maxRoot, threshold, length, cs);
        }
      } else {
        NotPrimitiveNoStar(prefix, maxRoot, length);
        CollectNone(prefix, maxRoot, threshold, length, cs);
      }
      length := length + 1;
    }
  }

  lemma NotPrimitiveNoStar(prefix: Word, maxRoot: nat, length: nat)
    requires length <= |prefix| && !Primitive(prefix[|prefix| - length..])
    ensures forall e: nat :: !SuffixStar(prefix, maxRoot, length, e)
  {
  }

  lemma CollectOne(prefix: Word, maxRoot: nat, threshold: nat, length: nat, exponent: nat,
                   cs: seq<Candidate>, c: Candidate)
    requires Collected(prefix, maxRoot, threshold, length, cs)
    requires Explains(prefix, maxRoot, c) && |c.star| == length && c.exponent == exponent >= threshold
    ensures Collected(prefix, maxRoot, threshold, length + 1, cs + [c])
  {
    hide Explains, SuffixStar;
    var all := cs + [c];
    forall l: nat, e: nat | l < length + 1 && SuffixStar(prefix, maxRoot, l, e) && e >= threshold
      ensures exists k | 0 <= k < |all| :: |all[k].star| == l
    {
      if l == length {
        assert |all[|cs|].star| == l;
      } else {
        var k :| 0 <= k < |cs| && |cs[k].star| == l;
        assert |all[k].star| == l;
      }
    }
  }

  lemma CollectNone(prefix: Word, maxRoot: nat, threshold: nat, length: nat, cs: seq<Candidate>)
    requires Collected(prefix, maxRoot, threshold, length, cs)
    requires forall e: nat | SuffixStar(prefix, maxRoot, length, e) :: e < threshold
    ensures Collected(prefix, maxRoot, threshold, length + 1, cs)
  {
    hide SuffixStar, Explains;
  }

  /** What the compression of a nonempty prefix promises: at least one and at most `beam` results,
      each exact evidence with enough repetitions, in order, and none better left out. */
  ghost predicate Compressed(prefix: Word, maxRoot: nat, beam: nat, evidence: nat, results: seq<Candidate>) {
    var threshold := Threshold(prefix, maxRoot, evidence);
    && results != [] && |results| <= beam && Sorted(results) && DistinctStars(results)
    && (forall k | 0 <= k < |results| :: Explains(prefix, maxRoot, results[k]) && results[k].exponent >= threshold)
    && BestOf(prefix, maxRoot, beam, threshold, results)
  }

  /** The compression of a path prefix. Every result is exact evidence, the results are the best
      candidates in order, and the threshold drops to one at most once, only when nothing met it. */
  method CompressPathPrefix(prefix: Word, maxRoot: nat, beam: nat, evidence: nat) returns (results: seq<Candidate>)
    ensures prefix == [] || maxRoot == 0 || beam == 0 ==> results == []
    ensures prefix != [] && maxRoot > 0 && beam > 0 ==> Compressed(prefix, maxRoot, beam, evidence, results)
    decreases evidence
  {
    if prefix == [] || maxRoot == 0 || beam == 0 { return []; }
    hide *;
    var threshold := MaxNat(evidence, 1);
    var table := ComputeFactorTable(prefix, maxRoot);
    var candidates := Collect(prefix, maxRoot, threshold, table);
    EvidenceFound(prefix, maxRoot, threshold, candidates);
    if candidates == [] && threshold > 1 {
      OneBelow(evidence);
      results := CompressPathPrefix(prefix, maxRoot, beam, 1);
      RetryOnce(prefix, maxRoot, beam, evidence, results);
      return;
    }
    EvidenceExists(prefix, maxRoot);
    OneBelow(evidence);
    var sorted := Sort(candidates);
    CollectedFacts(prefix, maxRoot, threshold, candidates);
    var unique := Unique(sorted);
    StrictlySorted(sorted);
    results := if |unique| > beam then unique[..beam] else unique;
    Trimmed(prefix, maxRoot, beam, evidence, candidates, sorted, results);
  }

  lemma OneBelow(evidence: nat)
    ensures MaxNat(evidence, 1) > 1 ==> MaxNat(evidence, 1) == evidence
    ensures MaxNat(evidence, 1) >= 1
  {
  }

  lemma StrictlySorted(cs: seq<Candidate>)
    requires DistinctStars(cs)
    ensures forall i :: 0 < i < |cs| ==> cs[i - 1] != cs[i]
  {
  }

  /** When nothing meets the threshold, the answer for threshold one is the answer. */
  lemma RetryOnce(prefix: Word, maxRoot: nat, beam: nat, evidence: nat, results: seq<Candidate>)
    requires Compressed(prefix, maxRoot, beam, 1, results)
    requires !HasEvidence(prefix, maxRoot, MaxNat(evidence, 1))
    ensures Compressed(prefix, maxRoot, beam, evidence, results)
  {
    hide Explains, BestOf, HasEvidence, Sorted, DistinctStars;
    assert MaxNat(1, 1) == 1;
  }

  lemma Trimmed(prefix: Word, maxRoot: nat, beam: nat, evidence: nat,
                candidates: seq<Candidate>, sorted: seq<Candidate>, results: seq<Candidate>)
    requires candidates != [] && beam > 0
    requires Collected(prefix, maxRoot, MaxNat(evidence, 1), MinNat(maxRoot, |prefix|) + 1, candidates)
    requires HasEvidence(prefix, maxRoot, MaxNat(evidence, 1))
    requires Sorted(sorted) && DistinctStars(sorted) && |sorted| == |candidates|
    requires forall x :: x in sorted <==> x in candidates
    requires results == if |sorted| > beam then sorted[..beam] else sorted
    ensures Compressed(prefix, maxRoot, beam, evidence, results)
  {
    hide Explains, BestOf, HasEvidence, CandidateLess, Collected;
    CollectedFacts(prefix, maxRoot, MaxNat(evidence, 1), candidates);
    assert forall k | 0 <= k < |results| :: results[k] in candidates;
    BeamIsBest(prefix, maxRoot, beam, MaxNat(evidence, 1), candidates, sorted, results);
  }

  lemma CollectedFacts(prefix: Word, maxRoot: nat, threshold: nat, cs: seq<Candidate>)
    requires Collected(prefix, maxRoot, threshold, MinNat(maxRoot, |prefix|) + 1, cs)
    ensures DistinctStars(cs)
    ensures forall c :: c in cs ==> Explains(prefix, maxRoot, c) && c.exponent >= threshold
  {
    hide Explains, SuffixStar;
  }

  lemma EvidenceFound(prefix: Word, maxRoot: nat, threshold: nat, cs: seq<Candidate>)
    requires Collected(prefix, maxRoot, threshold, MinNat(maxRoot, |prefix|) + 1, cs)
    ensures HasEvidence(prefix, maxRoot, threshold) <==> cs != []
  {
    if cs != [] {
      assert Explains(prefix, maxRoot, cs[0]);
      assert SuffixStar(prefix, maxRoot, |cs[0].star|, cs[0].exponent);
    }
  }

  /** The last letter alone is a star candidate. */
  lemma EvidenceExists(prefix: Word, maxRoot: nat)
    requires prefix != [] && maxRoot > 0
    ensures HasEvidence(prefix, maxRoot, 1)
  {
    hide Primitive, SuffixStar, Repeat;
    var root := prefix[|prefix| - 1..];
    LetterIsPrimitive(root);
    RepeatOnce(root);
    LetterRun(prefix, maxRoot, 1);
  }

  lemma {:induction false} LetterRun(prefix: Word, maxRoot: nat, exponent: nat)
    requires 1 <= exponent <= |prefix| && maxRoot > 0 && Primitive(prefix[|prefix| - 1..])
    requires prefix[|prefix| - exponent..] == Repeat(prefix[|prefix| - 1..], exponent)
    ensures HasEvidence(prefix, maxRoot, 1)
    decreases |prefix| - exponent
  {
    hide Primitive, SuffixStar;
    var n := |prefix|;
    var root := prefix[n - 1..];
    if exponent < n && WordEqualAt(prefix, n - exponent - 1, root) {
      assert prefix[n - exponent - 1..] == root + prefix[n - exponent..];
      LetterRun(prefix, maxRoot, exponent + 1);
    } else {
      RunStart(prefix, maxRoot, 1, exponent, n - exponent);
    }
  }

  lemma LeastCostUnique(word: Word, maxRoot: nat, c1: nat, c2: nat)
    requires LeastCost(word, maxRoot, c1) && LeastCost(word, maxRoot, c2)
    ensures c1 == c2
  {
  }

  lemma BeamIsBest(prefix: Word, maxRoot: nat, beam: nat, threshold: nat,
                   candidates: seq<Candidate>, sorted: seq<Candidate>, results: seq<Candidate>)
    requires Collected(prefix, maxRoot, threshold, MinNat(maxRoot, |prefix|) + 1, candidates)
    requires Sorted(sorted) && forall x :: x in sorted <==> x in candidates
    requires results == if |sorted| > beam then sorted[..beam] else sorted
    ensures BestOf(prefix, maxRoot, beam, threshold, results)
  {
    hide Explains, LeastCost, SuffixStar;
    forall length, exponent: nat, cost | Rival(prefix, maxRoot, threshold, length, exponent, cost)
      ensures Settled(beam, results, length, exponent, cost)
    {
      NotBeyond(prefix, maxRoot, length, exponent);
      var k :| 0 <= k < |candidates| && |candidates[k].star| == length;
      var c := candidates[k];
      ScoreOf(prefix, maxRoot, c, exponent, cost);
      assert c in sorted;
      var m :| 0 <= m < |sorted| && sorted[m] == c;
      if m < |results| {
        assert |results[m].star| == length;
      } else {
        forall i | 0 <= i < |results| ensures Beats(results[i], Score(cost, length, exponent), exponent, length) {
          assert !CandidateLess(sorted[m], sorted[i]);
        }
      }
    }
  }

  lemma NotBeyond(prefix: Word, maxRoot: nat, length: nat, exponent: nat)
    requires SuffixStar(prefix, maxRoot, length, exponent)
    ensures length <= MinNat(maxRoot, |prefix|)
  {
  }

  lemma ScoreOf(prefix: Word, maxRoot: nat, c: Candidate, exponent: nat, cost: nat)
    requires Explains(prefix, maxRoot, c)
    requires Rival(prefix, maxRoot, 0, |c.star|, exponent, cost)
    ensures c.exponent == exponent && c.score == Score(cost, |c.star|, exponent)
  {
    hide Primitive, Factors, Expand, Repeat, TotalCost, LeastCost, WordEqualAt;
    SuffixRunUnique(prefix, maxRoot, |c.star|, exponent, c.exponent);
    LeastCostUnique(prefix[..|prefix| - exponent * |c.star|], maxRoot, cost, TotalCost(c.closed));
  }

  /* ---- the smallest evidence ---- */

  lemma TwoLetters(p: Symbol, maxRoot: nat)
    requires maxRoot > 0
    ensures SuffixStar([p, p], maxRoot, 1, 2)
    ensures forall exponent: nat :: !SuffixStar([p, p], maxRoot, 2, exponent)
  {
    LetterIsPrimitive([p]);
    RepeatOnce([p]);
    assert Repeat([p], 2) == [p] + Repeat([p], 1) == [p, p];
    assert [p, p][1..] == [p] && [p, p][0..] == [p, p];
    PrimitiveByPeriods([p, p]);
  }

  lemma BlocksHaveLetters(powers: seq<Power>, word: Word, maxRoot: nat)
    requires Factors(powers, word, maxRoot) && powers != []
    ensures word != []
  {
    var last := powers[|powers| - 1];
    assert Block(last, maxRoot);
    RepeatLength(last.root, last.exponent);
    MulAtLeast(|last.root|, last.exponent);
    assert |Expand(powers)| >= |Repeat(last.root, last.exponent)|;
  }

  /** A path taken twice is its own candidate: no closed part, the path as star, seen twice, and the
      score is two, the length of the star and the two digits of the exponent. */
  lemma TwiceTheSame(p: Symbol, maxRoot: nat, beam: nat, cs: seq<Candidate>)
    requires maxRoot > 0 && beam > 0 && Compressed([p, p], maxRoot, beam, 2, cs)
    ensures cs == [Candidate([], [p], 2, 5)]
  {
    TwoLetters(p, maxRoot);
    assert HasEvidence([p, p], maxRoot, 2);
    assert |cs| > 1 ==> |cs[0].star| != |cs[1].star|;
    forall k | 0 <= k < |cs| ensures cs[k] == Candidate([], [p], 2, 5) {
      assert Explains([p, p], maxRoot, cs[k]);
      OnlyCandidate(p, maxRoot, cs[k]);
    }
  }

  lemma OnlyCandidate(p: Symbol, maxRoot: nat, c: Candidate)
    requires maxRoot > 0 && Explains([p, p], maxRoot, c)
    ensures c == Candidate([], [p], 2, 5)
  {
    hide SuffixStar, LeastCost;
    TwoLetters(p, maxRoot);
    assert |c.star| == 1 by { StarFits([p, p], maxRoot, c); }
    SuffixRunUnique([p, p], maxRoot, 1, c.exponent, 2);
    assert [p, p][..0] == [];
    if c.closed != [] { BlocksHaveLetters(c.closed, [], maxRoot); }
    assert Bits.Pow2(1) == 2 * Bits.Pow2(0) && Bits.Pow2(2) == 2 * Bits.Pow2(1) == 4;
    ScoreIs(0, 1, 2, 2);
  }

  lemma StarFits(prefix: Word, maxRoot: nat, c: Candidate)
    requires Explains(prefix, maxRoot, c)
    ensures 1 <= |c.star| <= |prefix| && SuffixStar(prefix, maxRoot, |c.star|, c.exponent)
  {
  }
}
