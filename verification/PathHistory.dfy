/** The exact path prefix of one loop, and the candidates that explain its concrete end. */
module PathHistory {
  import opened Terms
  import opened PathWords
  import opened PathFactors
  import opened PathCompression

  datatype Decision = Decision(site: nat, choice: nat)

  datatype Segment = Explicit(word: Word) | SymbolicPower(root: Word, exponent: Term)

  /** How often a symbolic power repeats once its exponent is evaluated. */
  ghost function Count(exponent: Term, e: Env): nat {
    if Eval(exponent, e) < 0 then 0 else Eval(exponent, e)
  }

  ghost function SegmentWord(s: Segment, e: Env): Word {
    match s
    case Explicit(word) => word
    case SymbolicPower(root, exponent) => Repeat(root, Count(exponent, e))
  }

  /** The word a segmented prefix stands for in an environment. */
  ghost function PrefixWord(prefix: seq<Segment>, e: Env): Word {
    if prefix == [] then []
    else PrefixWord(prefix[..|prefix| - 1], e) + SegmentWord(prefix[|prefix| - 1], e)
  }

  lemma PrefixWordSnoc(prefix: seq<Segment>, s: Segment, e: Env)
    ensures PrefixWord(prefix + [s], e) == PrefixWord(prefix, e) + SegmentWord(s, e)
  {
    assert (prefix + [s])[..|prefix|] == prefix;
  }

  /** What happened to a loop: one iteration with its symbol, or a certified jump. */
  datatype Event = Iterated(symbol: Symbol) | Jumped(root: Word, exponent: Term)

  ghost function EventWord(ev: Event, e: Env): Word {
    match ev
    case Iterated(symbol) => [symbol]
    case Jumped(root, exponent) => Repeat(root, Count(exponent, e))
  }

  /** The symbols executed since the loop was entered. */
  ghost function Executed(events: seq<Event>, e: Env): Word {
    if events == [] then []
    else Executed(events[..|events| - 1], e) + EventWord(events[|events| - 1], e)
  }

  lemma ExecutedSnoc(events: seq<Event>, ev: Event, e: Env)
    ensures Executed(events + [ev], e) == Executed(events, e) + EventWord(ev, e)
  {
    assert (events + [ev])[..|events|] == events;
  }

  /** The iterations since the last jump. */
  ghost function Recent(events: seq<Event>): Word {
    if events == [] || events[|events| - 1].Jumped? then []
    else Recent(events[..|events| - 1]) + [events[|events| - 1].symbol]
  }

  /** The path alphabet of a session: each loop's decision sequences, numbered apart. */
  class PathAlphabet {
    var alphabets: map<(nat, seq<Decision>), Symbol>
    var nextSymbol: Symbol

    ghost predicate Valid()
      reads this
    {
      && (forall k | k in alphabets :: alphabets[k] < nextSymbol)
      && (forall k, l | k in alphabets && l in alphabets && alphabets[k] == alphabets[l] :: k == l)
    }

    constructor ()
      ensures Valid() && alphabets == map[] && nextSymbol == 1
    {
      alphabets, nextSymbol := map[], 1;
    }

    /** Numbers are never reused and never change, so a symbol identifies one loop and one
        decision sequence. */
    method Intern(loop: nat, decisions: seq<Decision>) returns (symbol: Symbol)
      requires Valid()
      modifies this
      ensures Valid()
      ensures (loop, decisions) in alphabets && alphabets[(loop, decisions)] == symbol
      ensures alphabets == old(alphabets)[(loop, decisions) := symbol]
      ensures (loop, decisions) in old(alphabets) ==> alphabets == old(alphabets) && nextSymbol == old(nextSymbol)
      ensures (loop, decisions) !in old(alphabets) ==> symbol == old(nextSymbol) && nextSymbol == symbol + 1
      ensures forall k | k in old(alphabets) && k != (loop, decisions) :: old(alphabets)[k] != symbol
    {
      if (loop, decisions) in alphabets {
        symbol := alphabets[(loop, decisions)];
        assert alphabets == alphabets[(loop, decisions) := symbol];
        return;
      }
      symbol := nextSymbol;
      nextSymbol := nextSymbol + 1;
      alphabets := alphabets[(loop, decisions) := symbol];
    }
  }

  /** The facts about a visit to a loop header that decide what is recorded. */
  datatype Visit = Visit(
    firstHeaderPhi: bool,        // the instruction is the first PHI of the header
    hasPredecessor: bool,        // the block trace is nonempty
    predecessorInLoop: bool,
    predecessorIsLatch: bool)
  {
    /** The loop is entered from outside. */
    predicate Enters() { firstHeaderPhi && hasPredecessor && !predecessorInLoop }

    /** It is entered again from its latch. */
    predicate ComesBack() { firstHeaderPhi && hasPredecessor && predecessorInLoop && predecessorIsLatch }
  }

  lemma CandidatesExplain(frontier: Word, maxRoot: nat, beam: nat, evidence: nat, cs: seq<Candidate>)
    requires frontier == [] || maxRoot == 0 || beam == 0 ==> cs == []
    requires frontier != [] && maxRoot > 0 && beam > 0 ==> Compressed(frontier, maxRoot, beam, evidence, cs)
    ensures forall k | 0 <= k < |cs| :: Expand(cs[k].closed) + Repeat(cs[k].star, cs[k].exponent) == frontier
  {
    hide SuffixStar, Factors, LeastCost, BestOf, Sorted, DistinctStars, Expand, Repeat;
  }

  /** Appending a symbol to a prefix that denotes a history denotes the extended history. */
  lemma IterationRecorded(before: seq<Segment>, after: seq<Segment>, events: seq<Event>, symbol: Symbol)
    requires forall e :: PrefixWord(before, e) == Executed(events, e)
    requires forall e :: PrefixWord(after, e) == PrefixWord(before, e) + [symbol]
    ensures forall e :: PrefixWord(after, e) == Executed(events + [Iterated(symbol)], e)
    ensures Recent(events + [Iterated(symbol)]) == Recent(events) + [symbol]
  {
    hide PrefixWord, Executed;
    forall e ensures PrefixWord(after, e) == Executed(events + [Iterated(symbol)], e) {
      ExecutedSnoc(events, Iterated(symbol), e);
    }
    assert (events + [Iterated(symbol)])[..|events|] == events;
  }

  class LoopHistory {
    var prefix: seq<Segment>
    var candidates: seq<Candidate>
    var decisionCursor: nat
    var cursorInitialized: bool
    ghost var events: seq<Event>   // since the loop was entered

    /** The prefix denotes the executed word, and its concrete end is exactly the iterations since the
        last jump. */
    ghost predicate ValidPrefix()
      reads this
    {
      && (forall e :: PrefixWord(prefix, e) == Executed(events, e))
      && Frontier(prefix) == Recent(events)
      && (prefix != [] && prefix[|prefix| - 1].Explicit? ==> events != [] && events[|events| - 1].Iterated?)
    }

    /** Besides, every candidate explains that end and nothing else. */
    ghost predicate Valid()
      reads this
    {
      && ValidPrefix()
      && (forall k | 0 <= k < |candidates| ::
            Expand(candidates[k].closed) + Repeat(candidates[k].star, candidates[k].exponent) == Frontier(prefix))
    }

    static function Frontier(prefix: seq<Segment>): Word {
      if prefix == [] || prefix[|prefix| - 1].SymbolicPower? then [] else prefix[|prefix| - 1].word
    }

    constructor ()
      ensures Valid() && events == [] && !cursorInitialized && prefix == [] && candidates == []
    {
      prefix, candidates, decisionCursor, cursorInitialized := [], [], 0, false;
      events := [];
    }

    /** The iterations since the last jump. */
    method ConcreteFrontier() returns (word: Word)
      requires ValidPrefix()
      ensures word == Recent(events)
    {
      if prefix == [] || prefix[|prefix| - 1].SymbolicPower? { return []; }
      word := prefix[|prefix| - 1].word;
    }

    /** One more symbol extends the last explicit segment, or opens one after a jump. */
    method Append(symbol: Symbol)
      modifies this`prefix
      ensures forall e :: PrefixWord(prefix, e) == PrefixWord(old(prefix), e) + [symbol]
      ensures Frontier(prefix) == Frontier(old(prefix)) + [symbol]
      ensures prefix != [] && prefix[|prefix| - 1].Explicit?
    {
      ghost var before := prefix;
      if prefix == [] || prefix[|prefix| - 1].SymbolicPower? {
        prefix := prefix + [Explicit([symbol])];
        forall e ensures PrefixWord(prefix, e) == PrefixWord(before, e) + [symbol] {
          PrefixWordSnoc(before, Explicit([symbol]), e);
        }
      } else {
        var n := |prefix| - 1;
        var last := Explicit(prefix[n].word + [symbol]);
        prefix := prefix[..n] + [last];
        forall e ensures PrefixWord(prefix, e) == PrefixWord(before, e) + [symbol] {
          PrefixWordSnoc(before[..n], last, e);
          assert PrefixWord(before[..n], e) + (before[n].word + [symbol])
              == (PrefixWord(before[..n], e) + before[n].word) + [symbol];
        }
      }
    }

    method AppendSymbolicPower(root: Word, exponent: Term)
      modifies this`prefix
      ensures forall e :: PrefixWord(prefix, e) == PrefixWord(old(prefix), e) + Repeat(root, Count(exponent, e))
      ensures Frontier(prefix) == [] && prefix != [] && prefix[|prefix| - 1].SymbolicPower?
    {
      ghost var before := prefix;
      prefix := prefix + [SymbolicPower(root, exponent)];
      forall e ensures PrefixWord(prefix, e) == PrefixWord(before, e) + Repeat(root, Count(exponent, e)) {
        PrefixWordSnoc(before, SymbolicPower(root, exponent), e);
      }
    }

    /** A certified jump: only now may a symbolic power enter the prefix, and the candidates, which
        explained the frontier before it, are dropped. */
    method RecordJump(root: Word, exponent: Term)
      requires Valid()
      modifies this
      ensures Valid() && events == old(events) + [Jumped(root, exponent)] && candidates == []
      ensures decisionCursor == old(decisionCursor) && cursorInitialized == old(cursorInitialized)
    {
      hide PrefixWord, Executed, Repeat, Expand, Count;
      ghost var before := prefix;
      AppendSymbolicPower(root, exponent);
      candidates := [];
      ghost var previous := events;
      events := events + [Jumped(root, exponent)];
      forall e ensures PrefixWord(prefix, e) == Executed(events, e) {
        ExecutedSnoc(previous, Jumped(root, exponent), e);
      }
    }

    /** One completed iteration: its symbol is appended and the candidates are computed afresh for
        the concrete frontier. */
    method RecordIteration(symbol: Symbol, maxRoot: nat, beam: nat, evidence: nat)
      requires Valid()
      modifies this`prefix, this`candidates, this`events
      ensures Valid() && events == old(events) + [Iterated(symbol)]
      ensures if maxRoot == 0 || beam == 0 then candidates == []
          else Compressed(Recent(events), maxRoot, beam, evidence, candidates)
    {
      hide Compressed, PrefixWord, Expand, Repeat, Executed, Recent, Count, SegmentWord, EventWord;
      ghost var previous, before := events, prefix;
      Append(symbol);
      events := events + [Iterated(symbol)];
      IterationRecorded(before, prefix, previous, symbol);
      var frontier := ConcreteFrontier();
      candidates := CompressPathPrefix(frontier, maxRoot, beam, evidence);
      CandidatesExplain(frontier, maxRoot, beam, evidence, candidates);
    }

    /** Entering the loop anew forgets the previous run. */
    method Restart()
      modifies this
      ensures Valid() && events == [] && !cursorInitialized && prefix == [] && candidates == []
    {
      prefix, candidates, decisionCursor, cursorInitialized := [], [], 0, false;
      events := [];
    }

    /** Every visit to the first PHI of a loop header: entering the loop restarts the prefix, and a
        return from the latch appends the symbol of the decisions made since the last visit and computes
        the candidates afresh. The cursor is set to the decisions made so far when the loop is entered,
        at a first visit, and by every recorded iteration. */
    method RecordCompletedPath(visit: Visit, loop: nat, headerSite: nat, decisions: seq<Decision>,
                               alphabet: PathAlphabet, maxRoot: nat, beam: nat, evidence: nat)
      returns (recorded: bool, symbol: Symbol)
      requires Valid() && alphabet.Valid()
      modifies this, alphabet
      ensures Valid() && alphabet.Valid()
      ensures recorded <==> visit.ComesBack() && (old(cursorInitialized) ==> old(decisionCursor) <= |decisions|)
      ensures visit.firstHeaderPhi ==>
        && cursorInitialized
        && decisionCursor ==
             if recorded || visit.Enters() || !old(cursorInitialized) then |decisions| else old(decisionCursor)
      ensures !visit.firstHeaderPhi ==>
        cursorInitialized == old(cursorInitialized) && decisionCursor == old(decisionCursor)
      ensures visit.Enters() ==> !recorded && events == [] && prefix == [] && candidates == []
      ensures !recorded && !visit.Enters() ==>
        events == old(events) && prefix == old(prefix) && candidates == old(candidates)
      ensures !recorded ==>
        alphabet.alphabets == old(alphabet.alphabets) && alphabet.nextSymbol == old(alphabet.nextSymbol)
      ensures recorded ==>
        && events == old(events) + [Iterated(symbol)]
        && (if maxRoot == 0 || beam == 0 then candidates == []
            else Compressed(Recent(events), maxRoot, beam, evidence, candidates))
        && var start := if old(cursorInitialized) then old(decisionCursor) else |decisions|;
           start <= |decisions|
           && var made := if start == |decisions| then [Decision(headerSite, 0)] else decisions[start..];
              && alphabet.alphabets == old(alphabet.alphabets)[(loop, made) := symbol]
              && ((loop, made) in old(alphabet.alphabets) ==>
                   alphabet.alphabets == old(alphabet.alphabets) && alphabet.nextSymbol == old(alphabet.nextSymbol))
              && ((loop, made) !in old(alphabet.alphabets) ==>
                   symbol == old(alphabet.nextSymbol) && alphabet.nextSymbol == symbol + 1)
    {
      hide Compressed, Expand, Repeat, PrefixWord, Executed, Recent;
      symbol := 0;
      if !visit.firstHeaderPhi { return false, 0; }
      if visit.hasPredecessor && !visit.predecessorInLoop {
        Restart();
      }
      if !cursorInitialized {
        decisionCursor, cursorInitialized := |decisions|, true;
      }
      if !visit.hasPredecessor { return false, 0; }
      if !visit.predecessorInLoop || !visit.predecessorIsLatch { return false, 0; }
      if decisionCursor > |decisions| { return false, 0; }
      var made := decisions[decisionCursor..];
      decisionCursor := |decisions|;
      if made == [] { made := [Decision(headerSite, 0)]; }
      symbol := alphabet.Intern(loop, made);
      RecordIteration(symbol, maxRoot, beam, evidence);
      recorded := true;
    }
  }

  /** A loop entered after some decisions and come back to twice by one more, the same each time: with the
      default bounds the candidate is that path, seen twice. */
  method SamePathTwice(loop: nat, site: nat, before: seq<Decision>, d: Decision)
    returns (history: LoopHistory, alphabet: PathAlphabet)
    ensures fresh(history) && fresh(alphabet) && alphabet.alphabets == map[(loop, [d]) := 1]
    ensures history.candidates == [Candidate([], [1], 2, 5)]
  {
    hide Compressed;
    alphabet := new PathAlphabet();
    history := new LoopHistory();
    var recorded, symbol := history.RecordCompletedPath(Visit(true, true, false, false), loop, site, before, alphabet,
        4, 4, 2);
    var once, twice := before + [d], before + [d] + [d];
    assert once[|before|..] == [d] && twice[|once|..] == [d];
    recorded, symbol := history.RecordCompletedPath(Visit(true, true, true, true), loop, site, once, alphabet, 4, 4, 2);
    assert history.events == [Iterated(1)];
    recorded, symbol :=
        history.RecordCompletedPath(Visit(true, true, true, true), loop, site, twice, alphabet, 4, 4, 2);
    assert history.events == [Iterated(1), Iterated(1)];
    RecentTwo(1);
    TwiceTheSame(1, 4, 4, history.candidates);
  }

  lemma RecentTwo(p: Symbol)
    ensures Recent([Iterated(p), Iterated(p)]) == [p, p]
  {
    var events := [Iterated(p), Iterated(p)];
    assert events[..1] == [Iterated(p)] && [Iterated(p)][..0] == [];
    assert Recent([Iterated(p)]) == Recent([]) + [p];
  }
}
