# Verified model of ArithExe's reasoning

ArithExe verifies C programs by symbolic execution. Loops are not unrolled: repeated path words are
compressed, solved in closed form, certified and jumped over. This project models the hand-written
reasoning behind that in Dafny and proves it correct. Code that works step by step is a method with loop
invariants or a class; formula building and recursion are functions; what the code promises is stated in
contracts and lemmas.

`dafny verify dfyconfig.toml` checks everything.

## How to read it

Solver formulas are terms with an evaluator (`Terms`). A solver is a function to `Unsat`, `Sat` with a
model, or `Unknown`. Only two facts are assumed of it (`Sound`): unsat means that no environment
satisfies the formula, and a sat answer carries one that does. `Decides` adds that it is never unknown,
and is assumed only where a statement says so. Simplification, quantifier elimination, conditional
elimination, unsatisfiable cores, model evaluation, recurrence solving and equality tests of the computer
algebra system are parameters with stated contracts.

The modules, in layers:

- Paths: `PathWords`, `PathFactors`, `PathCompression`, `PathHistory`. A dynamic program over primitive
  powers, the ordered candidates it yields, and the segmented prefix that denotes the executed word.
- Acceleration: `ClosedForms`, `Acceleration`, `HeaderJumps` (jump and residual have exactly the exits of
  the loop), `OracleLoops` (loops controlled by a Boolean oracle), and for nests `LoopNests`,
  `CountTemplate`, `NestedSummaries`, `HeaderScalars`, `NestedAcceleration`, `CountedNests`. A nest summary is
  exact in both directions, by recursion over the nest, and ordinary nests have one.
- Engine: `Engine` is the worklist, with the invariant that every failing run continues from some state on
  the stack; `Instructions` is a small instruction set whose symbolic execution meets what the engine asks
  of it, and `AcceleratedRuns` shows the same of execution that jumps over loops and nests on the way,
  which closes the argument for whole programs. `DescribedLoops` shows that what it asks of loops and nests
  holds of programs, for every nest by compiling it.
- Terms: `Piecewise`, `Cnf`, `DomainRestriction`, `SplitIte`, `SymbolicArrays`.
- Integers: `Bits`, `Bitwise`, `MachineIntegers`. The quotient of signed division is truncated toward
  zero, as section 6.5.5 of C11 requires; the solver's `div` and `mod` are Euclidean, as in the SMT-LIB
  theory of Ints.
- Kernels: `GaussJordan`, `WordEquations`, `Polynomials`, `LinearDependence`, `BoundedDegree`.

Where the code does not do what its callers could hope for, the model follows the code:

- In `lib/logics.cpp` at line 38 the assumption is passed where `minimize_conjunction` expects a starting
  pivot, so clauses are scanned from literal 1 and nothing is assumed. Minimisation is proved for every
  pivot and assumption, so the result is still equivalent.
- Unknown answers are taken for negative ones. `simplify` drops a clause that the solver gives no answer
  about, so its result can be too weak; `Cnf.Simplify` says when it is not, and
  `Cnf.UnknownLosesMeaning` is an input on which the formula is lost. Its callers share the fault:
  `restrict_to_domain` can lose cases or pick the wrong one (`DomainRestriction.RestrictCases`,
  `RefusedDomain`, `WrongPick`), and `push_front`, with every array write that goes through it, can leave
  overlapping cases (`SymbolicArrays.FrontExactly`, `OverlapInFront`). `bin_operator` drops a pair of cases
  that the solver gives no answer about, and is exhaustive exactly if no such pair has an environment in
  common (`SymbolicArrays.Expression.BinOperator`).
- An error state whose path has become infeasible falls through to the assertion that only running states
  are executed (`lib/engine.cpp` line 162), and there is no verdict. `Engine.EndsExactly` says exactly when;
  `Instructions.UndefinedAssertionAborts` is a program on which it happens although no run of it fails.
- The engine reports a failed state as FAIL if its counterexample is complete, whether or not it is
  over-approximate (`lib/engine.cpp` lines 151-158). That is right because only exact states are marked
  failed (`lib/AInstruction.cpp` lines 1818-1823); the model states this as what a failed status means.
- A state dropped after an unknown feasibility answer leaves the verdict unknown, never HOLD.
- An assertion is checked only where it is defined, and the runs where it is undefined are not followed.
- A repetition count outside 64 bits is skipped when inputs are written down, as in
  `Engine.HugeCountSkipped`; `Engine.CapturedIsTape` says that the written inputs are those of the run
  exactly when there is none.
- `solve` returns a matrix for a singular system too; it is the only solution exactly for a nonsingular
  one (`GaussJordan.Solve`, `SingularStillAnswered`). Both `solve` and `inverse` give up on systems with
  integer solutions when a division on the way is not exact (`GaussJordan.FailsExactly`,
  `SolvableButInexact`, `InvertibleButZeroPivot`).
- `srem` is defined for the least number and -1, which LLVM and section 6.5.5 of C11 leave undefined and
  `sdiv` excludes (`MachineIntegers.SremOverflowOverlooked`). `LazyIsExact` and `LazyFailsExactly` show that
  this is the one difference from the machine, at any depth of a tree.
- The definedness of an array index is not recorded by reads and writes, only that of the value
  (`SymbolicArrays.UndefinedIndexRead`). `SymbolicArrays.MemoryObject.Read` and `WriteDefinedness` say
  exactly when that loses nothing.

## Model

| member | source | states |
|---|---|---|
| Terms.EvalReplace | lib/PathAccelerator.cpp:54-57 | substituting terms of equal value for their keys is evaluating the original where the keys have those values, under quantifiers too if no name is captured |
| Terms.EvalAgree | lib/PathAccelerator.cpp:326-341 | the value of a term depends only on the variables that occur free in it |
| Terms.BooleanShapes | lib/logics.cpp:420-431 | relations between numbers are atoms, and conjunctions, disjunctions, negations, equivalences and conditionals of Boolean terms are Boolean |
| PathWords.UniquePrimitiveRoot | lib/PathExpression.cpp:41-47 | u^k = v^l for primitive u and v and positive k and l implies u = v and k = l |
| PathWords.PrimitiveRootExists | lib/PathExpression.cpp:127-141 | every nonempty word is a power of a primitive word |
| PathWords.PrimitiveByPeriods | lib/PathExpression.cpp:127-141 | a word is primitive if and only if it has no proper period dividing its length |
| PathWords.IsPrimitivePathWord | lib/PathExpression.cpp:127-141 | true exactly for the nonempty words that are no proper power of any word |
| PathWords.ExpandPathPowers | lib/PathExpression.cpp:143-151 | the concatenation of the powers |
| PathFactors.TieNeverReachesRoot | lib/PathExpression.cpp:41-52 | two primitive powers that spell the same stretch of the prefix are the same, so the root and exponent parts of a choice key never decide a tie |
| PathFactors.ExponentBitsIsWidth | lib/PathExpression.cpp:20-22 | zero for zero, else the number of binary digits: the largest power of two not above the number is 2^(b-1) |
| PathFactors.BlockCostIs | lib/PathExpression.cpp:16-27 | a block costs 2, the length of its root and the binary digits of its exponent |
| PathFactors.Improve | lib/PathExpression.cpp:66-89 | relaxing one block keeps every table entry justified, lowers no entry but its own end, and leaves the earliest predecessor among equal costs |
| PathFactors.ComputeFactorTable | lib/PathExpression.cpp:54-93 | the table satisfies every Bellman inequality with justified choices; with a positive root bound every position has a finite cost |
| PathFactors.BellmanBound | lib/PathExpression.cpp:54-93 | no factorisation of a prefix is cheaper than its table entry |
| PathFactors.TableIsMinimum | lib/PathExpression.cpp:54-93 | a finite entry is the least total block cost over all factorisations into primitive powers with bounded roots; an infinite one means there is none |
| PathFactors.TableIsUnique | lib/PathExpression.cpp:41-93 | costs and choices are determined: two solved tables for one prefix are equal |
| PathFactors.Backtrack | lib/PathExpression.cpp:95-109 | the blocks are the table's choices followed back; on a solved table they are a factorisation of exactly that prefix and attain the cost of its entry |
| PathCompression.CandidateOrder | lib/PathExpression.cpp:111-123 | irreflexive, total and transitive |
| PathCompression.SuffixRun | lib/PathExpression.cpp:164-170 | the exponent is that of the longest run of the suffix word at the end of the prefix |
| PathCompression.SuffixRunUnique | lib/PathExpression.cpp:164-170 | that exponent is unique |
| PathCompression.ScoreIs | lib/PathExpression.cpp:176-179 | the score is the cost of the closed part, 2, the length of the star and the binary digits of its exponent |
| PathCompression.Collect | lib/PathExpression.cpp:161-182 | one candidate for every primitive suffix with enough repetitions, and no other |
| PathCompression.Sort | lib/PathExpression.cpp:188 | sorted by the order and a permutation of the input |
| PathCompression.Unique | lib/PathExpression.cpp:189-190 | no two neighbours are equal, nothing is lost, and a list without equal neighbours is unchanged |
| PathCompression.BeamIsBest | lib/PathExpression.cpp:188-191 | no candidate left out precedes one of the results, and fewer than the beam width means that none was left out |
| PathCompression.CompressPathPrefix | lib/PathExpression.cpp:153-193 | every result is primitive with maximal suffix exponent, expands with its closed part to exactly the prefix, has the stated score of a least-cost closed part, the one that the unique solved table gives; the results are the beam-width best in order; nonempty for nonempty input and positive bounds |
| PathCompression.TwiceTheSame | lib/PathExpression.cpp:153-193 | a path taken twice is the one candidate: no closed part, exponent 2, score 5 |
| PathHistory.PathAlphabet.Intern | lib/VerificationSession.cpp:32-40 | a symbol identifies one loop and one decision sequence for good; new ones are numbered in order |
| PathHistory.LoopHistory.Append | lib/state.h:74-81 | the denoted word and the concrete frontier grow by the symbol |
| PathHistory.LoopHistory.AppendSymbolicPower | lib/state.h:83-88 | the denoted word grows by the power and the concrete frontier is empty |
| PathHistory.LoopHistory.ConcreteFrontier | lib/state.h:90-96 | the iterations since the last jump |
| PathHistory.LoopHistory.RecordIteration | lib/AInstruction.cpp:184-192 | the prefix denotes the executed word and the candidates are the compression of its concrete frontier alone |
| PathHistory.LoopHistory.RecordJump | lib/PathAccelerator.cpp:1254-1257 | the prefix denotes the executed word with the power appended; the candidates are dropped |
| PathHistory.LoopHistory.RecordCompletedPath | lib/AInstruction.cpp:148-214 | an iteration is recorded if and only if the first PHI is reached from a latch and the decisions go at least as far as at the last visit: its symbol is that of the decisions since then, and the candidates are the compression of the frontier. The cursor moves to the decisions made so far at a first visit, on entry and with every recorded iteration; entering forgets prefix and candidates, and every other visit leaves both alone |
| PathHistory.SamePathTwice | lib/AInstruction.cpp:148-214 | a loop entered after any decisions and come back to twice by the same one has that path, seen twice, as its one candidate under the default bounds |
| ClosedForms.Compose | lib/PathAccelerator.cpp:454-475 | guard and map of the composite are those of running the word path by path |
| ClosedForms.CertifiedIterates | lib/PathAccelerator.cpp:393-425 | base and step checks give the closed form at every n >= 0: it is the n-th iterate |
| ClosedForms.ClosesCertifies | lib/PathAccelerator.cpp:393-425 | conversely a form that gives every iterate refutes both queries: certification is complete |
| ClosedForms.Certify | lib/PathAccelerator.cpp:393-425 | accepted forms give every iterate, and a deciding solver accepts all that do |
| ClosedForms.ElementaryForms | lib/PathAccelerator.cpp:489-508 | answers exactly when in every component no parameter occurs in it, or none occurs in its simplified difference from its own, and then with its exact closed form |
| ClosedForms.ElementaryCertifies | lib/PathAccelerator.cpp:489-508 | translation and reset forms satisfy both checks in every environment |
| ClosedForms.ElementaryAlwaysCertified | lib/PathAccelerator.cpp:393-425 | with a deciding solver both checks answer unsat for them |
| ClosedForms.SolveComposite | lib/PathAccelerator.cpp:427-594 | any solution, proposed or built in, gives every iterate of the word's map; with a deciding solver there is one exactly for a nonempty composable word whose map consists of translations and resets, told by the symbols that occur, or for which the proposal gives every iterate |
| ClosedForms.SolutionExactly | lib/PathAccelerator.cpp:427-594 | with a deciding solver the search for a solution ends with one if and only if the word is solvable in that sense |
| Acceleration.SameRun | lib/PathAccelerator.cpp:1152-1176 | a deterministic loop has one run from a state, as far as the shorter of two goes |
| Acceleration.FirstBreakUnique | lib/PathAccelerator.cpp:1190-1194 | at most one k is a first break |
| Acceleration.JumpIsExact | lib/PathAccelerator.cpp:1179-1259 | with a first break at k, k\|w\| ordinary iterations are executed with no exit in between, they reach the closed form at k, and the exits of the loop are the exits from there |
| Acceleration.ExitsAfter | lib/PathAccelerator.cpp:1245-1262 | the exits of a deterministic loop are the exits after any of its runs |
| Acceleration.FirstBreakMeans | lib/PathAccelerator.cpp:1177-1194 | the built formula holds exactly where the count is the first break of the guard along the closed form |
| HeaderJumps.BindingsAreForced | lib/PathAccelerator.cpp:370-391 | in every model of the formula the variable equals every collected binding, and no binding mentions it |
| HeaderJumps.BindingsCollected | lib/PathAccelerator.cpp:370-391 | exactly the equations among the conjuncts, at any depth, with the variable alone on one side and not on the other are collected |
| HeaderJumps.FunctionalCount | lib/PathAccelerator.cpp:1209-1240 | the recorded count equals the first break on every state of the jump; it is the first collected binding that the solver proves, with a deciding solver the first one, and the constrained symbol only if there is none |
| HeaderJumps.Accelerate | lib/PathAccelerator.cpp:1104-1271 | the jump constrains the path by the first break of a certified solution, has the closed forms at the count, and covers exactly the states with a first break; there is one only if the star has a closed form and some state of the path a first break, and with a deciding solver exactly then |
| HeaderJumps.JumpRun | lib/PathAccelerator.cpp:1245-1262 | the runs through the jump are the runs of the source whose first break is the count |
| HeaderJumps.ResidualRun | lib/AInstruction.cpp:1662-1682 | the runs through the residual are the runs of the source without a first break |
| HeaderJumps.JumpAndResidual | lib/AInstruction.cpp:1660-1684 | jump and residual together have exactly the exits of the unaccelerated loop |
| HeaderJumps.HeaderPhi | lib/AInstruction.cpp:1644-1691 | whatever candidates are tried and whatever the solver answers, the successors have exactly the exits of the state; with a deciding solver they split it along the first candidate that has a closed form and a first break from some state of the path, without a residual exactly if every state of the path has one, and are the state itself exactly if there is no such candidate |
| OracleLoops.StaysOnContinue | lib/PathAccelerator.cpp:109-168 | the continue value is the one that stays in the loop |
| OracleLoops.StaysTable | lib/PathAccelerator.cpp:109-168 | for each shape of the header branch, the answer that stays |
| OracleLoops.ProjectionIsExact | lib/PathAccelerator.cpp:188-199 | the projected guard holds exactly where the path can be taken under the continue value |
| OracleLoops.StabilityProved | lib/PathAccelerator.cpp:646-669 | an unsat stability query means that no other path is enabled anywhere on the trajectory |
| OracleLoops.FiniteExits | lib/PathAccelerator.cpp:609-718 | over all finite oracle sequences the exits are exactly the iterates F^n(s) with the guard true for all t < n, each reached by n continue values and one exit value |
| OracleLoops.RecordedSequence | lib/PathAccelerator.cpp:691-699 | the recorded sequence of n + 1 calls is n continue values, then the exit value |
| OracleLoops.AccelerateArbitraryFinite | lib/PathAccelerator.cpp:609-718 | the exit jump has exactly the finite exits of the loop, each with its recorded oracle sequence; there is one only for a star of one symbol with a closed form, defined header values, and no other path enabled along the trajectory of the closed form from any state of the path, and with a deciding solver exactly then |
| LoopNests.OneTrace | lib/PathAccelerator.cpp:768-841 | a loop of a nest has one complete run from a store |
| LoopNests.LoopDoesNotFail | lib/PathAccelerator.cpp:768-841 | a loop that runs to its exit hits no failed assertion, in any iteration or child |
| LoopNests.LoopKeeps | lib/PathAccelerator.cpp:914-1037 | a complete run keeps every scalar the body does not assign |
| LoopNests.ComparisonLaws | lib/PathAccelerator.cpp:843-895 | the comparisons of a header test in terms of each other, down to equality and to zero being less than one |
| CountTemplate.CeilingIsLeast | lib/PathAccelerator.cpp:880-893 | the ceiling division is the least count whose multiples cover the distance |
| CountTemplate.TemplateIsLeastBreak | lib/PathAccelerator.cpp:843-895 | for <, <=, > and >= with a stride towards the bound the test holds before the count and fails at it |
| CountTemplate.CountTermMeans | lib/PathAccelerator.cpp:876-893 | the synthesised term has that value in every environment |
| CountTemplate.NestedCountTemplate | lib/PathAccelerator.cpp:843-895 | a count exactly for the tests that have a template: one side is carried around the loop with a nonzero constant stride above -2^63 and at most 2^63-1, the other does not change, and the loop goes on on the side of the bound that the counter comes from; the count is the first point of the trajectory where the test leaves |
| NestedSummaries.TrackAssign | lib/PathAccelerator.cpp:768-841 | an assignment is explored exactly: path condition, values and error obligations |
| NestedSummaries.TrackCheck | lib/PathAccelerator.cpp:787-800 | an assertion is explored exactly: it joins the path, its failure joins the error obligations |
| NestedSummaries.TrackError | lib/PathAccelerator.cpp:809-814 | reaching an error call adds the path to the error obligations, and nothing comes back |
| NestedSummaries.TrackDead | lib/PathAccelerator.cpp:781-786 | an infeasible path returns nothing and adds no obligation |
| NestedSummaries.TrackBranch | lib/PathAccelerator.cpp:781-807 | both sides of a branch explored, at most one coming back, are the branch explored exactly |
| NestedSummaries.TrackNest | lib/PathAccelerator.cpp:1039-1097 | jumping over a child with an exact summary, its domain proved at entry, is running the child |
| NestedSummaries.DomainMeansAt | lib/PathAccelerator.cpp:992-998 | the domain formula holds exactly where the exit is taken at the n-th iterate, every earlier iterate returns and none up to the n-th fails |
| NestedSummaries.DomainRuns | lib/PathAccelerator.cpp:992-998 | where the domain holds the loop runs exactly n iterations through the iterates |
| NestedSummaries.RunInDomain | lib/PathAccelerator.cpp:992-998 | a loop that runs to its exit is in the domain, and its iteration count is the synthesised one |
| NestedSummaries.SummaryIsExact | lib/PathAccelerator.cpp:914-1037 | the domain holds if and only if the loop runs to its exit, and then count and values are the loop's, none and unchanged values for N = 0 included |
| HeaderScalars.SpreadCloses | lib/PathAccelerator.cpp:914-970 | a closed form of the scalars that are PHIs of the header, the only parameters of the composite, is one of all scalars, the others keeping their values |
| NestedAcceleration.ForeignExactly | lib/PathAccelerator.cpp:897-912 | the check rejects exactly the terms in which a function is applied or a symbol occurs that is neither a scalar of the program nor bound |
| NestedAcceleration.Explore | lib/PathAccelerator.cpp:768-841 | the exploration says exactly where the code runs to its end, with which values, and where it fails, error calls and infeasible branches included |
| NestedAcceleration.ExploresExactly | lib/PathAccelerator.cpp:768-841 | with a deciding solver code is explored if and only if, along it, every branch has at most one side that comes back, and every child has a summary whose domain holds at its entry from all states there; by recursion at any depth |
| NestedAcceleration.ExploreIteration | lib/PathAccelerator.cpp:768-841 | the explored iteration returns, leaves and fails exactly where one iteration of the loop does |
| NestedAcceleration.BuildNestedSummary | lib/PathAccelerator.cpp:914-1037 | every summary built is exact, at any nesting depth: its domain holds if and only if the nest runs to its exit without a failed assertion in any child, and then count and live-outs are the nest's; with a deciding solver there is one if and only if the nest is summarisable |
| NestedAcceleration.SummarisesExactly | lib/PathAccelerator.cpp:914-1037 | summarisable, with a deciding solver: the loop can be both entered and left, its body can be explored at every depth and comes back, the header's PHIs have a closed form over one iteration and there is a count, and no foreign symbol is left |
| NestedAcceleration.AccelerateNested | lib/PathAccelerator.cpp:1039-1097 | the jump over a nest at its entry is the complete run of the nest from every state of the path; a deciding solver jumps if and only if the nest is summarisable and runs to its exit from every state of the path |
| CountedNests.NothingForeign | lib/PathAccelerator.cpp:992-1036 | if no function is applied and no strange symbol occurs in an iteration, its closed form and its count, and the tools invent none, then the summary is not rejected |
| CountedNests.CountingSummarised | lib/PathAccelerator.cpp:914-1037 | every loop that counts a scalar up to a bound in which it does not occur has a summary, with a deciding solver and a simplifier that subtracts |
| CountedNests.CountingExits | lib/PathAccelerator.cpp:843-895 | such a loop runs to its exit from every store |
| CountedNests.NestOfTwo | lib/PathAccelerator.cpp:1039-1097 | every nest of two such loops, the inner counter reset by the outer body and the bounds mentioning neither counter, has a summary, which is exact |
| Engine.FailsNext | lib/engine.cpp:54-59 | a run can fail if and only if it fails now or its next configuration can |
| Engine.CapturedIsTape | lib/engine.cpp:293-326 | the inputs written down are the inputs of the run if and only if every repetition count fits in 64 bits |
| Engine.HugeCountSkipped | lib/engine.cpp:293-326 | a count of 2^63 does not fit and 2^63-1 does: the run reads that many inputs and none is written down |
| Engine.VerifiedContinues | lib/engine.cpp:102-111 | past an assertion every run where it is undefined or true goes on from the state that assumes it |
| Engine.WitnessViolates | lib/engine.cpp:113-130 | in a precise state that violates under a model, the run that reads the recorded inputs violates at that location |
| Engine.Replaced | lib/engine.cpp:164-180 | successors that take over the failing runs of a popped state can replace it on the stack |
| Engine.Engine.RecordIssue | lib/engine.cpp:183-189 | only the first issue is kept |
| Engine.Engine.CaptureCounterexample | lib/engine.cpp:293-326 | the inputs of the recorded calls in order, a repeated call as often as its count says |
| Engine.Engine.Test | lib/engine.cpp:355-377 | infeasible means that no environment satisfies the path, feasible comes with one that does, unknown records an issue |
| Engine.Engine.Verify | lib/engine.cpp:214-291 | HOLD means that the assertion is true wherever the path reaches it and it is defined; FAIL comes with a model whose recorded inputs violate it; otherwise the solver was unknown or the path imprecise |
| Engine.Engine.CheckAssertion | lib/engine.cpp:84-112 | keeps the worklist invariant, or stops with a result that a failing run backs |
| Engine.Engine.CheckError | lib/engine.cpp:113-135 | a feasible error state stops with FAIL only on a precise path; an infeasible one falls through to the internal assertion |
| Engine.Engine.CheckFeasible | lib/engine.cpp:136-144 | keeps the worklist invariant; an unknown state is dropped and spoils the verdict |
| Engine.Engine.Turn | lib/engine.cpp:73-181 | every turn keeps the invariant that each failing run continues from some state on the stack, or ends the exploration; it is stuck exactly on an infeasible error state; stack, results, first issue and reported location afterwards are stated |
| Engine.TurnTable | lib/engine.cpp:73-181 | for each status and each answer of the solver: whether the exploration goes on, what is recorded, which issue, and what replaces the state |
| Engine.Engine.Run | lib/engine.cpp:66-181 | how the worklist ends and what it records are determined by the stack, turn by turn; when it returns, all-HOLD results mean that no run fails and a FAIL result that one does; when its assertion stops it, the state on top was an error state with an infeasible path |
| Engine.EndsExactly | lib/engine.cpp:66-181 | the worklist stops on its assertion if and only if an error state with an infeasible path comes on top within the budget, and is cut off if and only if every turn of the budget goes on and leaves a state on the stack; otherwise it returns |
| Engine.EndingStays | lib/engine.cpp:66-181 | once the worklist has come to an end, no larger budget changes ending or results |
| Engine.FailsExactly | lib/engine.cpp:84-160 | a FAIL is recorded if and only if a precise state with a failing assertion or a feasible error call, or a complete failed state, comes on top within the budget, and then the worklist returns |
| Engine.Engine.VerifyProgram | lib/engine.cpp:31-52 | there is a verdict if and only if the worklist returns: HOLD exactly if every recorded result is HOLD, FAIL exactly if some turn within the budget finds a failure, whatever was unknown before it. HOLD: no run from an allowed start fails or violates a defined assertion; FAIL: some run does, and the captured inputs drive it to the reported location if the counts fit; with a deciding solver and precise execution no verdict is unknown |
| Instructions.BranchFollows | lib/AInstruction.cpp:1442-1482 | the two branch states have exactly the failing runs of the state, undefined conditions excluded |
| Instructions.AssumeFollows | lib/AInstruction.cpp:1186-1202 | the assuming state has exactly the failing runs of the state |
| Instructions.AssertFollows | lib/AInstruction.cpp:1148-1176 | the verifying state stands before the assertion: undefined stops, false violates, true goes on |
| Instructions.InputFollows | lib/AInstruction.cpp:1205-1262 | the state with a fresh symbol has the runs for every input value, and its recorded call is that value |
| Instructions.EndFollows | lib/AInstruction.cpp:1178-1184 | an error call violates, a return ends the run |
| Instructions.ProgramExecutes | lib/engine.cpp:54-59 | symbolic execution of every program loses no failing run and keeps precise states witnessed |
| Instructions.VerifyAssertions | lib/engine.cpp:31-52 | for every program there is a verdict if and only if the worklist returns: HOLD means that no input makes the program fail, FAIL that some input does, and with a deciding solver no verdict is unknown |
| Instructions.UndefinedAssertionAborts | lib/engine.cpp:113-162 | a program that no run fails and that gets no verdict, whatever a deciding solver answers: behind an assertion that is never defined stands an error call, and the worklist stops on its own assertion there |
| AcceleratedRuns.PassesThrough | lib/engine.cpp:54-59 | a run can fail if and only if it can at every configuration it passes through |
| AcceleratedRuns.ShortcutIsSane | lib/engine.cpp:164-180 | a state reached by skipping part of a run keeps its promises: its scope, its status and, if precise, its witness on the recorded inputs |
| AcceleratedRuns.PhiFollows | lib/AInstruction.cpp:1644-1691 | in a machine whose loop the enumerated paths describe, jump and residual of the header PHI lose no failing run and stay witnessed |
| AcceleratedRuns.OracleFollows | lib/PathAccelerator.cpp:609-718 | so does the accelerated exit of an oracle loop, and the inputs it records are those of the run |
| AcceleratedRuns.NestFollows | lib/PathAccelerator.cpp:1039-1097 | so does the jump over a whole nest |
| AcceleratedRuns.AcceleratedExecutes | lib/engine.cpp:54-59 | execution by instruction that may accelerate any loop or nest, give a state up, or report a refuted summary meets what the worklist asks of it |
| AcceleratedRuns.VerifyAccelerated | lib/engine.cpp:31-52 | with such execution there is a verdict if and only if the worklist returns: HOLD means that no input makes the program itself fail, FAIL that some input does, and with a deciding solver and no state given up no verdict is unknown |
| DescribedLoops.CountingLoopDescribed | lib/PathAccelerator.cpp:1104-1271 | the enumerated path of a counting loop describes the loop of its program from every state |
| DescribedLoops.DrivenLoopDescribed | lib/PathAccelerator.cpp:609-718 | a loop that is left on an input: its exits over all answers are the runs of its program on inputs with those truth values, and a failing run first leaves the loop |
| DescribedLoops.NestDescribed | lib/PathAccelerator.cpp:1039-1097 | every nest, at any depth, is described by the program it compiles to, wherever that stands in a larger one: the complete runs of the nest are runs of the program to the place after it, and its failing runs violate |
| Bits.SameBits | lib/RelaxedIntegerSemantics.h:16-50 | integers with equal bits everywhere are equal |
| Bits.BitwiseUnique | lib/RelaxedIntegerSemantics.h:16-50 | at most one integer has the operation's bits |
| Bits.TruthTable | lib/RelaxedIntegerSemantics.h:14-15 | the truth tables of the three operations |
| Bits.MaskedIsAnd | lib/RelaxedIntegerSemantics.h:31-43 | the digit sum is the conjunction with a nonnegative mask in every bit |
| Bits.NegativeMask | lib/RelaxedIntegerSemantics.h:26-44 | for a negative mask what its complement selects is taken away: conjunction in every bit |
| Bits.ThroughAnd | lib/RelaxedIntegerSemantics.h:45-49 | x + m - (x and m) and x + m - 2(x and m) are disjunction and exclusive or in every bit |
| Bits.StaysInWidth | lib/RelaxedIntegerSemantics.h:14-15 | operands in a signed or unsigned range of a width have their result in that range |
| Bits.ShiftedBits | lib/RelaxedIntegerSemantics.h:52-64 | multiplying and dividing by a power of two moves every bit up and down |
| Bitwise.IntegerBitwise | lib/RelaxedIntegerSemantics.h:16-50 | the term is the infinite two's-complement operation in every bit and environment, negative masks included; no term exactly when the operands differ and there is no constant to serve as mask (the right one of two) or it, or its complement, has more than 4096 digits |
| Bitwise.LargestMasks | lib/RelaxedIntegerSemantics.h:31-36 | masks of 4096 binary digits are within the limit, the next larger and the next smaller ones are not |
| Bitwise.Intersect | lib/RelaxedIntegerSemantics.h:31-43 | the div/mod sum equals the masked value; gives up exactly at 2^4096 |
| Bitwise.FixedWidthAnswer | lib/RelaxedIntegerSemantics.h:14-15 | for operands in range the answer is the one number of the range with the fixed-width bits |
| Bitwise.IntegerShiftFactor | lib/RelaxedIntegerSemantics.h:52-64 | a constant amount up to 4096 gives the factor that shifts by it; a negative one gives 1; others give nothing |
| MachineIntegers.PowerOfTwo | lib/IntegerSemantics.h:65-69 | the doubling loop computes 2^n |
| MachineIntegers.ReadingsAreUnique | lib/IntegerSemantics.h:29-43 | the signed and unsigned readings are the only numbers of their ranges congruent to the value |
| MachineIntegers.DivisionConstraintSolved | lib/AInstruction.cpp:670-688 | for a nonzero divisor the constraint on the fresh quotient and remainder has exactly one solution, signed_div and signed_rem: the remainder is smaller than the divisor and not of the sign opposite to the dividend |
| MachineIntegers.DivisionInRange | lib/IntegerSemantics.h:45-63 | a quotient of numbers in range is in range unless the least number is divided by -1; a remainder always is |
| MachineIntegers.ExecuteIsExact | lib/AInstruction.cpp:595-745 | one instruction is defined exactly when the fresh values are right and the machine's instruction is defined, wrap flags and exactness included, or it is srem of the least number and -1, which only the code lets through; where both are defined the value has the machine's bit pattern |
| MachineIntegers.SremOverflowOverlooked | lib/AInstruction.cpp:705-735 | the failing input at every width: the least number srem -1 is defined with value 0, the machine's is not defined |
| MachineIntegers.LazyIsExact | lib/AInstruction.cpp:600-660 | a tree kept unnormalised is defined wherever the machine computes it with checks at every node; where it is defined the machine computes it if and only if no srem in it is given the least number and -1, and then normalising once at the end gives the machine's value |
| MachineIntegers.LazyFailsExactly | lib/AInstruction.cpp:600-660 | definedness agrees with the machine's on a tree if and only if the tree is not defined with such an srem in it |
| MachineIntegers.FreshValuesDetermined | lib/AInstruction.cpp:670-735 | every defined evaluation is the one with quotients and remainders filled in; the machine computes a tree exactly if that one is defined and no srem in it is given the least number and -1, with the same value |
| MachineIntegers.CompareIsExact | lib/AInstruction.cpp:805-860 | every predicate on unnormalised operands is the order or equality of the machine's patterns, signed or unsigned; equal readings are equal patterns |
| Piecewise.CartesianProduct | lib/common.cpp:16-35 | every fitting index tuple, once |
| Piecewise.MergeCases | lib/logics.cpp:76-117 | terminates, covers the same environments, keeps the value wherever exactly one case applied, and with a deciding solver leaves no case that could be merged into another |
| Piecewise.MergedApart | lib/logics.cpp:95-113 | with the pivot index adjusted for removed cases no case is skipped |
| Piecewise.AuxExpr2Piecewise | lib/logics.cpp:157-195 | under its context exactly one new case applies, free of conditionals and with the value of the term; outside it none does |
| Piecewise.Expr2Piecewise | lib/logics.cpp:198-208 | in every environment exactly one condition holds and its conditional-free expression has the value of the term; with a deciding solver no two cases could be merged |
| Piecewise.Piecewise2Ite | lib/logics.cpp:240-256 | a nest of conditionals with the value of the one case that applies, and where several overlap and the solver refutes nothing, of the first; nothing for mismatched or empty lists |
| Piecewise.RoundTrip | lib/logics.cpp:157-256 | the cases of a term, put together again, evaluate to the term |
| Cnf.Atoms | lib/logics.cpp:433-453 | exactly the atoms that occur outside quantifiers, without duplicates |
| Cnf.AtomsDecide | lib/logics.cpp:420-431 | a Boolean combination has the same value wherever its atoms do |
| Cnf.MinimizedConjunction | lib/logics.cpp:476-498 | from every starting pivot and under every assumption the result is equivalent and keeps what stands before the pivot; with a deciding solver no scanned conjunct is implied by the others |
| Cnf.Implicant | lib/logics.cpp:500-518 | the clause is implied by the formula and false wherever the atoms have the model's values; there is one exactly if the solver confirms that the model's literals refute the formula |
| Cnf.ToCnf | lib/logics.cpp:520-536 | terminates, each clause read off the model of the query before it and ruling out an assignment of the atoms; the clauses are implied by the formula, and where they hold the formula fails exactly where the last query holds, so they are equivalent if that is unsat; a result unless the internal assertion fails, which on Boolean combinations of atoms takes an unanswered query |
| Cnf.EnumerationUnique | lib/logics.cpp:520-536 | the solver's answers determine the enumeration: with the same atoms there is one way for it to stop |
| Cnf.AssignmentCount | lib/logics.cpp:520-536 | at most 2^n assignments, hence clauses, for n atoms |
| Cnf.ClauseList | lib/logics.cpp:538-552 | a clause is the disjunction of its listed literals |
| Cnf.ToDnf | lib/logics.cpp:556-572 | every conjunct implies the formula, and outside them the formula holds exactly where the last query does, so they cover it if that is unsat |
| Cnf.ShortenClause | lib/logics.cpp:28-44 | a clause stays equivalent and keeps its first literal; with a deciding solver no literal from the second on is implied by the others |
| Cnf.Simplify | lib/logics.cpp:14-49 | the conjunction of the enumerated clauses that the solver finds not entailed, each shortened; implied by the formula; under the assumption and the result, the formula holds exactly where no query that the solver left unanswered does, so the result is equivalent under the assumption if and only if no unanswered query, for a dropped clause or a missed model, holds anywhere the assumption and the result do; a result unless the enumeration fails its assertion, which a deciding solver rules out for Boolean formulas |
| Cnf.UnknownLosesMeaning | lib/logics.cpp:24-47 | with a solver that never answers, a contradiction simplifies to true |
| DomainRestriction.RestrictCases | lib/logics.cpp:124-137 | for every sound solver: a restriction exactly if every condition can be simplified and some case is kept; on the domain the case that applies is the only kept one that applies, and so gives the value, if and only if no condition was weakened or case dropped there on an unanswered query. With a deciding solver and Boolean conditions: a restriction exactly if some condition meets the domain, with the value of the applying case on all of the domain |
| DomainRestriction.RestrictToDomain | lib/logics.cpp:119-138 | with a deciding solver and Boolean conditions in the function's conditionals there is a restriction exactly for a satisfiable domain, and it has the value of the function on every point of it; with any sound solver it has that value wherever no case is treated wrongly, so on the whole domain if all queries were answered |
| DomainRestriction.RefusedDomain | lib/logics.cpp:131-137 | with a solver that never answers there is no restriction, although every point is in the domain |
| DomainRestriction.WrongPick | lib/logics.cpp:128-137 | two exclusive cases that a solver answers only partly about: the restriction has the first value everywhere |
| SplitIte.FindInnermostIte | lib/rec_solver.cpp:54-66 | none exactly for terms without a conditional outside quantifiers, else one whose parts have none |
| SplitIte.ReplaceCounts | lib/rec_solver.cpp:131-151 | replacing a conditional by a branch strictly lowers the number of conditionals |
| SplitIte.SplitWeighsLess | lib/rec_solver.cpp:131-151 | two cases with a conditional less weigh less than the case they come from |
| SplitIte.BranchMeans | lib/rec_solver.cpp:131-151 | a branch applies exactly where the case and the branch's condition do, with the same updates |
| SplitIte.SplitIteCases | lib/rec_solver.cpp:111-157 | terminates; every result is free of conditionals; where the original guard holds exactly one resulting guard does, with the same updates, and elsewhere none |
| SymbolicArrays.PairsCombine | lib/Expr.cpp:114-131 | where a kept pair applies no other does, it has the operation's value, and it is defined where both operands are |
| SymbolicArrays.Expression.BinOperator | lib/Expr.cpp:114-131 | as above; the conditions stay exhaustive if and only if the solver answers every pair of cases that have an environment in common; a solver that never answers leaves none |
| SymbolicArrays.CombinedValue | lib/Expr.cpp:114-131 | the combination has the operation's value and is defined exactly where both operands are |
| SymbolicArrays.FrontExactly | lib/Expr.cpp:133-151 | the new case in front of the old ones, disjoint and exhaustive, if and only if no old case still applies because of a query that the solver left unanswered |
| SymbolicArrays.Expression.PushFront | lib/Expr.cpp:133-151 | every old condition with the earlier ones excluded and simplified; the new case where its condition holds and the old cases elsewhere, with definedness, exactly under the condition above, so if every query was answered; if a simplification fails, which a deciding solver rules out for Boolean conditions, nothing changes |
| SymbolicArrays.OverlapInFront | lib/Expr.cpp:133-151 | with a solver that never answers, pushing a case that never applies makes two exclusive cases overlap, and the first wins everywhere |
| SymbolicArrays.Expression.AsExpr | lib/Expr.cpp:104-107 | one term with the value of the case that applies |
| SymbolicArrays.Expression.Defined | lib/Expr.cpp:109-112 | one condition for the definedness of the case that applies |
| SymbolicArrays.Expression.Subs | lib/Expr.cpp:153-174 | the cases read where the symbols have the values of the given expressions |
| SymbolicArrays.LastWriteDecides | lib/MemoryObject.cpp:18-69 | a cell holds the value and definedness of the last write whose index equals it in the environment |
| SymbolicArrays.UnwrittenIsInitial | lib/MemoryObject.cpp:18-69 | a cell that no write hits keeps its initial content |
| SymbolicArrays.MemoryObject.Write | lib/MemoryObject.cpp:52-69 | the stored cases hold again, in every environment and at every index, what the writes so far have put there, if and only if no old case leaks, so if every query was answered; with a deciding solver and Boolean conditions in the stored cases, which stay so, the write is refused exactly for a wrong number of indices, else also for a failed simplification |
| SymbolicArrays.MemoryObject.WriteWhole | lib/MemoryObject.cpp:47-50 | the whole object takes the new value and is right again, whatever it was before |
| SymbolicArrays.MemoryObject.Read | lib/MemoryObject.cpp:18-45 | the content of the cell at the index: what the last write to it has put there, else the initial content; it is defined where both cell and index are, everywhere, if and only if no undefined index reads a defined cell |
| SymbolicArrays.UndefinedIndexRead | lib/MemoryObject.cpp:18-45 | reading at an index that is nowhere defined gives a content that is defined everywhere |
| SymbolicArrays.WriteDefinedness | lib/MemoryObject.cpp:52-69 | a cell just written is defined exactly where value and index are if and only if the index is defined there or the value is not |
| GaussJordan.SwapKeepsKernel | lib/LinearAlgebra.h:353-358 | swapping rows keeps the solutions |
| GaussJordan.ScaleKeepsKernel | lib/LinearAlgebra.h:365-367 | dividing a row exactly keeps the solutions |
| GaussJordan.SubtractKeepsKernel | lib/LinearAlgebra.h:368-374 | subtracting a multiple of the pivot row keeps the solutions |
| GaussJordan.FindPivot | lib/LinearAlgebra.h:338-352 | the first row of largest magnitude in the column |
| GaussJordan.DivideRow | lib/LinearAlgebra.h:295-310 | exact division of every entry, or nothing if one is not exact |
| GaussJordan.EliminateColumn | lib/LinearAlgebra.h:368-374 | the column becomes a unit column, earlier unit columns stay, the solutions are the same |
| GaussJordan.FailsExactly | lib/LinearAlgebra.h:338-374 | an elimination has no result if and only if it reaches a column whose pivot does not divide its row or, without a search, is zero |
| GaussJordan.ZeroPivotIsSingular | lib/LinearAlgebra.h:359-363 | a zero pivot of largest magnitude means that some nonzero vector is annihilated |
| GaussJordan.ReducedIsRegular | lib/LinearAlgebra.h:322-384 | with all columns unit columns the matrix is nonsingular and the right-hand sides are the only solutions |
| GaussJordan.SingularIsAmbiguous | lib/LinearAlgebra.h:359-363 | for a singular matrix no returned columns are the only solution |
| GaussJordan.Solve | lib/LinearAlgebra.h:322-384 | a result exactly for matching sizes and an elimination that does not fail, and then its right-hand columns, which are the only solution of A X = b over the reals if and only if A is nonsingular |
| GaussJordan.SingularStillAnswered | lib/LinearAlgebra.h:359-363 | 0 x = 1 has no solution and gets a result |
| GaussJordan.Inverse | lib/LinearAlgebra.h:178-209 | a result exactly for a square matrix whose elimination without a search does not fail, and then the one right inverse of a nonsingular matrix |
| GaussJordan.SolvableButInexact | lib/LinearAlgebra.h:295-310 | a nonsingular system with an integer solution that gets no result |
| GaussJordan.InvertibleButZeroPivot | lib/LinearAlgebra.h:178-209 | a matrix that is its own inverse and gets none |
| WordEquations.TemplateIterates | rec_solver/rec_solver/core/poly_expr.py:407-413 | the k-th iterate is the expression after k branches of the word, in every state and counter |
| WordEquations.WordsAreAll | rec_solver/rec_solver/core/poly_expr.py:303-303 | every branch word of the length is enumerated |
| WordEquations.GeneralEquations | rec_solver/rec_solver/core/poly_expr.py:301-309 | the equations vanish if and only if the recurrence holds along every branch word of its order from every state |
| WordEquations.CharacteristicIsRecurrence | rec_solver/rec_solver/core/poly_expr.py:402-404 | a monic polynomial annihilates the values if and only if they satisfy the recurrence with the derived coefficients |
| WordEquations.FixedCharacteristicEquations | rec_solver/rec_solver/core/poly_expr.py:312-321 | the equations vanish if and only if the derived recurrence holds along every branch word |
| WordEquations.RecurrenceLifts | rec_solver/rec_solver/core/poly_expr.py:301-321 | a recurrence on all words of its order holds at every position of every infinite branch sequence |
| WordEquations.SameOnEveryRun | rec_solver/rec_solver/core/poly_expr.py:660-709 | with branch-independent first values the expression has the same value at step n on every branch sequence |
| WordEquations.GeometricIsLinear | rec_solver/rec_solver/core/poly_expr.py:665-667 | order one: c^n times the first value |
| WordEquations.BranchIndependentInitialValues | rec_solver/rec_solver/core/poly_expr.py:690-709 | the values computed along the first branch, exactly if the equality test finds those after all other words of each length below the order equal to them; they are then the values after all such words; with an exact test there are none exactly if some length has no common value or, beyond the first, there is no branch |
| WordEquations.SolveCFinite | rec_solver/rec_solver/core/poly_expr.py:660-686 | the closed form is the value of the expression at every step of every branch sequence from the initial values; there is one exactly if the first values are found branch-independent and, at an order other than one, the recurrence solver answers on them |
| Polynomials.SameWeight | rec_solver/rec_solver/core/bounded_cfinite.py:140-141 | linear readings, composition among them, depend only on the coefficients |
| Polynomials.ValueCompose | rec_solver/rec_solver/core/bounded_cfinite.py:140-141 | composing with a map is evaluating at its values |
| LinearDependence.MoreVectorsThanDimensions | rec_solver/rec_solver/core/bounded_cfinite.py:55-66 | more vectors than dimensions have a nontrivial dependency |
| BoundedDegree.BasisSize | rec_solver/rec_solver/core/bounded_cfinite.py:60-60 | the monomials of degree at most d in m variables number C(m + d, m) |
| BoundedDegree.BasisIsAll | rec_solver/rec_solver/core/bounded_cfinite.py:155-161 | exactly the exponents of degree at most d |
| BoundedDegree.MapDegree | rec_solver/rec_solver/core/bounded_cfinite.py:144-152 | the degree of the map, cancelled terms not counted |
| BoundedDegree.RelationShifts | rec_solver/rec_solver/core/bounded_cfinite.py:55-66 | a linear relation between iterates holds wherever it starts |
| BoundedDegree.CutoffIsComplete | rec_solver/rec_solver/core/bounded_cfinite.py:55-66 | if the first m C(m + d, m) + 1 iterates have degree at most d, all iterates have |
| BoundedDegree.IsBoundedDegreeMap | rec_solver/rec_solver/core/bounded_cfinite.py:55-66 | true if and only if every iterate has degree at most d |
| BoundedDegree.LargestBoundIs | rec_solver/rec_solver/core/bounded_cfinite.py:26-28 | the largest bound tried: a given positive one but at least the degree, else the degree to the number of variables less one; 4 for degree 2 in three variables |
| BoundedDegree.CompositionMatrix | rec_solver/rec_solver/core/bounded_cfinite.py:68-79 | column by column the truncated images of the basis monomials |
| BoundedDegree.ApplyComposes | rec_solver/rec_solver/core/bounded_cfinite.py:68-90 | the matrix is composition with the map, truncated |
| BoundedDegree.TruncateCoeff | rec_solver/rec_solver/core/bounded_cfinite.py:171-177 | coefficients up to the degree are kept, the others are zero |
| BoundedDegree.CoordinatesRoundTrip | rec_solver/rec_solver/core/bounded_cfinite.py:180-186 | a bounded polynomial is recovered from its coordinates |
| BoundedDegree.ClosedFormIsIterate | rec_solver/rec_solver/core/bounded_cfinite.py:82-90 | the n-th power of the matrix on a coordinate is that coordinate of F^n |
| BoundedDegree.ClosedFormIsLoopValue | rec_solver/rec_solver/core/bounded_cfinite.py:82-90 | read at the initial values, the closed form is the loop's value after n iterations |
| BoundedDegree.SolveBoundedMap | rec_solver/rec_solver/core/bounded_cfinite.py:16-33 | the least kept degree bound in range, with closed forms that compute the loop; nothing only if no bound in range is kept |

## Left out

- LLVM loading, passes, debug information, addresses, frames, dispatch and the remaining instructions: a
  program is a set of guarded updates, a loop nest, or the instruction set of `Instructions`.
- Solver and computer-algebra internals, their timeouts and their models of partial functions: models are
  total, and a parameter's contract stands for each tool.
- The legacy loop and function summarizers, `multivariate.py`, and the choice of search strategy in
  `poly_expr.py`: they rest on external solvers; the engine sees them only as states marked
  over-approximate, unknown or failed.
- Worker processes and their protocol, witness files, logging, rendering, statistics, command-line tools.
- `hoist_ite` on a subtraction with a conditional in a later position, and the substitution of nested
  invariant conditionals back into equations, are not meaning-preserving as written and are not modelled.
- `LinearLogic::normalize` and the linear solving of `solve_vars`.
- Overflow of `size_t` in costs, counts and positions: they are natural numbers.
- Loop and function certificates kept by the engine for correctness witnesses.
- `Engine.Engine.Run`: at most a given number of turns, because a program can have endlessly many paths;
  everything is stated for every number. The explored state is a value, not a shared object.
- `Instructions.VerifyAssertions`: memory is a vector of scalar cells, terms must have determined values,
  and the finite domains of input types are not added to the path.
- `AcceleratedRuns.PhiFollows`: that the enumerated paths describe the loop in the machine is a
  hypothesis, which `DescribedLoops.CountingLoopDescribed` shows for one program. Loops whose iterations
  read inputs are covered only through their oracle.
- `AcceleratedRuns.NestFollows`: the terms of the state mention only as many symbols as there are cells, as
  in the nest's own summary.
- `CountTemplate.NestedCountTemplate`: signed, unsigned and fixed-width comparisons of a loop header are all
  read as comparisons of unbounded integers.
- `NestedAcceleration.Explore`: the work queue of the exploration becomes recursion over the code, and the
  paths of a branch do not join again before the latch.
- `NestedAcceleration.BuildNestedSummary`: the limit of 4096 exploration steps and the caching of
  summaries are not modelled, and values met inside an iteration are always defined.
- `HeaderJumps.Accelerate`: header values are numbers. The jump of `lib/PathAccelerator.cpp` lines 1245-1252
  drops the definedness of the incoming values, which the residual keeps; neither is modelled.
- `HeaderJumps.HeaderPhi`: the transitions of a loop are given; their enumeration from the body and the
  rejection of unsupported loops are not modelled.
- `MachineIntegers.LazyIsExact`: bitvector operations and one-bit arithmetic, which the source hands to
  the solver's bitvectors, are not part of the trees; that an operand is known to be in range is a
  parameter which must be true.
- `Bitwise.IntegerBitwise`: operands are numbers; the conversion of a Boolean operand is not modelled.
- `DomainRestriction.RestrictToDomain`: the source reads the last of no cases when none is kept; here
  that is no result.
- `Cnf.ToCnf`: Boolean variables and quantified formulas, on which the atom test of the source fails, are
  not among the Boolean combinations of atoms.
- `Piecewise.Expr2Piecewise`: the order of simplification inside conditional elimination is a parameter.
- `SplitIte.SplitIteCases`: equations are a list in key order, and the simplifier must not add
  conditionals.
- `SymbolicArrays.MemoryObject.Write`: what reads and later writes give after a write that leaves
  overlapping cases is not stated, until a write of the whole object makes it right again.
- `GaussJordan.Solve`: entries are integers; symbolic entries, whose magnitudes the source can only compare
  when they simplify to a truth value, are not modelled. Rows are sequences replaced as a whole.
- `GaussJordan.Inverse`: a row and its row of the identity are kept as one row.
- `BoundedDegree.CompositionMatrix`: the basis is enumerated in another order, coefficients are real
  numbers, and the symbolic matrix power is read as repeated application.
- `BoundedDegree.SolveBoundedMap`: coefficients do not depend on the loop counter. The source accepts
  right-hand sides that mention it and composes them without advancing it; only the caller's check of the
  closed form rejects the result.
- `WordEquations.SolveCFinite`: coefficients are real numbers, and the spaces of candidate expressions are
  given.
