# Memory bus equivalence: a verified model

The repository decides whether two OpenVM circuits use the memory bus the same way. This project models the
reasoning core of that decision in Dafny and proves the claims its comments and documentation make:

- **Matching and forcing** (`Rows`, `PrefixAssignment`, `CellMatching`, `MatchingUnique`, `MemoryWorlds`, `KeyMeeting`,
  `CellChain`, `PointerSpread`, `AccessWorlds`, `ClusterEncoding`, `WorldModels`, `ForcingCover`, `Presolution`, `Forcing`,
  `SymbolicSolve`, `SolvedRows`, `ForcingExact`, `CoverExact`, `ConfusedRun`). One memory cell is a prefix-interval
  bipartite matching; its algorithm is exact by a Hall argument. With symbolic pointers a *world* fixes the bases, the
  cell every key addresses, who reads what and the timestamp witnesses; a key may fix its cell only modulo a number.
  Models of the cluster encoding are worlds of its rows and the other way round, and in both a claim fails exactly by an
  access in its way. So what is forced and what holds in every world are compared access by access.
- **Alignment** (`Align`, `Removal`, `SafeAlignment`, `RemovalExact`, `AlignSpaces`, `AlignedSolve`). An accepted
  removal takes out whole pairs of the matching; wherever the forced claims hold these are pairs of the world, and the
  rest behaves as before.
- **Virtual times** (`ClockOffsets`): exact potentials on the graph of gaps.
- **The sliced checker** (`Smt`, `ModAbstraction`, `ConeOfInfluence`, `SlicedSolving`, `SlicedChecker`,
  `ScriptSplitting`). The solver is an oracle that may answer anything at each call, except that `unsat` is given only for
  unsatisfiable assertions and `sat` comes with a model. Verdicts are right on every run, through growth, restarts,
  learning, escalation, refinement and the `mod` abstraction.
- **Field facts** (`Residues`, `Primes`, `Sums`, `FieldForms`, `LinearForms`, `FieldGadgets`, `MultEvidence`,
  `RangeEvidence`, `FieldBounds`, `BoundSeeds`, `ClockDomain`, `FieldWindows`, `RecvUppers`, `AffineGadgets`). Equations modulo an
  arbitrary prime are read as integer facts by window arguments, residue enumeration and fixpoints; columns take
  values in `[0, p)`.
- **Propagation** (`FlagEvaluation`, `FlagRefutation`, `Propagation`, `FlagDecisions`, `FieldRewriting`,
  `SimplifiedForms`, `FlagExpressions`).
- **Plain permutation encoding** (`Connectives`, `PlainMemory`, `Bags`, `BusConservation`, `IoRelation`, `RelationExact`). Satisfying
  assignments conserve the bus, and related circuits have the same effect on it.
- **Fixpoints beside it** (`BooleanPropagation`, `RangeInference`, `PlainRanges`, `LinearTerms`, `ModulusBounds`,
  `InterfacePointer`).

Lemmas named `...Exactly` say what a computation finds, both ways, without saying how it is found.
`Wrappers` and `Sets` hold general helpers. `dafny verify dfyconfig.toml` checks the project.

## Hypotheses

They appear as `requires` where they are needed.

- Forced claims of groups that may alias: accesses are paired. Every receive has its own send in the same group, with its
  threshold one below that send's virtual time, and access times are distinct. Cells that alias with no other, and spaces
  of constant keys, need neither.
- One modulus per base and offset, within a cluster, for its pre-solution to be a model.
- Match candidates are listed on both sides, as ruling out a pair leaves them; with one-sided lists nothing would be
  conserved (`BusConservation.AsymmetricListsBreakConservation`).
- A checker runs once. `SlicedChecker.Checker.Run` also says what is left of its promises on a used one.
- The decode is affine in `is_load` (`FlagRefutation.LoadPinHolds`). Without it a pin can be wrong.
- Simplifiers are equivalence-preserving, introduce no symbols, and eliminate what they substitute.
- Deciding constraints contain no node the evaluator raises on; a run that raises returns nothing.

## Where the code does less than its documentation says

Each point names a concrete input or run, and the condition under which the code is right.

- A balanced cell with a solution is declined (`CellMatching.DeclinesOpenCell`) exactly when no receive is at the boundary
  (`DeclinedExactly`).
- Keys that differ in their modulus only share a pointer expression (`Presolution.MixedModuliShareAPointer`); the
  pre-solution is a model of the encoding exactly when no two groups do (`PresolutionIffDistinctKeys`).
- Keys of one base with different moduli stay uncertain, but the encoding keeps their pointers apart whenever their
  offsets differ. A run on a key at offset 65532 modulo 65536 and an exact one at offset -4 marks a claim forced that is
  false in a world with both at one cell (`ConfusedRun.MixedModuliForceFalsely`; base value 65536 puts both at 65532,
  `MixedAreConfusable`). Two keys are confusable when they have one base, different moduli, different offsets, and offsets
  congruent modulo the common divisor of the moduli, an exact key counting as modulus 0. Over all rows, forced claims about
  a group hold in every world, or in every one with cells in `[0, p)`, exactly when no key is confusable with its own
  (`ForcingExact.ForcingSoundExactly`), and taking forced pairs out is safe exactly then
  (`RemovalExact.RemovalSoundExactly`, `AlignedSolve.Run`). That the models cover every world
  (src/membus/smtsolve.py:28-34) is true of exactly the keys of `CoverExact.CoverSoundExactly`.
- The rescan over a frontier and the index differ on seeds with boundary variables (`ConeOfInfluence.BoundarySeedDiffers`);
  `IndexAgreesWithRescan` says exactly when they agree.
- With recording of unknown disjuncts capped at 0, `run` can fail its final assertion (`SlicedChecker.CapZeroAborts`);
  `Checker.Run` says exactly when a first run does.
- A packed pointer equality is split on guarded boxes equivalently for all of them exactly when the offset is not negative
  (`InterfacePointer.GuardExact`); for given limbs it is enough, and with full low limbs necessary, that they pack below
  the prime (`SplitEquality`, `FullBoxExact`).
- A scaled bound is read off a `mod` by any number (`InterfacePointer.OtherModulusEscapes`); off one by a constant it is
  right exactly when that is a multiple of the prime, or says nothing (`ScaledBoundExactly`).
- A bound on a bare limb is used for its residue, and a run then emits a false range (`RangeInference.NegativeLimbEscapes`);
  with `0 <= limb` stated beside every such bound all facts hold (`Infer`, `GuardedAreNonNegative`).
- `surviving_envs` does not ask whether the deciding constraints are covered, unlike the flag and selector refutations, so
  a free column can make a pointer value wrong (`FlagExpressions.UncoveredDecodeEscapes`); covered accesses are right
  (`RefutedExprHolds`, `SimplifyRows`).
- A decode that is not affine in the selector can pin it wrongly (`FlagRefutation.QuadraticDecodeEscapes`); an affine one
  cannot (`LoadPinHolds`).
- The bound oracle compares upper ends only, so one more seed can give a wider bound (`BoundSeeds.EarlierSeedLoosens`);
  `LoosensExactly` says exactly when.

## Model

| member | source | states |
|---|---|---|
| CellMatching.PrefixMatching | src/membus/solve.py:185-228 | The matching of one cell is exact: the error is raised exactly on two writes at one time; each note holds exactly in its case (in particular `infeasible` exactly when, with one boundary receive and balanced counts, no solution exists); a clean result is a solution with its readers and its one unread send, the edges taken from the receive with fewest sends upwards, each with the latest send that is still free; `unique` holds exactly when it is the only solution |
| CellMatching.Greedy | src/membus/solve.py:212-224 | In ascending cutoff order every receive takes the latest send in its prefix that no earlier one took, so that the edges are placed injectively; the loop stops exactly at a receive whose prefix is used up, and then Hall's condition fails |
| MatchingUnique.OutcomeIsDetermined | src/membus/solve.py:185-228 | For sends at different times, what is promised of a matching determines it: note, uniqueness, edges in order, readers, input and output |
| CellMatching.SolvableIffHall | src/membus/solve.py:202-219 | With one boundary receive, a solution exists exactly when the sorted cutoffs satisfy Hall's condition for nested prefixes |
| CellMatching.UniqueIffOnly | src/membus/solve.py:204-207 | The cutoff test `2, 3, ...` holds exactly when the cell has one solution, compared with every solution and every choice of input |
| CellMatching.BoundaryIsExact | src/membus/solve.py:201-204 | The boundary list is the set of receives that no send of the cell can feed |
| CellMatching.DeclinedExactly | src/membus/solve.py:209-210 | A balanced cell with a solution is declined exactly when no receive is at the boundary |
| CellMatching.DeclinesOpenCell | src/membus/solve.py:209-210 | A run on a concrete balanced cell with a solution that is declined for want of a boundary receive |
| PrefixAssignment.UniqueIffTight | src/membus/solve.py:205-207 | For ascending cutoffs, `c_i == i + 2` characterizes the feasible cutoff lists with exactly one injective assignment |
| MemoryWorlds.DisjointIsSound | src/membus/solve.py:374-386 | Provably disjoint keys address different cells under every base value, also when a key fixes its address only modulo its modulus |
| KeyMeeting.MeetsExactly | src/membus/solve.py:374-386 | Two keys of one base can address one cell exactly when their offsets are congruent modulo the common divisor of their moduli, an exact key counting as modulus 0 |
| KeyMeeting.DisjointExactly | src/membus/solve.py:374-386 | Keys count as provably disjoint exactly when they are constants, or offsets under one base and one modulus, and no values of the bases give both one address |
| CellChain.RoutingIsChain | src/membus/smtsolve.py:19-26 | For paired accesses, any routing with one entry and one exit per address makes every access read the access just before it at that address |
| CellChain.RestrictionAgrees | src/membus/smtsolve.py:28-34 | Where a subset of accesses contains the whole cell of an access, its chain reads there what any routing of the full bus reads, even with the subset's other accesses moved to other cells |
| AccessWorlds.ClaimExactly | src/membus/smtsolve.py:19-26 | In every valid world of paired accesses a claim is true exactly when no access at the cell comes between, before or after its rows |
| AccessWorlds.ChainWorldValid | src/membus/smtsolve.py:19-26 | Whatever cells the groups address, reading the last access before at the cell is a valid world |
| PointerSpread.MeetingExactly | src/membus/smtsolve.py:105-111 | Base values under which exactly the pointers at one cell of a world meet exist exactly when, at that cell, equal bases mean equal offsets and the other way round |
| ClusterEncoding.EncodeRecv | src/membus/smtsolve.py:118-138 | What is asserted for one receive holds in exactly the valuations that respect its threshold, its input rule, its match rules and exactly-one |
| ClusterEncoding.EncodePairs | src/membus/smtsolve.py:147-161 | The pairwise constraints hold exactly when no two inputs (or outputs) that may alias share a pointer |
| ClusterEncoding.Encode | src/membus/smtsolve.py:113-164 | The models of everything asserted are exactly the cluster models |
| WorldModels.WorldIsModel | src/membus/smtsolve.py:113-164 | Every valid world with as many receives as sends induces a model of the encoding of its rows |
| WorldModels.ModelIsWorld | src/membus/smtsolve.py:113-164 | Every model of the encoding of the rows is a valid world of them, with the same inputs, outputs and matches |
| ForcingCover.ForcedExactly | src/membus/smtsolve.py:191-197 | All models of the cluster encoding of paired accesses make a claim true exactly when no access of the cluster whose pointer can equal the group's blocks it |
| Forcing.ForceGroup | src/membus/smtsolve.py:83-197 | Every mined claim gets a verdict; a forced claim holds in every model of the cluster encoding, and with a solver that decides exactly those are forced; the two errors mean that no model exists and that no model satisfies the mined claims together, and come exactly then when the solver decides |
| SymbolicSolve.EntailedHoldsHere | src/membus/smtsolve.py:28-43 | A claim entailed by the cluster encoding of paired accesses holds in every world of the whole bus in which no key confusable with the group's addresses its cell |
| ForcingExact.WorldsExactly | src/membus/smtsolve.py:28-43 | A claim holds in every world of the rows exactly when no access that blocks it has a key that can address the group's cell |
| ForcingExact.ForcingSoundExactly | src/membus/smtsolve.py:28-43 | Over all rows with given keys, entailed claims about a group hold in every world exactly when no key of its base has another modulus and another, congruent offset; the premise that all cells lie in `[0, p)` does not change that |
| ConfusedRun.MixedModuliForceFalsely | src/membus/solve.py:389-491 | A run of the solve on two keys of one base with different moduli that marks a claim forced which a world with all cells in `[0, p)` falsifies |
| CoverExact.CoverSoundExactly | src/membus/smtsolve.py:28-34 | Over all rows with given keys, every world has a model of the group's encoding that agrees with it on all claims about the group, exactly when no two keys of one base with different moduli can address one cell, the first being the group's own or of another base than its |
| Presolution.PresolutionIffDistinctKeys | src/membus/smtsolve.py:173-187 | For solved groups, all mined claims have a common model of the encoding exactly when no two groups carry the same pointer expression |
| Presolution.SharedPointerRefutes | src/membus/smtsolve.py:173-187 | Two solved groups with one pointer expression leave the pre-solution without a model |
| Presolution.OneModulusPerPointer | src/membus/solve.py:380-386 | With one modulus per base and offset, different keys give different pointer expressions |
| Presolution.MixedModuliShareAPointer | src/membus/solve.py:380-386 | Keys of one base with different moduli are different, may address different cells, and share one pointer expression |
| SymbolicSolve.ComputeUncertain | src/membus/solve.py:458-463 | The pair loop relates exactly the groups whose keys are not provably disjoint, in both directions |
| SymbolicSolve.PlacedIsComplete | src/membus/solve.py:374-386 | In every world groups that share a cell are related as uncertain, also when keys fix addresses only modulo their modulus |
| SymbolicSolve.UniqueCellIsForced | src/membus/solve.py:479-483 | A group that aliases with no other and is matched uniquely has all its claims true in every world, without pairing the accesses |
| SymbolicSolve.NoDisagreement | src/membus/smtsolve.py:181-187 | When every group of a cluster is clean and its keys of one base and offset have one modulus, all its mined claims have a common model of the encoding, so the disagreement error cannot be reached for it, whatever the rest of the space |
| SymbolicSolve.UnmatchedMeansUnpaired | src/membus/smtsolve.py:182-184 | An unsatisfiable cluster encoding means that the rows do not come in paired accesses, whatever the keys |
| SymbolicSolve.SolveSymbolic | src/membus/solve.py:389-515 | The whole symbolic solve: exact matchings; every claim marked forced holds in every world where no confusable key is at its cell, and with a solver that decides the forced claims of a cluster within the size limit are exactly the entailed ones; in a larger cluster none is; the error on simultaneous writes comes exactly in its case and the others only in theirs, disagreement only for a clean group whose cluster has an unclean group or two keys of one base and offset with different moduli |
| SymbolicSolve.ConstantCellsForced | src/membus/solve.py:322-367 | In a space of constant keys, uniqueness of a cell entails its claims in every world, without pairing the accesses |
| SolvedRows.BuildRows | src/membus/solve.py:493-508 | Every row reports its place in its cell's matching and is marked forced exactly when the claims it rests on are |
| Align.Index | src/membus/align.py:114-124 | The index fails exactly when two rows share a key, and otherwise maps every key to its row |
| Align.CrossMatch | src/membus/align.py:127-164 | Ambiguity is reported exactly when two rows of a side have one effect and stamp, or two left-over sends one known virtual time; otherwise kept rows are exactly the partners, of equal effect and stamp or, among left-over sends, of equal known virtual time, and removed and added rows are the rest |
| Align.KeptIsBijection | src/membus/align.py:127-196 | When nothing was added, the kept map is a bijection from the unremoved rows onto the rows after the pass and partners agree on their effect |
| Removal.SelfBalances | src/membus/align.py:213-236 | The loop accepts exactly the removals in which every active row has a forced local connection to a removed partner |
| Removal.CellPairsOff | src/membus/align.py:213-236 | In each cell of an accepted removal the removed receives read exactly the removed sends |
| Removal.PairedOffBalances | src/membus/align.py:213-236 | Where a cell's removed receives read exactly its removed sends by forced edges, the check accepts every removed row of the cell |
| Removal.PutBack | src/membus/align.py:213-236 | Any solution of the survivors, with the removed pairs put back, solves the whole cell |
| Removal.SurvivorsRematch | src/membus/align.py:213-236 | Matching the survivors of a unique cell again gives a unique solution with the same input, the same output and exactly the surviving edges |
| SafeAlignment.RemovalKeepsWorld | src/membus/align.py:213-236 | Taking read pairs out of a valid world leaves a valid world with the same entry reads, the same escaping sends and the same remaining reads |
| SafeAlignment.SafeRemoval | src/membus/align.py:198-236 | An accepted removal on the strength of forced rows leaves every world intact in which no confusable key is at the cell of a group it touches; with groups that alias with no other, every world |
| RemovalExact.IntactExactly | src/membus/align.py:198-236 | A world keeps its entry reads, escaping sends and remaining reads without some rows exactly when the removed receives read exactly the removed sends there |
| RemovalExact.RemovalSoundExactly | src/membus/align.py:198-236 | Over all rows with given keys, taking forced pairs of a group out leaves every world intact exactly when no key is confusable with the group's, also when all cells lie in `[0, p)` |
| SafeAlignment.RemovedPairsCount | src/membus/align.py:260-261 | An accepted removal takes as many receives as sends |
| SafeAlignment.BalancedExactly | src/membus/align.py:213-236 | A removal is accepted exactly when in every cell the removed receives read, by forced edges, exactly the removed sends |
| AlignSpaces.CountPairs | src/membus/align.py:238-263 | The pair count is the number of removed receives that read a local send |
| AlignSpaces.Compute | src/membus/align.py:192-266 | The alignment of one space is rejected exactly on an empty space, an ambiguous match, an added row or an unjustified removal; otherwise it reports the match, the removal and both counts |
| AlignedSolve.Run | src/membus/align.py:167-263 | Solving a space and aligning it: it is rejected exactly on an empty space, an ambiguous match, an added row, or an active removal that no solve, or none with every cell unique in the first space, pairs off by forced edges in every cell; whatever an accepted alignment removes, every world keeps its entry reads, escaping sends and remaining reads if no group touched has a confusable key, and otherwise every world in which none is at its cell; in the first space no pairing of accesses is needed |
| ClockOffsets.Explore | src/membus/order.py:58-72 | The traversal reaches exactly the component of its root; without a conflict every satisfying time assignment agrees with it up to one constant, and a conflict means that none exists |
| ClockOffsets.Offsets | src/membus/order.py:42-78 | A component gets offsets exactly when some integer valuation satisfies all its gaps; they satisfy every gap, have minimum 0, and every satisfying valuation is those offsets plus one constant |
| ClockOffsets.SendOffsets | src/membus/order.py:81-101 | Offsets are resolved exactly when every send clock lies in one conflict-free component, and then for the columns of that component |
| ClockOffsets.ResolvedAreExact | src/membus/order.py:81-101 | Resolved columns differ by the difference of their offsets in every time assignment that satisfies the gaps |
| ClockOffsets.RecvThreshold | src/membus/solve.py:155-166 | The threshold is the least resolved bound, or absent when none resolves |
| ClockOffsets.ThresholdIsIntersection | src/membus/solve.py:155-166 | A witness meets the threshold exactly when it meets every resolved bound |
| ModAbstraction.Rewrite | src/check/sliced.py:207-228 | The stack-and-memo loop computes the structural replacement of every `mod`, whatever the memo already holds |
| ModAbstraction.AxiomsTrueOfMod | src/check/sliced.py:244-250 | Both axiom instances are true of the real `mod` |
| ModAbstraction.ViolatedIffAxiomFails | src/check/sliced.py:268-277 | The test on the values read back flags an application exactly when the model falsifies one of its axioms |
| ModAbstraction.AbstractionRefines | src/check/sliced.py:190-202 | Every model of the formulas extends to a model of the rewritten formulas plus any set of axiom instances |
| ModAbstraction.RefutationTransfers | src/check/sliced.py:849-871 | A refuted abstraction, in whichever round, refutes the original formulas |
| ModAbstraction.ClosedAbstract | src/check/sliced.py:821-871 | The refinement loop answers refuted only when the original formulas have no model, on every run of an arbitrary solver; with one that refutes all it can, it answers otherwise only if the abstraction has a model, and one of all axioms where there are at most 4000 applications |
| ConeOfInfluence.LeastClosedIsCone | src/check/coi.py:63-81 | The least set closed under picking is the set of constraints reachable by a chain of shared non-boundary variables |
| ConeOfInfluence.ConstraintIndex.SliceIndices | src/check/coi.py:63-81 | The index returns exactly the constraints reachable from the seed through non-boundary variables |
| ConeOfInfluence.SeedIsCacheKey | src/check/coi.py:56-61 | The cone of a formula depends on its slice seed alone |
| ConeOfInfluence.ConeViaFrontier | src/bus_interactions/memory_plain_utils.py:50-83 | The rescan returns exactly the constraints in the cone through frontier variables, in order |
| ConeOfInfluence.IndexAgreesWithRescan | src/check/coi.py:63-81 | With the frontier convention inverted, index and rescan agree exactly when every constraint mentioning a boundary variable of the seed is reachable from the rest of the seed; the rescan never picks less |
| ConeOfInfluence.SliceSeedAgrees | src/check/coi.py:56-61 | On the seed of a formula both agree |
| ConeOfInfluence.BoundarySeedDiffers | src/check/coi.py:63-81 | A seed with a boundary variable on which they differ |
| SlicedSolving.ClassifyOmitted | src/check/sliced.py:1006-1033 | Reported, in order, are exactly the omitted constraints that simplify to false under the model's values, up to the batch size, and the model falsifies them; nothing is reported and none counted as undetermined exactly when every omitted constraint simplifies to true, and then all hold under the model |
| SlicedSolving.RunCegar | src/check/sliced.py:957-1004 | Refuted only when the context with the disjunct has no model; a validated model satisfies the whole context and the disjunct; a first model under which every omitted constraint simplifies to true is validated; when the first model falsifies omitted constraints and the solver refutes with those reported added, the disjunct is refuted |
| SlicedChecker.InsertAscends | src/check/sliced.py:1080-1088 | Batches stay in ascending order of slice size |
| SlicedChecker.InsertStable | src/check/sliced.py:1088 | A batch is inserted behind all that are not larger and before all that are, so batches of one size keep their order |
| SlicedChecker.ComputeClosedSlice | src/check/sliced.py:700-729 | The closed slice is exactly the constraints with variables, all of them in the disjunct or witnesses beside it |
| SlicedChecker.Checker.GrowSolverFor | src/check/sliced.py:643-671 | After any growth or restart the solver holds just the constraints it is said to hold, all it held and the slice, or the slice alone where that would be more than the factor times the slice, and learned consequences of the context |
| SlicedChecker.Checker.SliceFor | src/check/sliced.py:688-698 | The cached slice is the cone of the seed |
| SlicedChecker.Checker.ClosedSlice | src/check/sliced.py:700-729 | The cached closed slice is the closed slice of the disjunct |
| SlicedChecker.Checker.TryStrategy | src/check/sliced.py:795-819 | Every fallback strategy answers refuted only when the context with the disjunct has no model; with a one-shot solver that refutes all it can, it gives up only on what is satisfiable: the closed slice's abstraction, the closed slice, or the given constraints with the disjunct |
| SlicedChecker.Checker.SolveUnder | src/check/sliced.py:873-955 | Its outcome is sound and the solver is back at its base assertions afterwards, on every path; given just the constraints considered, learned negations and the disjunct, what the solver refutes is refuted, and what it answers with a model that validates is decided |
| SlicedChecker.Checker.Ladder | src/check/sliced.py:1206-1253 | The rungs end in a sound outcome that is never a slice-level candidate; a solver that always decides leaves nothing unknown; what stays unknown the solver neither refutes nor satisfies with a model that validates on any rung, the primary one, the slice beside the memory argument if it is small, and the whole context, each given just its constraints, learned negations and the disjunct; beside a one-shot solver that refutes all it can it is satisfiable with the whole context (where the retry tactic is on) and with its closed slice |
| SlicedChecker.Checker.Learn | src/check/sliced.py:1165-1171 | Teaching the negation of a refuted disjunct keeps every solver's assertions consequences of the context |
| SlicedChecker.Checker.Run | src/check/sliced.py:1053-1204 | On every run, `sat` comes with a model of the context and a disjunct; `unsat`, on a new checker or one that records unknown disjuncts, only when no disjunct is satisfiable with the context; the record of unknowns grows by exactly the disjuncts the ladder gave up on, in turn and each once, up to the cap, none of them syntactically false; on a first run without a satisfied disjunct the verdict is `unsat` when none is left, else the failing assertion when recording is capped at 0, else unknown; every disjunct left is one that the solver neither refutes nor satisfies with a model that validates on any rung that its own slice leads to, and, beside a one-shot solver that refutes all it can, one that is satisfiable with the whole context (where the retry tactic is on) and with its closed slice; a solver that always decides leaves none, and the verdict under one that never decides is determined |
| SlicedChecker.Checker.FirstRecord | src/check/sliced.py:1180-1192 | On a first run the record holds all disjuncts given up on when the cap is negative, and the first so many when it is not, without repetition |
| SlicedChecker.CapZeroAborts | src/check/sliced.py:1183-1201 | A first run that reaches the failing assertion: one disjunct, a solver that gives up, recording capped at 0 |
| SlicedChecker.Checker.VerdictOnGoal | src/check/sliced.py:1053-1204 | A sound verdict speaks about the context with the disjunction of all goals |
| ScriptSplitting.Flatten | src/check/sliced.py:389-403 | Flattening keeps the meaning and yields distinct conjuncts that are not conjunctions |
| ScriptSplitting.SplitScript | src/check/sliced.py:382-409 | Context and goal together are equivalent to the script; the goal is a largest disjunction, and there is none exactly when no conjunct is a disjunction of two or more |
| Connectives.ExactlyOneMatchMeans | src/bus_interactions/permutation_check.py:151-165 | With all its shortcuts the constraint holds exactly when one of the literals does |
| PlainMemory.BuildMatchVars | src/bus_interactions/permutation_check.py:103-148 | The table holds for every pair false where it is no candidate, true where it is the only one, false where constants exclude it, and a symbol of its own otherwise |
| PlainMemory.StaticExactly | src/bus_interactions/permutation_check.py:55-75 | The static test finds exactly the pairs with a multiplicity that is the constant zero, constant multiplicities that do not cancel, or constants at one place with different residues |
| PlainMemory.StaticPresetsLoseNothing | src/bus_interactions/permutation_check.py:55-75 | A pair preset to false could not have been matched by any assignment with multiplicities in range |
| PlainMemory.Encode | src/bus_interactions/permutation_check.py:803-914 | An assignment satisfies the encoding up to the exactly-one constraints exactly when it is a plain model: multiplicities, self-matches, pair matches and exactly-one |
| BusConservation.PartnerInvolution | src/bus_interactions/permutation_check.py:803-914 | In a plain model with symmetric candidates, partners form an involution on the interactions |
| BusConservation.PartnersBalance | src/bus_interactions/permutation_check.py:874-905 | Two different partners carry equal arguments and opposite nonzero multiplicities |
| BusConservation.Conservation | src/bus_interactions/permutation_check.py:803-914 | Sent records plus inputs equal received records plus outputs, as multisets |
| BusConservation.RemoveMatch | src/verify/membus_analysis.py:569-571 | Ruling out a pair keeps the candidate sets symmetric and removes exactly that pair |
| IoRelation.Relate | src/bus_interactions/permutation_check.py:235-323 | An assignment satisfies the relation exactly when linked rows carry one record and linking is one-to-one and covers all I/O rows of both circuits; the link literals are those prealignment prescribes, false where the records differ outright, and symbols otherwise |
| RelationExact.RelatableExactly | src/bus_interactions/permutation_check.py:235-323 | With link symbols that occur nowhere else, they can be chosen to satisfy the relation exactly when the records of the two circuits correspond one-to-one, all I/O rows on both sides and prealigned rows as they are aligned |
| IoRelation.FlagsCarry | src/bus_interactions/permutation_check.py:235-316 | The relation carries the flagged rows of one circuit bijectively onto those of the other, records included |
| IoRelation.SameNetEffect | src/bus_interactions/permutation_check.py:235-316 | Related circuits whose buses are conserved have equal inputs, equal outputs and the same net effect |
| IoRelation.RelatedCircuitsAgree | src/bus_interactions/permutation_check.py:169-323 | Both plain encodings and the relation together give equal input records, equal output records and the same net bus effect |
| BooleanPropagation.RunRound | src/bus_interactions/memory_plain_utils.py:168-186 | One round over the affected conjuncts keeps the meaning, every index and pending invariant, and the record of all formulas that came up with its conflicts |
| BooleanPropagation.Propagate | src/bus_interactions/memory_plain_utils.py:113-188 | The output has the models of the input; the literals are over different symbols, and behind them no conjunct mentions a learned symbol, is true or is a unit; whenever opposite units or a false come up, among the conjuncts or by substitution on the way, a false is left; it terminates |
| RangeInference.VisitSound | src/bus_interactions/openvm_memory.py:632-662 | Syntactic bounds hold wherever the constraints do |
| RangeInference.TableIsLeast | src/bus_interactions/openvm_memory.py:627-663 | A term is in the table exactly when a formula states a bound on it unconditionally, through conjunctions and implications with a guard that simplifies to true, `t <= c` stating c and `t < c` stating c - 1, and its entry is the least bound stated |
| RangeInference.MatchesAreNotExcluded | src/bus_interactions/openvm_memory.py:730-772 | Interactions that match in a model, read after written, are never excluded |
| RangeInference.ExcludedExactly | src/bus_interactions/openvm_memory.py:730-772 | The test rules a pair out exactly when known multiplicities do not cancel, a read is not after a write, or some argument differs by constants or by a difference that simplifies to a nonzero constant residue |
| RangeInference.WithinCasesExactly | src/bus_interactions/openvm_memory.py:791-826 | A limb's bound is as tight as the join over the cases of its read exactly when it is not above any number that bounds a byte input and every row not excluded |
| RangeInference.Fixpoint | src/bus_interactions/openvm_memory.py:799-826 | In every model whose reads are byte inputs or take the data of a partner that is not excluded, all limb bounds hold after every pass, cyclic partners included; the passes terminate with the loosest table that is inside the base bounds, shares bounds between limbs of one term and bounds every read by its worst case |
| RangeInference.LoosestIsUnique | src/bus_interactions/openvm_memory.py:799-826 | There is only one such table, so updating bounds in place during a pass does not change the outcome |
| RangeInference.Infer | src/bus_interactions/openvm_memory.py:664-870 | The table of syntactic bounds is exactly the least stated ones; every emitted fact holds in all those models, without a hypothesis on signs when every bare bounded limb is also stated non-negative, and with the base bounds what is emitted tells every bound of the loosest stable table |
| RangeInference.GuardedAreNonNegative | src/bus_interactions/openvm_memory.py:641-662 | Limbs bounded without `mod` are non-negative in every model of constraints that also state `0 <= limb`, or a larger lower end, unconditionally |
| RangeInference.NegativeLimbEscapes | src/bus_interactions/openvm_memory.py:777-843 | The inference run on a bound of a bare limb without `0 <= limb` emits a range that fails in a concrete model |
| PlainRanges.PlainModelsRead | src/bus_interactions/openvm_memory.py:667-690 | In every model of the plain encoding with byte inputs and reads after writes, each read takes a byte input or the data of a partner that is not excluded |
| PlainRanges.FactsAreConsequences | src/bus_interactions/openvm_memory.py:683-688 | So every emitted fact is a consequence of the plain encoding |
| InterfacePointer.BoundOf | src/bus_interactions/openvm_memory.py:921-956 | The bound of a limb is the least of its direct bound and of all its scaled range checks that do not wrap |
| InterfacePointer.CandidateExactly | src/bus_interactions/openvm_memory.py:921-956 | The bounds compared are exactly that of the residue, or that of the symbol where the residue has none, and the limits of checks `(c * x) mod n` with `c` a unit, times the inverse of `c`, that stay below the prime |
| InterfacePointer.CandidateHolds | src/bus_interactions/openvm_memory.py:921-956 | Each of those bounds the limb's field value in every model of the bounds, if those read off scaled checks are right |
| InterfacePointer.ScaledBoundExactly | src/bus_interactions/openvm_memory.py:939-955 | The bound read off a check by a constant modulus holds in every model of the check exactly when the modulus is a nonzero multiple of the field's prime, the limit is negative and the modulus nonzero, or the bound is the largest residue |
| InterfacePointer.OtherModulusEscapes | src/bus_interactions/openvm_memory.py:939-945 | Bounds collected from `t mod 5 <= 2` bound the limb by two, while seven meets the constraint |
| InterfacePointer.GuardExact | src/bus_interactions/openvm_memory.py:959-994 | The guard makes packing injective on all boxes exactly when the offset is not negative; with a negative offset the limbs of the prime itself pass it and collide with zero |
| InterfacePointer.FullBoxExact | src/bus_interactions/openvm_memory.py:959-994 | For two boxes with full low limbs, packing is injective exactly when both pack below the prime, whatever the offset |
| InterfacePointer.LimbsExactly | src/bus_interactions/openvm_memory.py:974-989 | A side splits into limbs exactly when its linear form is `lo + 65536 * hi + offset`, in either order |
| InterfacePointer.SplitEquality | src/bus_interactions/openvm_memory.py:959-994 | A split is given exactly when the shapes match, all limbs are bounded and the guard admits the offset; then the limb equalities imply the packed one, and are equivalent to it in every model of both sides' bounds for a non-negative offset or limbs that pack below the prime |
| FieldForms.CanonUnique | src/membus/linform.py:28-30 | Two integers have one signed representative exactly when they are congruent |
| FieldForms.ParseLinValue | src/membus/linform.py:96-137 | A parsed form is canonical and congruent to its expression in every environment |
| LinearForms.ParseLinExactly | src/membus/linform.py:96-137 | An expression parses exactly when it is linear, every product having a side without columns, and its form is the one canonical form congruent to it in every environment |
| LinearForms.FormIsUnique | src/membus/linform.py:34-58 | Canonical forms congruent in every environment are equal |
| FieldForms.SubstValue | src/membus/linform.py:70-79 | Substituting pins that hold modulo the prime keeps the value modulo the prime |
| FieldForms.SubstColumns | src/membus/linform.py:70-79 | Substitution removes exactly the pinned columns from the support and stays canonical |
| FieldForms.ProductVanishes | src/membus/linform.py:149-156 | Modulo a prime, the flattened product vanishes exactly when a factor does |
| LinearTerms.LinearFormValue | src/smt/utils.py:173-203 | A linear form has the value of its term in every model, with distinct symbols |
| LinearTerms.LinearFormExactly | src/smt/utils.py:173-203 | A term has a linear form exactly when it is built from constants, symbols, sums, differences of two and products with at most one factor that is no constant; the form mentions exactly its symbols |
| FieldGadgets.SingleColExact | src/membus/rules.py:113-123 | A single-column form vanishes exactly at the residue read off it |
| FieldGadgets.ScaledBound | src/membus/rules.py:522-527 | A scaled residue in `[0, hi]` confines the column to `[0, s*hi]` when that does not wrap |
| FieldGadgets.DomainGadget | src/membus/linform.py:159-186 | A gadget is recognized exactly when all factors are one column minus deltas and the deltas are a permutation of `0 .. n-1` |
| FieldGadgets.FactorDeltaExactly | src/membus/linform.py:164-180 | A factor of a gadget is exactly a column, with delta zero, or a column less a constant |
| FieldGadgets.DomainMeans | src/membus/linform.py:159-186 | The gadget vanishes exactly when its column lies in `[0, n)`, for every `n` |
| FieldGadgets.BooleanProductMeans | src/membus/rules.py:566-574 | The recognized two-factor product vanishes exactly when its column is 0 or 1 |
| FieldGadgets.BooleanProductExactly | src/membus/rules.py:566-574 | The two-factor product recognized as boolean is exactly one whose sides parse to `x` and `x - 1` |
| MultEvidence.ConstPins | src/membus/rules.py:198-213 | The fixpoint pins hold in every model, and no constraint is left that pins another column |
| MultEvidence.SingleSources | src/membus/rules.py:215-224 | A column has a single-column source exactly when some constraint gives one, and the first such constraint is kept |
| MultEvidence.BuildIndex | src/membus/rules.py:187-195 | The index lists exactly the constraints with each support |
| MultEvidence.LookupSubsets | src/membus/rules.py:278-281 | The subset lookups find exactly the constraints whose support after substitution is the residual's |
| MultEvidence.WalkIndex | src/membus/rules.py:282-287 | Walking the index finds the same constraints |
| RangeEvidence.Proportional | src/membus/rules.py:91-110 | The loop returns the common ratio or nothing |
| RangeEvidence.RatioMeans | src/membus/rules.py:91-110 | A ratio is found exactly when one coefficient vector is that field multiple of the other over the same columns |
| RangeEvidence.QualifiedIsCandidate | src/membus/rules.py:263-273 | Only constraints with the residual's support can prove anything about it |
| RangeEvidence.RangeMultEvidence | src/membus/rules.py:226-296 | The indexed search returns exactly what a linear scan of all constraints in index order returns, in every branch |
| RangeEvidence.ScanFinds | src/membus/rules.py:288-296 | The scan returns the first qualifying constraint, and nothing only when there is none |
| RangeEvidence.EvidenceProves | src/membus/rules.py:226-296 | Returned evidence proves the multiplicity nonzero modulo the prime in every model, and where it rests on the selector, in every model with the selector at one |
| RangeEvidence.DisabledIsZero | src/membus/rules.py:241-243 | A row declined as disabled has multiplicity zero in every model |
| FieldBounds.ConstraintSeed | src/membus/rules.py:550-574 | The bound is seeded exactly as the constraint's shape (single column, gadget, boolean product) says, and holds in every model of that constraint |
| FieldBounds.RowSeedsSound | src/membus/rules.py:511-535 | The bounds a sent range-check row seeds hold wherever its check does |
| FieldBounds.RowSeedsExactly | src/membus/rules.py:511-535 | A row seeds exactly: below a scaled power of two that stays below the prime, the column of a variable range check with a width under 31; a byte, each of the first two operands of a bitwise row; non-negative, each operand of a tuple check that is a column |
| FieldBounds.LinksExactly | src/membus/rules.py:385-398 | The links to close over are exactly the equations with two columns, coefficients one and minus one in either order, read both ways |
| FieldBounds.Close | src/membus/rules.py:585-602 | The closure is a number of sweeps over the links, in order, each moving every interval that stays in one period and has a lower upper end; it keeps bounds sound with non-negative lower ends, raises no upper end, leaves nothing to propagate, and terminates because every changing pass lowers the total of the upper ends |
| FieldBounds.ComputeBounds | src/membus/rules.py:482-602 | Every bound holds in every model in which the granted bounds hold, no seed of a row, a grant or a constraint is missed, and the result is that of sweeping over the links from the seeds put in order until nothing is left to propagate |
| BoundSeeds.SeededLeast | src/membus/rules.py:498-503 | After the seeds, a column's bound is that of a seed with the least upper end |
| BoundSeeds.LoosensExactly | src/membus/rules.py:498-503 | One more seed, anywhere, never raises an upper end, and lowers a lower end exactly when it is strictly below all seeds before it, not above any after it, and has a smaller lower end |
| BoundSeeds.OneEndUnordered | src/membus/rules.py:498-503 | With one lower end throughout, the bounds do not depend on the order of the seeds |
| BoundSeeds.EarlierSeedLoosens | src/membus/rules.py:498-503 | A run of the oracle with `x*(x-1)` before `x-1` answers `[0, 2)`, and without it `[1, 2)` |
| ClockDomain.TsDomain | src/membus/rules.py:400-470 | All timestamp bounds hold once the granted columns are below 2^29; only slot columns and targets of backward links are granted; clocks and witnesses are disjoint; every send slot's clock and every witness ends at or below the timestamp limit; no link is left that could extend the web or lower an end; it terminates |
| FieldWindows.Window | src/membus/rules.py:616-632 | The loop computes the interval of the sum, or nothing when a column has no usable bound |
| FieldWindows.WindowHolds | src/membus/rules.py:616-632 | The sum lies in its interval in every model of the bounds |
| FieldWindows.WindowIsTight | src/membus/rules.py:616-632 | The ends of the interval are the sum's values with each column at the end of its range that makes its term least, or greatest |
| FieldWindows.NarrowExactly | src/membus/propagate.py:37-55 | The window exists and is sound exactly when every column has a finite non-negative range and the sum stays strictly between the prime and its negative at every such choice of ends |
| FieldWindows.WindowExact | src/membus/propagate.py:54-55 | In a sound window a form vanishes modulo the prime exactly when it is zero as an integer |
| FieldWindows.GapFactHolds | src/membus/rules.py:637-656 | Every gap fact is positive and holds between integers |
| FieldWindows.UpperFromConstraint | src/membus/rules.py:724-737 | Accepted exactly in the comparison shape with a sound window, and then `pv <= fs + const` as integers in every model |
| FieldWindows.NormalizedValue | src/membus/rules.py:753-768 | The checked argument is the signed scale times the normalized value, as integers |
| FieldWindows.NormalizeExactly | src/membus/rules.py:753-766 | The argument normalizes exactly when it is a scale, none of 0, 1 and -1, times a clock less a witness, limbs counting against the witness and a constant |
| FieldWindows.Enumerate | src/membus/rules.py:774-786 | The enumeration accepts exactly when no negative integer of the window passes the check |
| FieldWindows.UpperFromCheck | src/membus/rules.py:749-792 | A scaled range check is accepted exactly when it normalizes, its window is sound and no negative solution passes, and then `pv <= fs + const` as integers in every model |
| RecvUppers.Collect | src/membus/rules.py:660-666 | Every receive bound of a machine, gated comparisons and scaled checks of rows proven sent, holds in every model; the bounds of all accepted comparisons come first in order; if the machine has a model, no comparison is missed that stands, folded, behind factors shown to be one on either side at any depth; and every check of a sent row that yields one is collected |
| AffineGadgets.ProductRoots | src/membus/rules.py:847-854 | In the window the product of the factors vanishes exactly at zero and at the listed roots |
| AffineGadgets.TwoRootsCoprime | src/membus/rules.py:857-862 | Two surviving roots have greatest common divisor 1, so such a gadget is always declined |
| AffineGadgets.SolveExactly | src/membus/rules.py:824-838 | A factor solves for a column exactly when dividing its other terms and its constant by the column's coefficient leaves no remainder, and the definition is the quotients |
| AffineGadgets.ClaimShape | src/membus/rules.py:855-862 | A claim is exact exactly when the other factor has no nonzero root in the window; otherwise one root survives and its distance is the modulus |
| AffineGadgets.ClaimExactly | src/membus/rules.py:847-862 | There is no claim exactly when the other factor has two nonzero roots in the window, or one next to zero |
| AffineGadgets.AffineFromFactor | src/membus/rules.py:824-864 | Accepted exactly when the factor solves for the column and the roots allow a claim; the claim, exact or modular, holds in every model of the product |
| AffineGadgets.Affine | src/membus/rules.py:808-822 | The definition found for a column holds in every model of the constraints and bounds; none is found only when the column is unbounded or no product of two factors defines it |
| FlagEvaluation.EvalConstraintMeans | src/membus/propagate.py:152-170 | Evaluation under an assignment that agrees on the mentioned columns gives the residue of the expression |
| FlagEvaluation.EvalPartialMeans | src/membus/propagate.py:173-203 | A determined partial value is the residue in every environment that agrees with the assignment |
| FlagDecisions.PartialExactly | src/membus/propagate.py:173-203 | A partial value exists exactly when every column has a value, except beside a factor settled to be zero, and is zero exactly when the expression vanishes wherever the assignment agrees |
| FlagEvaluation.AffineValues | src/membus/propagate.py:277-289 | An expression in which a column meets itself in no product is an affine function of the column |
| FlagEvaluation.AssignmentsComplete | src/membus/propagate.py:284-287 | The enumeration meets the flag values of every valuation within the domains |
| FlagEvaluation.AssignmentsSound | src/membus/propagate.py:284-287 | Every enumerated assignment lies in the domains |
| FlagDecisions.DecidingExactly | src/membus/propagate.py:86-125 | The deciding constraints are the decode, which is the first forward one or else the first backward one, and the nonlinear constraints over exactly the flags |
| FlagDecisions.DomainsExactly | src/membus/propagate.py:224-248 | The flags are enumerated exactly when each has a proven domain from zero and no prefix of them has more than 65536 cases, and then over those domains |
| FlagRefutation.RefuteIsLoad | src/membus/propagate.py:262-292 | A value is returned exactly when the guards pass and one value is reachable over the surviving flag assignments |
| FlagDecisions.GuardsExactly | src/membus/propagate.py:251-291 | The guards pass exactly when the selector has a decode, the deciding constraints read nothing but it, the flags and the pins, and under no flag values in their domains the decode is the same at zero and one |
| FlagDecisions.ReachableExactly | src/membus/propagate.py:277-292 | When the guards pass, a value is reachable exactly when some flag values in their domains put it on the line through the decode's values at zero and one and make every deciding constraint vanish |
| FlagRefutation.LoadPinHolds | src/membus/propagate.py:262-292 | With a decode affine in the selector, the value is the selector's residue in every model |
| FlagRefutation.QuadraticDecodeEscapes | src/membus/propagate.py:277-291 | For the decode `x - 2*x*x` with one bounded flag the guards pass and only zero is reached, so zero is pinned, yet `x = 1/2` is a model |
| FlagRefutation.RefuteFlagValue | src/membus/propagate.py:311-332 | A value is returned exactly when the constraints are covered and it alone survives |
| FlagDecisions.SurvivingExactly | src/membus/propagate.py:311-332 | A flag value survives exactly when some values of the open flags in their domains, beside it and the pins, make every deciding constraint vanish |
| FlagRefutation.FlagPinHolds | src/membus/propagate.py:311-332 | The flag holds that value as an integer in every model |
| Propagation.TryPinExact | src/membus/propagate.py:58-71 | A window pin is the column's integer value wherever the form vanishes |
| Propagation.TryPinExactly | src/membus/propagate.py:58-71 | A form pins a value exactly when it is one column with coefficient one or minus one and a finite non-negative range, stays strictly between the prime and its negative at both ends of it, and vanishes at that signed residue |
| Propagation.WindowPins | src/membus/propagate.py:435-450 | All pins hold as integers in every model; no constraint, with its pins put in, is left as one column with coefficient one or minus one that stays strictly between the prime and its negative over its range; the loop terminates |
| Propagation.RefuteFlags | src/membus/propagate.py:381-392 | The flag loop keeps all pins sound and stops only when no open flag is refuted to one value |
| Propagation.ZerosHold | src/membus/propagate.py:455-466 | Every linear zero is an integer identity in every model |
| Propagation.ZerosExactly | src/membus/propagate.py:455-466 | The zeros are exactly the constraints that the pins leave a form in other columns narrow enough to vanish as an integer |
| Propagation.Propagate | src/membus/propagate.py:424-468 | Every pin holds modulo the prime and, except for the refuted selectors, as an integer, and every zero as an integer, in every model; the result is that of the three phases run in the source's order, none skipped; the zeros are exactly the narrow forms left |
| FieldRewriting.EvalMultValue | src/membus/propagate.py:476-491 | The residue evaluated from pins and one zero is the form's residue in every model |
| FieldRewriting.EvalMultExactly | src/membus/propagate.py:476-491 | A residue is found exactly when the form with its pins put in is constant or has the terms of a zero, the last such one, or else the opposite terms |
| FieldRewriting.FoldPinsValue | src/membus/propagate.py:497-553 | Folding pins and timestamp aliases keeps the residue in every model of them |
| FieldRewriting.FoldPinsComplete | src/membus/propagate.py:497-553 | Folding leaves no pinned or aliased column, and nothing to compute: no operation on constants, no unit or zero factor, no zero summand |
| FieldRewriting.FormToExprValue | src/membus/propagate.py:556-572 | The printed form evaluates to the form, as integers |
| SimplifiedForms.PrintedParses | src/membus/propagate.py:556-572 | Parsing a printed canonical form gives the form |
| FieldRewriting.SimplifyExprValue | src/membus/propagate.py:731-748 | A simplified expression is equal modulo the prime in every model |
| SimplifiedForms.SimplifyExprExactly | src/membus/propagate.py:731-748 | An expression whose value the facts show becomes that number; any other becomes a number, or an expression of which the facts show nothing more, printed from a canonical form without pinned columns if linear and with nothing left to compute if not |
| FieldRewriting.SimplifyMultValue | src/membus/propagate.py:751-759 | A simplified multiplicity is equal modulo the prime in every model |
| SimplifiedForms.SimplifyMultExactly | src/membus/propagate.py:751-759 | A multiplicity stays when it is not linear, becomes the value the facts show, and is printed from its form without pinned columns otherwise |
| FieldRewriting.UngateValue | src/membus/rules.py:696-707 | Dropping factors known to be one keeps the residue; a constraint given up as vacuous holds anyway |
| FieldRewriting.UngateExactly | src/membus/rules.py:676-711 | What ungating leaves is exactly the body behind the factors shown to be one by the pins or a zero, the right side first, with no factor on the way shown to be zero |
| FieldRewriting.NestedIsPeeled | src/membus/rules.py:696-707 | Of a product that vanishes in some model, whatever stands behind factors shown to be one, on either side at any depth, is found |
| FieldRewriting.UpperFromGated | src/membus/rules.py:714-737 | The bound read off a gated comparison holds in every model of the constraint and the facts |
| FlagExpressions.RefuteExpr | src/membus/propagate.py:690-702 | A value is returned exactly when folding or all surviving assignments give one |
| FlagExpressions.SurvivingTable | src/membus/propagate.py:404-421 | For every access with a pinned selector and proven flag domains, the table holds the flag assignments under which its deciding constraints vanish |
| FlagExpressions.EnvsExactly | src/membus/propagate.py:404-421 | The assignments of an access with a pinned selector and enumerable flags are the pins with each choice of flag values within their bounds under which all deciding constraints vanish; for any other access there are none |
| FlagExpressions.RefutedExprHolds | src/membus/propagate.py:680-703 | The value holds in every model when the deciding constraints read only flags and pinned columns |
| FlagExpressions.UncoveredDecodeEscapes | src/membus/propagate.py:295-308 | Without that coverage a free column reads as zero, the wrong assignment survives and the value is wrong in a concrete model |
| FieldRewriting.RewriteSlotValue | src/membus/propagate.py:648-660 | Moving a timestamp slot onto its base keeps the residue when the alias holds |
| SimplifiedForms.RewriteSlotExactly | src/membus/propagate.py:648-660 | Exactly a slot of one aliased column with coefficient one moves, onto the base plus both offsets |
| FlagExpressions.SimplifyRows | src/membus/propagate.py:762-786 | Propagating, enumerating the flags of every access and simplifying all memory rows: a pointer gets the value its surviving assignments agree on, every other slot is in the normal form above, timestamps moved onto their base, and every row without such a pointer, or whose access is covered, sends the same message in every model; the pins and zeros are those of a whole propagation run |

## Left out

- CoverExact.CoverSoundExactly: about paired accesses, as is ForcingExact.ForcingSoundExactly; without pairs two uncertain groups can share a cell with a row outside the cluster. Its worlds are not limited to cells in `[0, p)` (src/membus/solve.py:415-428).
- AlignedSolve.Run: one direction only for a single alignment; with confusable keys it is safe in exactly the worlds of `RemovalExact.IntactExactly`.
- InterfacePointer.ScaledBoundExactly: moduli that are not constants give no right bound except the largest residue; what their values are is not asked.
- FlagRefutation.LoadPinHolds: one direction only; a decode that is not affine may still have a single root, which no syntactic guard decides.
- FlagExpressions.RefutedExprHolds: one direction only; an uncovered constraint may by luck exclude nothing.
- FlagExpressions.SimplifyRows: takes the timestamp aliases as given with their meaning; `send_ts_aliases` (the search for aliases) is not modelled. Pointers contain no node the evaluator raises on.
- BoundSeeds.LoosensExactly: about the seeds; what the closure over two-column equations makes of a wider one is not followed.
- FieldBounds.ComputeBounds: bounds granted by the named assumptions on memory rows enter as a parameter; their classification into sends and receives (`_kind`, `active_selector`) is not modelled.
- FieldWindows.UpperFromCheck: its exact acceptance needs the enumerated residues to be below the prime, which holds for at most 16 bits and the field in use.
- RangeInference.GuardedAreNonNegative: one direction only; a limb can be non-negative for reasons other than a stated `0 <= limb`.
- IoRelation.Relate: both circuits' rows have equally many arguments; the code raises otherwise.
- PlainMemory.Encode: only up to the exactly-one constraints; the pairwise distinctness of keys of inputs and of outputs after them is not modelled.
- MemoryWorlds.DisjointIsSound: pointers are a base plus an offset, as keys are handed over; recovering keys from pointer expressions is not modelled.
- SlicedChecker.Checker.Run: which strategy is preferred comes from an arbitrary function; routing by structure, metrics, dumps, timeouts and logging are not modelled. That large slices are not escalated and which fallback comes first save time only; nothing is promised about them.
- SimplifiedForms.SimplifyExprExactly: of a result that is not linear it says the columns and that nothing is left to compute, and `SimplifyExprValue` the value, but not the exact shape.
- ModAbstraction.ClosedAbstract: the applications are axiomatized in an arbitrary order, and `umod!abs` is assumed not to occur in the input.
- SolvedRows.BuildRows: fields of a row that are only displayed are not modelled.
- Solver calls, subprocesses, query files, JSON loading, command line, plots and everything under `src/lens` other than the signed residue.
- Column names: the grouping of flags by access and the recognition of selectors by name are given maps. A bit width given as a string of digits is not recognized.
- Expressions with Python booleans are treated as unknown nodes everywhere.
- The column-to-product dictionary and the decoding index are read as searches over the constraints; their construction is not modelled.
- Facts carry no sources, premises or assumptions, except for the evidence of range-check rows; certificates are not emitted.
- The array and busat encodings, the memory presolve, and the bitwise, program-counter and tuple buses.
- `send_order` and `gap_between` (display), and rendering of alignments.
- Primality of 2013265921: the prime is arbitrary.
