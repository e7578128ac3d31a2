# A verified model of Oxide's verifier and runtime

Oxide is a compiler with a built-in verifier. It lowers contracts and function
bodies to SMT terms, splits and unrolls goals, and writes a proof log; the
programs it compiles link against a runtime in C. This project models the parts
of both that carry the correctness argument, and proves what they are for. Where
the code does not do what it should, the project gives the input that shows it
and proves under exactly which condition the code is right.

`dafny verify dfyconfig.toml` checks everything.

## What is modelled

* **The SMT encoder.** `SpecLang` and `Statements` are a small source language
  with a concrete semantics; `Terms` has the terms and their meaning under a
  valuation. A term is valid if it is true under every valuation that gives each
  declared symbol a value of its sort. `Lowering` holds the two expression
  walkers, `SmtContext` the mutable context the first of them runs on,
  `InlineCapture` says when inlined spec bodies mean what they should,
  `LoweredBinders` which symbols a term binds, `Placeholders` what becomes of what
  cannot be resolved, and `ValueLaws` what the operations shared by source and
  terms are. `SymbolicExec` is the symbolic
  executor as a function, `SmtEncode` the same executor in its imperative form.
  `SymbolicSound`, `FunctionContracts`, `SymbolicExact`, `MergeGuard`,
  `EntrySnapshots`, `HiddenConstants`, `LoopExitAbstraction`, `LoopExact` and `LoopGaps` relate its
  obligations to concrete runs, in both directions.
* **Goal transformations.** `GoalSplitter` and `SplitterRows` (the five split
  strategies), `QuantUnroll` (bounded quantifiers), `Noninterference` (the
  stability query of each ordered pair of handlers, over interleaved runs) and
  `InterferenceGaps` (where that query asks for more, or for less, than it should).
* **The channel.** `ChannelRing` holds the ring and its class, `ChannelRuns` a
  transition system of any number of sending and receiving threads with a lock, two
  condition variables, arbitrary scheduling and spurious wake-ups, and
  `ChannelValues` follows the values of the calls through its runs.
* **Containers.** `AssocSpec` says what the containers compute and proves that
  both refine one mathematical map; `HashMap` and `SortedMap` are the classes, and
  `ContainerRuns` a client that drives them through sequences of operations.
* **`GaussJordan`, `BitRewrites` (with `Bits`), `Strings`, `ProofLog`.** Linear
  solving in place, mask and shift rewrites, split/join/replace, and the
  printing and parsing of the proof log, whose details are in `ProofLogReader`.

## Where code and documentation disagree

The model follows the code.

* An `exists` is lowered with `=>` between range and body, like a `forall`, so
  its term is always true (`Lowering.ExistsIsAlwaysTrue`).
* The store is seeded with the mutable globals only. A parameter assigned in one
  arm of an `if` is therefore in one arm's store, and `mergeStores` then takes
  that arm's value on both paths, against its comment
  (`MergeGuard.LopsidedParameterAssignment`).
* After an `if` that returns in one arm only, the path condition does not say
  that the other arm was taken. This is sound but refuses correct functions
  (`SymbolicExact.EarlyReturnIsRefused`).
* Invariant preservation is re-checked from the store before the loop. A loop's
  checks hold exactly when its first iteration passes
  (`LoopExact.ChecksAreFirstIteration`), so an invariant that later iterations
  break goes unnoticed (`LoopGaps.PreservationIsCheckedOnce`), unless the names the
  body writes still stand for symbols of their own (`LoopExact.UntouchedStarts`).
* The entry check of an invariant is made under the guard. A loop that is skipped
  is not checked at all, and its invariants are assumed after it
  (`LoopGaps.SkippedLoopIsUnchecked`).
* A comment calls it sound to end the path at a loop without invariants. Nothing
  after such a loop is checked (`LoopExact.NothingAfterUnannotated`), so a function
  that starts with one is always verified (`LoopGaps.UnannotatedLoopHidesRest`).
* Only the `old` names of `ensures` clauses get a snapshot. In an assertion an `old`
  without one reads the current value (`EntrySnapshots.OldInAssertion`). Nothing
  ties a parameter's snapshot to the parameter, so `old(x) == x` is refused for an
  untouched `x` (`EntrySnapshots.UntiedSnapshotIsRefused`).
* Element writes are not among the collected mutations
  (`LoopGaps.ElementWriteEscapesExitStore`).
* The splitter's implication, unroll and branch leaves are not split further;
  only conjuncts are. The implication strategy does not look at the quantifier's
  kind (`SplitterRows.ExistsSplitUnsound`). Premise isolation asks each premise
  to prove the goal alone (`GoalSplitter.IsolationExact`).
* A range whose end equals its start reaches the first element of an empty
  vector in `smtUnrollQuantForall`; the model returns `FirstOfNone` there.
* An inlined spec body is resolved in the caller's name map, so a caller's name
  hides a constant the body means (`InlineCapture.InliningExact`). A block's locals
  stay in the store after the block and go on hiding constants
  (`HiddenConstants.LeakedLocal`).
* The constants minted at a loop's exit are always declared `Int`, whatever the
  sort of the name, so only integer values are covered
  (`LoopExitAbstraction.ExitStoreExact`).
* The name maps of a noninterference pair are filled slot by slot, so a name
  used again at a later slot hides the earlier one
  (`InterferenceGaps.CrossedNamesUnsound`). A comment calls a pair whose step
  changes nothing trivially stable. That is so if the invariant contains a
  quantifier, because its two copies then have different binders. Otherwise the
  copies are one string, the invariant is dropped from the premise, and
  `requires` alone must imply it (`InterferenceGaps.UnchangedStepExact`).
* A `noninterference` declaration over one handler checks nothing
  (`InterferenceGaps.SingleHandlerIsUnchecked`).
* `ox_hmap_delete` keeps the survivors in insertion order only when the deleted
  entry is one of the last two (`AssocSpec.DeleteKeepsOrder`).
* `ox_mat_solve` refuses a 1×n right-hand side for n > 1 although its comment
  allows row vectors, and reports pivots below 1e-12 as singular
  (`GaussJordan.FalseAlarmExact`, `GaussJordan.ThresholdReportsTiny`).
* `ox_split` with an empty separator gives n + 1 empty pieces, not the characters.
* The constant folder of the bit rewrites asks for a compile-time constant
  before a local name (`BitRewrites.ShadowedConstantMisread`,
  `BitRewrites.BandHiddenExact`). Only `==` is
  rewritten, never `!=`. SMT-LIB `div` by a power of two rounds down, not toward zero.
* The proof log's reader does not know the escapes by code that the writer prints
  for control bytes (`ProofLogReader.BareReadsAsCode`).
* A field of a proof log may hold a closing brace only where `ProofLog.RoundTrip`
  says; the parser's comment says that the writer never prints one.

## Model

| member | source | states |
|---|---|---|
| SpecLang.CallEquation | src/Driver.cpp:2267-2302 | a call means its callee's body in an environment of just its parameters, whatever functions are being expanded |
| SpecLang.EvalIgnoresExpansion | src/Driver.cpp:2282-2301 | the set of functions being expanded does not affect acyclic expressions |
| Lowering.LowerPreservesMeaning | src/Driver.cpp:2684-2754 | the term has the expression's value in the environment the name map denotes, for nested `forall`s and acyclic calls, whose bodies may name constants; no argument is captured by a minted binder |
| Lowering.InlineMeaning | src/Driver.cpp:2267-2302 | an inlined call is its callee's body over the arguments' values, wherever the caller's map gives every constant named by a body that is reached its own value |
| InlineCapture.InliningExact | src/Driver.cpp:2267-2302 | every call-free body over the parameters and constants is inlined right if and only if the caller's map binds no constant that is not a parameter to another value |
| LoweredBinders.SecondCopyExact | src/Driver.cpp:2733-2754 | lowering an expression a second time gives the same term if and only if the term binds no symbol |
| Lowering.LowerFree | src/Driver.cpp:2733-2754 | no minted binder and no placeholder escapes from a scoped expression |
| Lowering.WpIsOverlay | src/Driver.cpp:3721-3963 | the store-aware walker gives exactly the plain walker's term under the overlaid map |
| Lowering.ExistsIsAlwaysTrue | src/Driver.cpp:2749-2752 | the term of an `exists` is true everywhere, and right if and only if some index in range satisfies the body |
| Lowering.ExistsOverEmptyRange | src/Driver.cpp:2749-2752 | a false `exists` whose term is true |
| Placeholders.UnresolvedIsOpaque | src/Driver.cpp:2267-2302 | an unknown name, an `old` without snapshot, and an unknown, ill-applied or recursive call each become one symbol minted there, different from every symbol in use |
| Placeholders.UnresolvedWpIsOpaque | src/Driver.cpp:3740-3773 | the same for the store-aware walker |
| Placeholders.OccurrencesDiffer | src/Driver.cpp:2267-2302 | two occurrences of one unresolved expression are different symbols |
| Placeholders.OtherCompoundIsAssignment | src/Driver.cpp:4960-4997 | a compound assignment with an operator the encoder does not know leaves what a plain assignment does |
| SmtContext.SmtCtx.SmtExpr | src/Driver.cpp:2684-2754 | lowering in place computes the same term, terminates for every call graph, and leaves the name map and the expanding set as it found them |
| SmtContext.SmtCtx.InlineSpecCall | src/Driver.cpp:2267-2302 | inlining undoes exactly the bindings it made; unknown, ill-applied and recursive calls become placeholders |
| Values.DivIsMachineDiv | src/Driver.cpp:2764-2820 | the encoder's `div` is truncating division if and only if the dividend is non-negative or there is no remainder |
| ValueLaws.DivisionLaw | src/Driver.cpp:2764-2820 | quotient and remainder together give the dividend, and the remainder is never negative |
| ValueLaws.ArithmeticLaws | src/Driver.cpp:2764-2820 | addition counts up, subtraction undoes it, multiplication repeats it |
| ValueLaws.ArrayLaws | src/Driver.cpp:5060-5104 | reading what was stored, and past it |
| Statements.ReadAfterWrite | src/Driver.cpp:5060-5104 | after `a[i0]..[iN] = v`, that path reads v and every other path of the depth reads the old element |
| SymbolicSound.NestedStoreMeaning | src/Driver.cpp:5060-5104 | the nested store/select term means the concrete update along the path, at every depth |
| SmtEncode.BuildNestedStore | src/Driver.cpp:5094-5104 | the loops build that term |
| SmtEncode.MergeArms | src/Driver.cpp:4576-4600 | the key-by-key merge, dead arms skipped |
| SmtEncode.CollectMutated | src/Driver.cpp:4676-4716 | the loops collect exactly the assigned, compound-assigned and stepped names |
| SmtEncode.Encoder.DischargeClauses | src/Driver.cpp:4250-4270 | one obligation per clause, in order, under the premises and the path |
| SmtEncode.Encoder.EncodeStmts | src/Driver.cpp:5906-5943 | the list walk stops at a dead path and folds a loop's exit condition into what follows; it appends exactly the executor's obligations |
| SmtEncode.Encoder.EncodeStmt | src/Driver.cpp:4719-5900 | what let, assignment, compound and step assignment, element write, if, block, assert, return and while do to store, counter, output and liveness |
| SmtEncode.Encoder.EncodeIf | src/Driver.cpp:5637-5651 | arms run on private copies of the store and are merged |
| SmtEncode.Encoder.EncodeWhile | src/Driver.cpp:5653-5778 | entry, body and preservation checks from the store before the loop, then the exit store; without invariants a dead path (LoopExact.NothingAfterUnannotated) |
| SymbolicSound.Sound | src/Driver.cpp:4719-5651 | where obligations, premises and path hold and the store denotes the state, a statement's run does not fail, a return meets `ensures`, and otherwise the new store denotes the new state |
| SymbolicSound.SoundAll | src/Driver.cpp:5906-5943 | the same for statement lists |
| FunctionContracts.VerifiedFunctionIsCorrect | src/Driver.cpp:6190-6404 | if every obligation is valid over the declared sorts, every run from arguments of those sorts that meet `requires` passes its assertions and meets `ensures` at whichever return it takes |
| FunctionContracts.CorrectAt | src/Driver.cpp:6362-6404 | the same for one call, from the obligations at the valuation of its arguments |
| SymbolicExact.ObligationsAreExact | src/Driver.cpp:6362-6404 | for every covered body, the obligations hold at the valuation of given arguments if and only if all checks pass along the run that goes on past an `if` returning in one arm only |
| SymbolicExact.ObligationsAreRuns | src/Driver.cpp:6362-6404 | if no `if` returns in one arm only, they hold if and only if the real run is correct: a failing obligation is never a false alarm |
| SymbolicExact.Exact | src/Driver.cpp:4719-5651 | statement by statement, under true premises and path: the obligations hold if and only if what is checked there does |
| SymbolicExact.Tracks | src/Driver.cpp:4719-5651 | whether or not the obligations hold, the store denotes the state that run has reached |
| SymbolicExact.OffPath | src/Driver.cpp:4273-4277 | under a false premise or path condition every obligation of every statement holds, loops included |
| SymbolicExact.EarlyReturnIsRefused | src/Driver.cpp:5637-5651 | a function all of whose runs are correct and whose obligation fails, because the path after an early return is not refined |
| EntrySnapshots.GlobalIsItsSnapshot | src/Driver.cpp:6155-6198 | a mutable global starts as its own snapshot, mentioned or not |
| EntrySnapshots.ParameterSnapshot | src/Driver.cpp:6155-6163 | a parameter has a snapshot if and only if an `ensures` mentions its `old`, and it is another symbol |
| EntrySnapshots.UntiedSnapshotIsRefused | src/Driver.cpp:6155-6163 | a function all of whose runs are correct and whose obligation is not valid |
| EntrySnapshots.OldReadsCurrent | src/Driver.cpp:3764-3772 | an `old` without a snapshot is lowered as the name's current value |
| EntrySnapshots.OldInAssertion | src/Driver.cpp:3764-3772 | an assertion that compares a stepped parameter with its `old` has a valid obligation |
| HiddenConstants.VerifiedWithHidden | src/Driver.cpp:6190-6404 | VerifiedFunctionIsCorrect also holds of functions whose parameters hide constants, as long as no body that is reached names one of those |
| HiddenConstants.RunsWithHidden | src/Driver.cpp:6362-6404 | so does ObligationsAreRuns |
| HiddenConstants.LeakedLocal | src/Driver.cpp:5863-5868 | a function with valid obligations whose assertion fails, because a local of a finished block still hides a constant |
| MergeGuard.MergeNeedsSameKeys | src/Driver.cpp:4576-4600 | the merged store denotes the state after the `if` on both paths, for all stores with these keys, if and only if both arms hold the same visible names |
| MergeGuard.MergedAt | src/Driver.cpp:4576-4600 | a name in both stores has the value of the arm taken, a name in one only that arm's value on both paths |
| MergeGuard.LopsidedParameterAssignment | src/Driver.cpp:4583-4600 | a function all of whose obligations are valid and whose assertion fails |
| LoopExitAbstraction.MutatedIsComplete | src/Driver.cpp:4676-4716 | a run of a body without element writes or declarations leaves every other name unchanged |
| LoopExitAbstraction.MutatedExact | src/Driver.cpp:4676-4716 | the names collected are exactly those some statement inside assigns or steps |
| LoopExitAbstraction.LoopExitCoversRun | src/Driver.cpp:5749-5777 | for any terminating run under an invariant that is inductive given the values of the unmodified names, some choice of the exit constants makes the exit store equal the final state and satisfies path, negated guard and invariants |
| LoopExitAbstraction.ExitStoreExact | src/Driver.cpp:5749-5763 | some choice of integers for the exit constants makes the exit store denote a state if and only if every name not collected has its old value there and every collected one an integer |
| LoopExitAbstraction.LoopExitExact | src/Driver.cpp:5749-5777 | the same for the final state of any terminating run of any annotated loop, element writes and shadowing included |
| LoopExitAbstraction.CountedToIsValid | src/Driver.cpp:5728-5736 | the negated guard and the bound pin the counter to the limit over Int, and not over symbols of any sort |
| LoopExitAbstraction.SoundAfterLoop | src/Driver.cpp:5749-5778 | what follows such a loop passes its assertions and meets `ensures` if its obligations are valid over the declared sorts |
| LoopExact.ChecksAreFirstIteration | src/Driver.cpp:5653-5720 | where premises and path hold and the store denotes the state before the loop, entry, body and preservation checks hold if and only if, should the guard be true there, the invariants hold, the body's checks pass and the invariants hold where the body goes on |
| LoopExact.ChecksAreFirstRun | src/Driver.cpp:5653-5720 | the same about the first iteration as it runs: the checks imply it is right, and follow from it if no `if` of the body returns in one arm only |
| LoopExact.ValidChecksAreInductive | src/Driver.cpp:5653-5720 | valid checks make the invariants inductive if the store denotes every state an iteration may start from |
| LoopExact.UntouchedStarts | src/Driver.cpp:5653-5720 | it does if each name the body writes still stands for an Int symbol of its own that nothing else mentions |
| LoopExact.SoundAfterCheckedLoop | src/Driver.cpp:5653-5778 | for such a loop, entered or skipped where its invariants hold, valid obligations alone make what follows it correct |
| LoopExact.ContinuesExact | src/Driver.cpp:5749-5777 | what follows a loop is checked for the state it ends in if and only if the names not collected are unchanged there, the collected ones are integers, and the invariants hold |
| LoopExact.NothingAfterUnannotated | src/Driver.cpp:5673-5692 | nothing is emitted for what follows a loop without invariants, and what is emitted for the loop holds at every valuation |
| LoopExact.UnannotatedIsVerified | src/Driver.cpp:5673-5692 | a function that starts with such a loop is verified whatever follows and whatever it ensures |
| LoopGaps.PreservationIsCheckedOnce | src/Driver.cpp:5700-5720 | a verified function with an invariant that is not inductive, whose assertion fails; the exact condition is LoopExact.ChecksAreFirstIteration |
| LoopGaps.SkippedLoopIsUnchecked | src/Driver.cpp:5655-5674 | a verified function that skips a loop with a false invariant and fails the assertion after it |
| LoopGaps.UnannotatedLoopHidesRest | src/Driver.cpp:5673-5692 | such a function whose assertion fails |
| LoopGaps.ElementWriteEscapesExitStore | src/Driver.cpp:4676-4716 | a loop that writes an element and whose final state no choice of exit constants covers |
| GoalSplitter.SplitGoal | src/ProofSplitter.cpp:229-361 | the strategies in order, first match wins |
| GoalSplitter.UnrollGoal | src/ProofSplitter.cpp:203-224 | the instances of a literal range, empty and inclusive ranges included |
| GoalSplitter.IsolatePremises | src/ProofSplitter.cpp:229-361 | one leaf per premise and one with all |
| GoalSplitter.SubstIsBinding | src/ProofSplitter.cpp:100-184 | substituting a literal equals binding the name, on the handled forms |
| GoalSplitter.SplitSound | src/ProofSplitter.cpp:229-361 | if every leaf is valid under its own premises the goal is valid, for `forall` goals whose unrolled binders are handled or not free in the premises |
| GoalSplitter.SplitExact | src/ProofSplitter.cpp:229-361 | where no leaf reaches premise isolation, leaves and goal are equivalent, however many premises there are |
| GoalSplitter.IsolationExact | src/ProofSplitter.cpp:229-361 | with isolation, all leaves are valid if and only if each premise proves the goal alone |
| SplitterRows.LeavesHaveTheirOwnRows | src/ProofSplitter.cpp:222-361 | no two leaves of a goal share a report row, and each extends the goal's |
| SplitterRows.ExistsSplitExact | src/ProofSplitter.cpp:229-361 | for an `exists` whose halves are valid, the goal is valid if and only if its range is inhabited wherever the premises hold |
| SplitterRows.ExistsSplitUnsound | src/ProofSplitter.cpp:229-361 | such a goal that is not valid |
| SplitterRows.CapturedBinderUnsound | src/ProofSplitter.cpp:180-183 | a call that keeps its binder is captured by a premise, and both leaves are valid though the goal is not |
| SplitterRows.UnrollLimit | src/ProofSplitter.cpp:203-361 | ranges of 0 to 1024 indices are unrolled, in order; a backward range is one true goal; longer ones are not unrolled |
| SplitterRows.DecimalIsNumber | src/ProofSplitter.cpp:222-361 | the number in a label is the instance's, in decimal digits |
| QuantUnroll.UnrollForall | src/Ghost.cpp:1083-1166 | the loop rebinding the name map, restored on every path |
| QuantUnroll.UnrollIsForall | src/Ghost.cpp:1083-1166 | the conjunction equals the bounded `forall` in every environment; there is no first conjunct if and only if the end equals the start |
| QuantUnroll.FallsBack | src/Ghost.cpp:1083-1166 | the quantifier is kept if and only if it is an `exists`, has a bound that is no literal, or more than 1024 indices |
| Noninterference.SlotBindingExact | src/Ghost.cpp:1775-1790 | an invariant parameter stands for its own slot if and only if no later slot reuses its name |
| Noninterference.PairIsStable | src/Ghost.cpp:1688-1921 | if a pair's obligations are valid over the declared sorts, a step from a state meeting its `requires` and the invariant keeps the invariant |
| Noninterference.PairExact | src/Ghost.cpp:1688-1921 | at given slot values a pair's obligations hold if and only if a step that meets `requires` runs through and ends in the invariant wherever it starts there, or wherever it starts if the two copies are one term |
| Noninterference.ConjoinPreMeaning | src/Ghost.cpp:1881-1890 | the step's premise is true if and only if all its clauses are |
| Noninterference.ResultDenotes | src/Ghost.cpp:1860-1866 | in the second copy `result` stands for what the handler returns |
| Noninterference.InterferenceFreedom | src/Ghost.cpp:1633-1929 | with at least two handlers and all pairs valid, every interleaving of steps keeps an invariant over the shared slots, each step called with other arguments of its own |
| InterferenceGaps.CrossedNamesUnsound | src/Ghost.cpp:1775-1866 | valid obligations for a step that destroys the invariant, when names cross slots |
| InterferenceGaps.TwoCopies | src/Ghost.cpp:1781-1866 | where a step leaves the slots' terms as they were, the invariant's two copies are one term if and only if it binds no symbol, and always have the same value |
| InterferenceGaps.UnchangedStepExact | src/Ghost.cpp:1870-1910 | for such a step the query is valid if and only if the body's obligations are and, where the invariant's term binds no symbol, the `requires` clauses alone imply it |
| InterferenceGaps.SingleHandlerIsUnchecked | src/Ghost.cpp:1680-1695 | a declaration over one handler has no obligations |
| ChannelRing.PutAppends | src/Driver.cpp:1191-1197 | a put appends if and only if a slot is free or the lost value equals the new one |
| ChannelRing.TakeRemovesFirst | src/Driver.cpp:1198-1205 | a take removes the oldest message |
| ChannelRing.UnbufferedOverwrites | src/Driver.cpp:1191-1197 | at capacity 0 the 257th message overwrites the first |
| ChannelRing.SlotCount | src/Driver.cpp:1180-1188 | a ring has 256 slots, and all can be occupied |
| ChannelRing.OxChannel.constructor | src/Driver.cpp:1180-1188 | an empty ring of the given capacity |
| ChannelRing.OxChannel.TrySend | src/Driver.cpp:1191-1197 | the guard and the store in every state; from a valid channel exactly one message more at the end, unless capacity is 0 and no slot is left |
| ChannelRing.OxChannel.TryReceive | src/Driver.cpp:1198-1205 | the guard and the load in every state; from a valid channel the oldest message and the rest |
| ChannelRuns.RunsKeepInv | src/Driver.cpp:1180-1205 | in every state of every run: one lock holder, `sent == received + contents`, `tail == (head + count) % 256`, `0 <= count <= cap`, no lost wake-up |
| ChannelRuns.SleeperIsAccountedFor | src/Driver.cpp:1191-1205 | while a receiver sleeps, `count` is at most the wakes owed plus awake receivers; dually for senders |
| ChannelRuns.RestIsJustified | src/Driver.cpp:1191-1205 | with no call moving, only receivers sleep and the channel is empty, or only senders and it is full |
| ChannelRuns.StuckIffAtRest | src/Driver.cpp:1191-1205 | no step of a call in progress is possible if and only if all threads are idle or asleep |
| ChannelRuns.QuietRunsEnd | src/Driver.cpp:1191-1205 | without new calls and spurious wakes a run has at most six steps per thread |
| ChannelRuns.BlockedAreTheSurplus | src/Driver.cpp:1191-1205 | under every schedule, the calls left blocked are exactly the surplus over messages or room |
| ChannelValues.ValuesAreCarried | src/Driver.cpp:1191-1205 | in every state of every run a send on its way has the value it was given, and a receive that has taken has the message it took |
| ChannelValues.PutsWhatWasGiven | src/Driver.cpp:1191-1197 | a call that puts appends the value its send was given, however often it slept |
| ChannelValues.ReturnsWhatWasTaken | src/Driver.cpp:1198-1205 | a call that takes gets the oldest message and returns it |
| ChannelValues.DeliveredInOrder | src/Driver.cpp:1191-1205 | the values returned are the first of the values given, in order, and the rest is in the ring |
| HashMap.MaskWraps | src/Driver.cpp:614-618 | masking with a power of two less one is wrapping round |
| HashMap.SomeFree | src/Driver.cpp:613-624 | a table with fewer entries than buckets has a free bucket |
| HashMap.FreeMeansAbsent | src/Driver.cpp:617-622 | a free bucket on a probe path proves the key absent |
| HashMap.OxHmap.Find | src/Driver.cpp:613-624 | the entry's number or the first free bucket; -1 only if there are as many entries as buckets |
| HashMap.OxHmap.Rehash | src/Driver.cpp:625-640 | a gap-free table in which each entry number occurs once, for the same entries |
| HashMap.OxHmap.Grow | src/Driver.cpp:641-648 | room for one more entry and a load of at most three quarters with it |
| HashMap.OxHmap.Set | src/Driver.cpp:655-667 | replace in place or append, through growth and rehash |
| HashMap.OxHmap.Get | src/Driver.cpp:669-675 | the value, or zero for a missing key |
| HashMap.OxHmap.Contains | src/Driver.cpp:676-680 | presence |
| HashMap.OxHmap.Delete | src/Driver.cpp:683-695 | the last entry takes the deleted one's place |
| HashMap.OxHmap.Clear | src/Driver.cpp:696 | empty, buckets cleared |
| SortedMap.OxMap.FindLowerBound | src/Driver.cpp:433-438 | the bisection returns the true lower bound |
| SortedMap.OxMap.Set | src/Driver.cpp:450-463 | replace in place or insert at the lower bound, keys stay strictly sorted |
| SortedMap.OxMap.Get | src/Driver.cpp:466-473 | the value, or zero for a missing key |
| SortedMap.OxMap.Contains | src/Driver.cpp:475-479 | presence |
| SortedMap.OxMap.Delete | src/Driver.cpp:1123-1131 | the entry is removed, order kept |
| AssocSpec.LowerBoundIs | src/Driver.cpp:433-438 | on sorted keys the lower bound is the one position that separates smaller from not smaller keys |
| AssocSpec.HashRefinesMap | src/Driver.cpp:655-696 | over any operation sequence the hashed container answers as the map it stands for |
| AssocSpec.SortedRefinesMap | src/Driver.cpp:433-479 | the same for the sorted container, keys strictly sorted throughout |
| AssocSpec.ContainersAgree | src/Driver.cpp:433-696 | both give identical answers to any sequence, stand for the same map, and their key sequences are permutations of each other |
| ContainerRuns.RunHash | src/Driver.cpp:613-696 | calling the hashed container operation by operation, through growth and rehash, leaves the entries and gives the answers of the model's run |
| ContainerRuns.RunSorted | src/Driver.cpp:433-479 | the same for the sorted container |
| ContainerRuns.RunBoth | src/Driver.cpp:433-696 | from empty, both containers answer any sequence of operations as the mathematical map does |
| AssocSpec.DeleteKeepsOrder | src/Driver.cpp:681-695 | swap-with-last keeps insertion order if and only if the entry is one of the last two |
| AssocSpec.GetExact | src/Driver.cpp:466-675 | a lookup gives the map's value, or not found and zero |
| GaussJordan.FindPivot | src/Driver.cpp:1366-1371 | the loop finds the model's pivot row |
| GaussJordan.PivotRowIsFirst | src/Driver.cpp:1366-1371 | the pivot's entry is the largest, and strictly larger than those before it |
| GaussJordan.ClearColumn | src/Driver.cpp:1386-1394 | the pivot row scaled and its multiples taken off every other row |
| GaussJordan.ClearedKeepsNull | src/Driver.cpp:1386-1394 | clearing a column keeps the solution set |
| GaussJordan.ClearedUnits | src/Driver.cpp:1386-1394 | finished columns stay unit columns and one more is finished |
| GaussJordan.FinishedSolves | src/Driver.cpp:1396-1399 | with all columns finished, the last column is the only solution and the matrix is not singular |
| GaussJordan.NoPivotSingular | src/Driver.cpp:1372-1378 | a column without a pivot proves the matrix singular |
| GaussJordan.Solve | src/Driver.cpp:1342-1400 | the loops compute the elimination with partial pivoting and threshold, and the two refusals |
| GaussJordan.SolveIsRight | src/Driver.cpp:1342-1400 | a returned x is the one solution and the matrix is not singular; a singular matrix is always reported; a report with pivot 0 is right |
| GaussJordan.FalseAlarmExact | src/Driver.cpp:1372-1378 | a non-singular matrix is reported if and only if no pivot of the elimination vanishes and one is below the threshold; the matrix is singular if and only if one vanishes |
| GaussJordan.SolvedExact | src/Driver.cpp:1372-1378 | a solution is returned if and only if every pivot is at least 1e-12 |
| GaussJordan.OneEquation | src/Driver.cpp:1342-1400 | for one equation this is a coefficient of magnitude at least 1e-12 |
| GaussJordan.ThresholdReportsTiny | src/Driver.cpp:1372-1378 | a non-singular matrix below the threshold |
| BitRewrites.MasksRecognized | src/Driver.cpp:1711-1719 | exactly 2^k - 1 for 1 <= k <= 63 |
| BitRewrites.BandExact | src/Driver.cpp:1755-1803 | the AND rewrite has the 64-bit meaning for every integer, if no operand it folds is hidden by a local with another 64-bit pattern |
| BitRewrites.BorExact | src/Driver.cpp:1907-1952 | the OR rewrite, under the same condition: with a high mask for every integer, with a low mask if and only if the stated bound holds, as it does from 0 to 2^64 - 1 |
| BitRewrites.ShrExact | src/Driver.cpp:1840-1866 | under the same condition, the shift rewrite is right if and only if the operand is from 0 to 2^64 - 1 or neither quotient is the literal |
| BitRewrites.BandHiddenExact | src/Driver.cpp:1726-1803 | the AND rewrite of an operand is right for all its values if and only if neither mask nor literal is hidden by a local with another pattern |
| BitRewrites.BorHiddenExact | src/Driver.cpp:1726-1952 | the OR rewrite is right for all values from 0 to 2^64 - 1 if and only if neither occurrence of the mask is so hidden |
| BitRewrites.BandFires | src/Driver.cpp:1755-1803 | the shapes rewritten: a low mask on either side compared with 0 or itself, and no other literal |
| BitRewrites.BandPrefersLeft | src/Driver.cpp:1755-1803 | of two masks the left one is tried first |
| BitRewrites.BorFires | src/Driver.cpp:1907-1952 | low masks become a bound, complements of low masks a remainder, other masks are left |
| BitRewrites.ShrFires | src/Driver.cpp:1840-1866 | shifts by 0 to 62 become a division, others are left |
| Bits.BitByBit | src/Driver.cpp:1755-1803 | the model's `and` and `or` act bit by bit |
| BitRewrites.ShiftedQuotients | src/Driver.cpp:1840-1866 | the quotient of an integer is that of its pattern if and only if it is from 0 to 2^64 - 1 |
| BitRewrites.ShadowedConstantMisread | src/Driver.cpp:1726-1739 | a rewrite that reads a hidden constant and changes the meaning |
| Strings.SplitLoop | src/Driver.cpp:949-973 | the pieces between occurrences found left to right |
| Strings.JoinLoop | src/Driver.cpp:975-985 | the pieces with the separator between |
| Strings.ReplaceLoop | src/Driver.cpp:928-944 | left-to-right replacement; an empty pattern changes nothing |
| Strings.JoinSplit | src/Driver.cpp:945-985 | joining what was split gives the string back if and only if the separator is not empty or the string is |
| Strings.PiecesAreFree | src/Driver.cpp:949-973 | no piece contains the separator |
| Strings.ReplaceIsJoin | src/Driver.cpp:928-985 | replacing is splitting on the pattern and joining with the replacement |
| Strings.EmptyPattern | src/Driver.cpp:928-973 | an empty pattern changes nothing; an empty separator gives one empty piece more than characters |
| ProofLog.JsonEscape | src/ProofDispatch.cpp:229-251 | the escaped text |
| ProofLog.JsonStringField | src/ProofDispatch.cpp:409-438 | the unescaped value after the first occurrence of the key |
| ProofLog.WriteProofLog | src/ProofDispatch.cpp:360-398 | the file's text |
| ProofLog.ParseProofLog | src/ProofDispatch.cpp:453-502 | the two errors, or the objects of the array in order |
| ProofLog.ScanEscape | src/ProofDispatch.cpp:229-251 | an escaped value reads back as it was if and only if it has no control byte but newline, return and tab |
| ProofLog.KeyMiss | src/ProofDispatch.cpp:409-420 | no value, whatever it holds, is taken for a key |
| ProofLog.CutFields | src/ProofDispatch.cpp:476-498 | what is read from a goal cut at its first brace, as an exact condition on its fields |
| ProofLog.RoundTrip | src/ProofDispatch.cpp:360-502 | parsing a written log gives the same goals in order if and only if every goal is good; the source path is unrestricted |
| ProofLog.OrdinaryComesBack | src/ProofDispatch.cpp:360-502 | fields without brackets, braces and such control bytes always come back |
| ProofLogReader.FlagReadsBack | src/ProofDispatch.cpp:390-448 | the flag of a written goal is found if and only if the solvers disagreed, and reads back as it was |
| ProofLogReader.JsonBoolField | src/ProofDispatch.cpp:440-449 | the loop reads the flag |
| ProofLogReader.GoalKeys | src/ProofDispatch.cpp:380-391 | a written goal holds each field under its key, and gives it back if and only if it is plain |
| ProofLogReader.HeaderReads | src/ProofDispatch.cpp:371-378 | version 1, the source and the time stand under their keys |
| ProofLogReader.ReadsBehindBlanks | src/ProofDispatch.cpp:409-449 | what a key's string and boolean are, behind any blanks |
| ProofLogReader.ParseErrors | src/ProofDispatch.cpp:453-476 | which texts give which error: no key; a first key without an opening and then a closing bracket behind it |
| ProofLogReader.EscapeIsJson | src/ProofDispatch.cpp:229-251 | every character is printed as JSON that stands for it |
| ProofLogReader.BareReadsAsCode | src/ProofDispatch.cpp:229-438 | a control byte reads back as five characters, the last two its code in hexadecimal |

## Left out

- Values.DivIsMachineDiv: integers are unbounded in the encoder's Int sort; 64-bit wrap-around and literals above 2^63 of the compiled program are not modelled, and division by zero has the fixed value 0 where SMT-LIB leaves it open.
- SymbolicSound.Sound: covers let, assignment, compound and step assignment, nested element writes, if, block, assert and return; break, continue, defer, match, casts, fields, floats, MMIO, asm specs, calc, assume and ghost lets are not modelled.
- SymbolicSound.Sound: requires the two live arms of an if to hold the same visible names in their stores, and declarations not to shadow; MergeGuard shows why the first is needed.
- SmtEncode.Encoder.EncodeStmt: for, defer, break, continue, calls, assume and proof statements of the cited span are not modelled.
- FunctionContracts.VerifiedFunctionIsCorrect: for parameters spelled like a compile-time constant see VerifiedWithHidden; locals so spelled are left out (LeakedLocal), and in handlers parameters too.
- FunctionContracts.VerifiedFunctionIsCorrect: the separate unfolding of `ensures` as whole-function axioms is not modelled.
- FunctionContracts.VerifiedFunctionIsCorrect: for void bodies that fall off their end the code discharges no `ensures`, and the theorem says nothing there.
- SymbolicExact.ObligationsAreExact: is stated at the valuations of real arguments; the solver is asked about all valuations, where the snapshot of a parameter is a constant of its own that nothing ties to the parameter.
- Lowering.LowerPreservesMeaning: is about `forall`; for `exists` see ExistsIsAlwaysTrue. The map must not give a constant named by a body that is reached another value, and no binder or parameter over such a call may be spelled like it; InliningExact says what happens otherwise. Fallbacks for unresolved names and calls are placeholders, which the scoping condition excludes.
- SmtContext.SmtCtx.SmtExpr: requires the parameters of each spec function to have distinct names.
- LoopExitAbstraction.LoopExitCoversRun: is about loops whose mutated names hold integers, because the exit constants are of sort Int; it takes the invariant to be inductive, because the checks emitted establish it only under the condition of ValidChecksAreInductive; loops without an invariant only kill the path.
- SmtEncode.Encoder.EncodeWhile: the exit constants of one loop share one counter value and differ in name, where the code steps its counter for each; `for` loops over ranges are not modelled.
- Noninterference.PairObligations: the second copy of the invariant is lowered in a context of its own name, which the model renders by going on from the first copy's counter; binders differ in both.
- Noninterference.PairIsStable: handlers are loop-free, with at most one return as their last statement; calls inside handlers are not modelled.
- GoalSplitter.SplitGoal: tactic selection and the printing of the solver script are not modelled.
- ChannelRuns.RunsKeepInv: at capacity 0 each put must find a free slot, a condition `Fits` states; with a capacity the guard sees to it.
- ChannelRing.OxChannel.TrySend: payloads are integers; blob channels copy bytes through the same ring. A wake is taken to reach one sleeper if there is one.
- HashMap.OxHmap.Find: keys are integers under an arbitrary hash; the FNV hash itself, string and float keys, allocation failure and the overflow guards on capacities are not modelled.
- SortedMap.OxMap.Set: `memmove` is a simultaneous assignment; keys are compared as integers.
- GaussJordan.Solve: exact reals instead of doubles; the vector of NaNs is the Singular outcome and the program exits are the two error outcomes.
- BitRewrites.ShrExact: with a hidden shift amount or literal of another pattern nothing is said; for the masks see BandHiddenExact and BorHiddenExact.
- LoopExact.ValidChecksAreInductive: that the body keeps the names it writes integers is a matter of typing and is assumed.
- Strings.SplitLoop: a null string is not modelled; strings are values without NUL.
- ProofLog.WriteProofLog: creating the directory and the file is left out; the time is a parameter made of digits.
- The sets `ox_set` and `ox_hset`, vectors, sorting, solver processes, report rows, the parser, type checker and code generator are not part of this model.
