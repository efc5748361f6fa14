# A verified model of a hardware model checker

The repository decides whether a bad state of an and-inverter graph can be reached from its reset states. This project
models its four engines in Dafny and proves what they are for.

* **IC3** (`Aig`, `Frames`, `Growth`, `Abstraction`, `Compaction`, `Sweep`, `Generalize`, `Order`, `Engine`,
  `Obligations`, `Cubes`, `Queueing`, `Checker`). Frames are delta-encoded: F_i is the conjunction of the clauses of frame i and of all later
  frames. The class `ClauseDB` holds the clauses and changes them in place, `ObligationQueue` the proof obligations with
  their reference counts, `IC3` the run. The main result is `IC3.Solve`: it terminates on every circuit and answers
  "reachable" exactly if some execution reaches the property; after "unreachable" the last frame is an inductive proof.
* **Ternary simulation and cones** (`Lbool`, `Ternary`, `Cone`): the event-driven Kleene simulator with its rollback
  computes the unique consistent assignment or leaves everything as it was, and what it drops from a cube cannot matter.
  `Heap` and `VHeap` are the queues that order the obligations.
* **CDCL kernel** (`Literals`, `Trail`, `Watches`, `Meaning`, `Learning`, `SearchState`, `Luby`, `Solver`): two-watched
  literals with blockers, first-UIP learning with deep minimisation, final conflicts, restarts, simplification and
  deletion of clauses during the search. `Solver.Solve` always answers, with a model or with assumptions that exclude
  each other. `Query`, `ClauseSets`, `Encoding` and `Session` turn the engine's queries into clauses for one such
  kernel, which lives as long as the engine, so that `IC3.Solve` rests on no assumption about a solver.
* **Simplifier** (`Subsumption`, `Elimination`, `Simplify`, `Solving`, `Stale`): backward subsumption and bounded variable
  elimination keep satisfiability, and the recorded clauses extend every model of the rest to the original clauses, also
  under assumptions.
* **AIGER re-encoding** (`Codec`, `Net`, `DepthFirst`, `Renumber`, `Preserve`, `Postorder`, `Reencode`): cycle detection,
  renumbering in postorder that keeps the value of every root, and the binary delta format.

Findings about the code itself.

* `aiger_read_delta` accepts some codes that do not fit into 32 bits and truncates them (`DeltaCodec.OverlongAccepted`);
  among the codes of at most five bytes `DeltaCodec.DecodesExactly` says which are decoded to what they stand for.
  Truncation, and with it the round trip from 2^31 upward, rests on what machines do: shifting a fifth byte of 8 or more
  by 28 places reaches the sign of an `int` (`src/aiger/aiger.c` lines 2314 and 2325), which C11 does not define. After
  five leading bytes it shifts by 35 places, which no machine agrees on: the parameter `beyond`, any 32-bit word, stands
  for the outcome.
* `sortByPriority` looks up priorities by position in the cube although it has exchanged entries of the order. What it
  computes is a rotation of each stretch (`Engine.ClauseDB.SortByPriority`), and `Ordering.SortedExactly` says for which
  priorities that is an order by priority. The order decides which literals go, but no property below needs it sorted.
* `SimpSolver::solve` can leave the conflict of an earlier call behind. `conflict` is cleared by the search only, which
  does not run if simplification has failed. `StaleConflicts.StaleConflict` shows it on six clauses; `Solving.Solve` says
  exactly when the conflict consists of negated assumptions. A caller is safe with simplification turned off, or if the
  conflict it starts from is empty, as after the answer "satisfiable". The model checker turns simplification off after
  its first call (`src/simpleIC3/main.cpp` line 95).
* The reuse of released variables does not keep the watch invariant in general: a trimmed literal can still be a blocker
  and becomes true with the new use of its variable (`Watching.StaleBlocker`). `Watching.RecycleKernel` has the exact
  condition, and `Watching.ReleasedApart` what a caller can do, as activation literals do: release literals whose negation
  is in no clause.
* `cmp_lhs` compares left-hand sides by a difference that does not fit for literals 2^31 and more apart
  (`Reencoding.CompareRight`): re-encoding sorts rightly if and only if at most 2^30 gates are kept
  (`Reencoding.SortsRight`). With one literal below and one from 2^31 on, the difference can overflow an `int` on the
  way, which C11 does not define.
* The early answer of `isBlocked`, for a literal fixed on level 0 of the solver, is never given (`Sessions.LatchesOpen`).

Run `dafny verify dfyconfig.toml` in this directory to check everything.

## Model

| member | source | states |
|---|---|---|
| Checker.IC3.Solve | src/simpleIC3/ic3/ic3.h:590-637 | Total correctness of the whole run: it terminates and answers "reachable" if and only if some finite execution from a reset state ends in a state and input that satisfy the property; after the answer "unreachable" the clauses of the last frame hold on every reset state, are closed under the transition relation and exclude the property, the queue is empty and no obligation cube is left |
| Checker.IC3.BlockBad | src/simpleIC3/ic3/ic3.h:600-622 | Ends with a chain from a reset state into the property, or with a last frame that excludes it; the engine invariant, the number of frames and the empty queue are kept |
| Checker.IC3.BlockCube | src/simpleIC3/ic3/ic3.h:652-854 | Terminates; returns a cube that contains a reset state and heads a chain of cubes stepping into each other up to an all-bad root, or blocks the root at the last frame with only the root left in memory and every blocked pair still blocked |
| Checker.IC3.Step | src/simpleIC3/ic3/ic3.h:663-853 | One obligation of the least frame: a counter-example chain, or it has been handled as the source does: passed on behind the last frame that blocks it, put behind the reduced cube of a predecessor state, or blocked by a clause read off a core and passed on. The engine invariant holds again with a strictly smaller lexicographic measure and nothing unblocked |
| Checker.IC3.StepOpen | src/simpleIC3/ic3/ic3.h:677-838 | The query of an unblocked obligation: the obligation goes back behind the reduced cube of a predecessor state, or exactly one clause read off the core blocks it and it moves to the next frame or is released at the last one; the measure falls either way |
| Checker.IC3.StepBlocked | src/simpleIC3/ic3/ic3.h:839-851 | A blocked obligation is queued behind the last frame that blocks it, or released if that is the last frame; the measure falls |
| Checker.IC3.Block | src/simpleIC3/ic3/ic3.h:779-827 | Exactly one clause is added: a generalisation of the clause read off the core, for the frame behind the earliest clause of the core; the obligation is blocked at its own frame and nothing is unblocked |
| Checker.IC3.MinFrame | src/simpleIC3/ic3/ic3.h:780-796 | The frame returned is exactly the last one, or the one behind the earliest clause of the core; it lies between the obligation's frame and the last one |
| Checker.BlockImplied | src/simpleIC3/ic3/ic3.h:782-796 | A clause that contains the negation of every core literal is implied after one step from the frame of the earliest core clause |
| Checker.IC3.Forward | src/simpleIC3/ic3/ic3.h:829-851 | An obligation blocked before the last frame is queued behind the frame that blocks it, and one blocked at the last frame is released; the queue invariant and all reference counts are kept |
| Checker.IC3.PredecessorCube | src/simpleIC3/ic3/ic3.h:694-773 | The reduced cube steps as a whole into the successor cube under the recorded inputs and no literal of it can be left out; it is not blocked at the frame before, and at frame 0 contains a reset state |
| Checker.IC3.Predecessor | src/simpleIC3/ic3/ic3.h:690-774 | The obligation goes back into its bucket and the reduced predecessor cube, with its inputs and its parent, is queued one frame earlier, with reference counts exact |
| Checker.IC3.PreImage | src/simpleIC3/ic3/ic3.h:253-329 | A cube returned is the reduction of a bad state of the last frame, without a literal that could be left out, all bad under the recorded inputs and not blocked in the last frame; none is returned only if the last frame excludes the property |
| Checker.IC3.BuildCOI | src/simpleIC3/ic3/ic3.h:355-391 | Every latch has exactly the cone of influence of its next-state function, the property exactly the union of the cones of its literals |
| Checker.IC3.CurrentCOI | src/simpleIC3/ic3/ic3.h:714-719 | Exactly the union of the cones of the next-state functions of all latches of the cube |
| Checker.IC3.constructor | src/simpleIC3/ic3/ic3.h:423-474 | Frame 0 describes exactly the reset states, frame 1 is empty, the queue is empty and the invariant holds |
| Frames.ResetClause | src/simpleIC3/ic3/ic3.h:116-123 | A clause holds in every reset state if and only if the reset value of some latch forces one of its literals |
| Frames.StepsForward | src/simpleIC3/ic3/ic3.h:966-1054 | A step from a state of F_i leads into F_(i+1) |
| Frames.ReachableInFrame | src/simpleIC3/ic3/ic3.h:590-637 | Every state that an execution reaches after k steps is in F_k |
| Frames.ReleaseKeeps | src/simpleIC3/ic3/ic3.h:216-232 | Releasing a clause marked as subsumed changes no F_i and keeps the frame invariant |
| Frames.PushKeeps | src/simpleIC3/ic3/ic3.h:1005-1015 | Pushing a clause that its frame implies after one step keeps the frame invariant |
| Frames.AddKeeps | src/simpleIC3/ic3/ic3.h:919-940 | Adding a clause that holds on reset and is inductive relative to the frame before keeps the frame invariant |
| Frames.MarkKeeps | src/simpleIC3/ic3/ic3.h:1076-1125 | Marking proper super-clauses at the same frame or before keeps the invariant that every marked clause has an unmarked sub-clause at its frame or later, and changes no F_i |
| Frames.EmptyFrameProves | src/simpleIC3/ic3/ic3.h:975-978 | An empty frame makes two neighbouring frames equal, and their states are a proof if the last frame but one excludes the property |
| Frames.ProofExcludesRuns | src/simpleIC3/ic3/ic3.h:590-637 | A proof rules out every state of every execution |
| Frames.ModelNotBlocked | src/simpleIC3/ic3/ic3.h:1129-1190 | A cube that contains a state of a frame is not blocked there |
| Frames.OpenShrinks | src/simpleIC3/ic3/ic3.h:663-853 | Blocking a new pair of frame and cube makes the set of open pairs strictly smaller |
| Growth.GrowsProperly | src/simpleIC3/ic3/ic3.h:1016-1028 | A clause that could not be pushed separates two frames: the state set of the next one is strictly larger |
| Growth.FramesIncrease | src/simpleIC3/ic3/ic3.h:966-1054 | If every frame up to k has kept a clause, F_k has at least k + 1 states |
| Growth.DepthBound | src/simpleIC3/ic3/ic3.h:590-637 | The depth stays below 2 to the number of latches |
| Growth.AllStatesSize | src/simpleIC3/ic3/ic3.h:590-637 | There are exactly 2^n states over n latches |
| Abstractions.CalcAbstraction | src/simpleIC3/ic3/ic3.h:1516-1523 | The loop computes the 32-bit signature of the clause |
| Abstractions.SubsetCovered | src/simpleIC3/ic3/ic3.h:1103 | The signature filter never turns away a sub-clause |
| Engine.IsPartOf | src/simpleIC3/ic3/ic3.h:1104-1114 | Counting the marked literals decides whether the clause contains the marked one |
| Engine.MarkSeen | src/simpleIC3/ic3/ic3.h:1080-1091 | The bit map has exactly the literals of the clause |
| Engine.ClauseDB.constructor | src/simpleIC3/ic3/ic3.h:423-474 | One unit clause for every latch with a reset value in frame 0, which then describes exactly the reset states; the frame invariant holds |
| Engine.ClauseDB.AddResets | src/simpleIC3/ic3/ic3.h:459-471 | After all latches have been visited every state of frame 0 is a reset state |
| Engine.ClauseDB.PushFrame | src/simpleIC3/ic3/ic3.h:624 | A new empty frame changes no F_i |
| Engine.ClauseDB.SolveAtFrame | src/simpleIC3/ic3/ic3.h:237-252 | A satisfiable query gives a step from a state of F_frame; an unsatisfiable one gives exactly the live clauses of that frame or later ones, and the next-state literals, that are in the final conflict, and these cannot hold together |
| Engine.ClauseDB.Ask | src/simpleIC3/ic3/ic3.h:240-251 | A query about clauses of the store is answered by the one solver that lives as long as the engine, through the activation variables of the clauses; the core has exactly the clauses and literals of the final conflict |
| Engine.ClauseDB.MarkSubsumed | src/simpleIC3/ic3/ic3.h:1076-1125 | Exactly the proper super-clauses of the given clause among the entries from `start` on become marked |
| Engine.ClauseDB.IsBlocked | src/simpleIC3/ic3/ic3.h:1129-1190 | Decides whether an unmarked clause at the frame or later blocks the cube, and returns the last frame with such a clause |
| Sessions.LatchesOpen | src/simpleIC3/ic3/ic3.h:1156-1157 | Whatever has been added, asked and released, a latch of the current state has no value on level 0 of the solver, so that the early answer is never given |
| Engine.ClauseDB.BlockedInFrame | src/simpleIC3/ic3/ic3.h:1163-1188 | No unmarked clause of the frame blocks the cube unless one has been found |
| Engine.ClauseDB.BlocksCube | src/simpleIC3/ic3/ic3.h:1171-1186 | The signature, the lengths and the marks decide exactly whether all literals of the clause are negated literals of the cube |
| Engine.ClauseDB.Generalize | src/simpleIC3/ic3/ic3.h:1205-1377 | No literal of the result can be left out: it is the only one forced by reset, or without it some step from F_frame violates the clause. The result is what trials in the order of `SortByPriority` leave, a sub-clause with a literal forced by reset, inductive relative to F_frame (for frame 0 even without assuming the clause); the flag says exactly whether it is shorter, and a unit clause stays as it is |
| Engine.ClauseDB.TryLiterals | src/simpleIC3/ic3/ic3.h:1246-1353 | The loop over the literals: at the end every one of them has stayed needed or is gone |
| Engine.ClauseDB.TryDrop | src/simpleIC3/ic3/ic3.h:1246-1353 | The literal tried stays exactly if it is the last one forced by reset or a step from F_frame needs it; otherwise it goes with all literals outside the final conflict, except the last one forced by reset. The invariant of generalization is kept, although the clauses under the activation literal may be weaker than the current one |
| Engine.ClauseDB.DropUnneeded | src/simpleIC3/ic3/ic3.h:1309-1341 | Core literals stay, every other literal goes except the last one in the clause that is forced by reset, and that one only if no other literal forced by reset is left; the count of literals forced by reset stays exact and positive and all flags are clear again |
| Engine.ClauseDB.FlagCore | src/simpleIC3/ic3/ic3.h:1309-1318 | Flags mark exactly the literals of the core |
| Engine.ClauseDB.CountReset | src/simpleIC3/ic3/ic3.h:1229-1235 | The exact number of literals that satisfy reset |
| Engine.ClauseDB.SortByPriority | src/simpleIC3/ic3/ic3.h:1380-1403 | Every stretch of positions up to the next least priority is rotated by one place: its last position comes first; the result is a permutation of the positions |
| Ordering.OneExchange | src/simpleIC3/ic3/ic3.h:1388-1400 | One pass keeps the rotation, although priorities are looked up by position in the cube and not in the order |
| Ordering.NotSorted | src/simpleIC3/ic3/ic3.h:1388-1400 | For the priorities 3, 1, 2 the order is 1, 0, 2, which is not by priority |
| Ordering.SortedExactly | src/simpleIC3/ic3/ic3.h:1388-1400 | The order is by priority if and only if no position that is passed over is larger than what follows: its neighbour, or everything behind a neighbour of least priority |
| Engine.CoreInductive | src/simpleIC3/ic3/ic3.h:1285-1341 | What is left after dropping by the core is inductive, provided the clauses assumed are super-clauses of it |
| Generalization.HypothesisCovers | src/simpleIC3/ic3/ic3.h:1279-1283 | The clause under the activation literal contains the clause that is left |
| Generalization.ResetCountDrop | src/simpleIC3/ic3/ic3.h:1307-1333 | Dropping a literal lowers the count by one exactly if the literal satisfies reset |
| Generalization.ResetCountWitness | src/simpleIC3/ic3/ic3.h:1267-1270 | A positive count means that a remaining literal is forced by reset |
| Generalization.StaysOn | src/simpleIC3/ic3/ic3.h:1283-1298 | A literal whose trial has found a step that needs it is still needed after others have been dropped |
| Generalization.AllStay | src/simpleIC3/ic3/ic3.h:1246-1353 | If every literal tried is needed or gone, none can be left out of the clause |
| Engine.ClauseDB.EarlyPropagate | src/simpleIC3/ic3/ic3.h:900-920 | The frame is the first one from the given frame on that the clause is not inductive relative to, at most the last but one unless the given frame is later |
| Engine.ClauseDB.RaisePriorities | src/simpleIC3/ic3/ic3.h:882-886 | Exactly the latches of the clause gain one |
| Engine.ClauseDB.AddNewClause | src/simpleIC3/ic3/ic3.h:865-948 | Exactly one clause is added, a generalisation of the given one from which no literal can be left out, at the first frame that it is not inductive relative to; exactly its super-clauses there are marked and exactly its latches gain priority. The frame invariant is kept, no F_i grows, everything that was blocked stays blocked and the negation of the clause is blocked at its frame |
| Engine.ClauseDB.Install | src/simpleIC3/ic3/ic3.h:919-940 | Exactly one clause is appended at its frame and exactly its super-clauses there are marked |
| Engine.ClauseDB.Append | src/simpleIC3/ic3/ic3.h:922-934 | The store is the old one with the clause, its frame and its signature |
| Engine.ClauseDB.PropagateClauses | src/simpleIC3/ic3/ic3.h:966-1055 | "Proved" leaves a proof in the last frame. Otherwise the invariant holds again, frame 0 has not grown, no clause before the last frame is marked or could be pushed, no clause of the last frame is marked or contains another one, and every frame but the last contains a state that steps out of it |
| Engine.ClauseDB.PropagateFrame | src/simpleIC3/ic3/ic3.h:979-1023 | In-place compaction with queries in between. Of the clauses of the frame exactly the marked ones are released, exactly the unmarked ones that F_f implies after one step go to the next frame, and the others stay unmarked; nothing else changes but the marks of super-clauses in the next frame. The frame invariant holds again, no state leaves F_0 to F_f, and a clause that is kept witnesses a difference to the next frame |
| Sweeps.SweptNext | src/simpleIC3/ic3/ic3.h:984-1020 | Visiting one more entry extends the exact account of what has been released, pushed, kept and marked, because entries come in the order of their sizes |
| Sweeps.SweptStuck | src/simpleIC3/ic3/ic3.h:979-1023 | After its sweep a frame has no marked clause and none that it implies after one step |
| Sweeps.StuckStays | src/simpleIC3/ic3/ic3.h:966-1023 | Sweeping a later frame leaves it that way |
| Engine.ClauseDB.VisitEntry | src/simpleIC3/ic3/ic3.h:984-1020 | Each entry is released if it is marked, pushed if the frame implies it after one step, and kept otherwise, and the half-compacted list remains one that may be queried |
| Engine.ClauseDB.ReleaseAt | src/simpleIC3/ic3/ic3.h:987-992 | Releasing a marked entry in the middle of compaction changes no F_i |
| Engine.ClauseDB.PushAt | src/simpleIC3/ic3/ic3.h:1005-1015 | Pushing an entry whose list still holds it keeps the invariant of the half-compacted list |
| Engine.ClauseDB.KeepAt | src/simpleIC3/ic3/ic3.h:1016-1020 | A kept entry moves down; the invariant of the half-compacted list holds for the next position |
| Engine.ClauseDB.SortBySize | src/simpleIC3/ic3/ic3.h:1070-1072 | A permutation of the entries, ordered by the length of their clauses |
| Engine.ClauseDB.ReleaseClause | src/simpleIC3/ic3/ic3.h:216-232 | The clause becomes empty, unmarked and without frame, everything else stays |
| Engine.ClauseDB.MoveInvariantToEnd | src/simpleIC3/ic3/ic3.h:331-351 | Afterwards the last frame describes exactly the states of the empty frame's F_from |
| Engine.ClauseDB.MoveEntry | src/simpleIC3/ic3/ic3.h:335-347 | Every entry is released if marked and moved to the last frame otherwise, without changing the states of F_from |
| Engine.ClauseDB.SweepLast | src/simpleIC3/ic3/ic3.h:1031-1053 | Exactly the clauses of the last frame that were marked or contain another one that remains are released, and no F_i changes, although the sweep overwrites a list position other than the one it visits |
| Sweeps.CleanedNext | src/simpleIC3/ic3/ic3.h:1037-1051 | One more entry of the last frame extends the exact account of what has been released and marked |
| Sweeps.CleanedClean | src/simpleIC3/ic3/ic3.h:1031-1053 | At the end no clause of the last frame is marked or contains another one |
| Engine.ClauseDB.VisitLast | src/simpleIC3/ic3/ic3.h:1037-1051 | One entry of that sweep: released if marked, otherwise exactly its super-clauses among the later entries are marked |
| Compaction.CompactingSafe | src/simpleIC3/ic3/ic3.h:982-1022 | Every list position is live at its frame or later, or the constant true, so that queries may use the list in the middle of compaction |
| Compaction.PushAndMark | src/simpleIC3/ic3/ic3.h:1005-1015 | Marking before pushing is sound: the frame invariant holds after both |
| Compaction.EndCompacting | src/simpleIC3/ic3/ic3.h:982-1023 | Cutting the list leaves exactly the live clauses of the frame, once each |
| Compaction.MovedToLast | src/simpleIC3/ic3/ic3.h:331-351 | The last frame has the states of the first one that was moved |
| Obligations.TCube.Follow | src/simpleIC3/ic3/ic3.h:690-774 | From any state of the cube the recorded inputs lead along the parents to a bad state |
| Obligations.TCube.CounterExample | src/simpleIC3/ic3/ic3.h:611-616 | A chain whose first cube contains a reset state yields an execution into the property |
| Obligations.OneLess | src/simpleIC3/ic3/ic3Types.h:74-83 | After one reference less the counts are exact again, or the cube leaves the live set and its parent is owed one |
| Obligations.Adopt | src/simpleIC3/ic3/ic3Types.h:46-51 | A new cube with one more reference on its parent keeps all counts exact |
| Obligations.OnlyRootLeft | src/simpleIC3/ic3/ic3.h:617-621 | If only the root is held from outside, only the root is left |
| Obligations.TCubePool.NewCube | src/simpleIC3/ic3/ic3Types.h:46-66 | Counts stay exact: one for the caller, one more on the parent |
| Obligations.TCubePool.Deref | src/simpleIC3/ic3/ic3Types.h:74-83 | Terminates along the parents; exactly the cubes that lose their last reference leave the live set, all other counts stay exact, and the cube itself is left to the caller to delete |
| Obligations.TCubePool.Release | src/simpleIC3/ic3/ic3Types.h:68-83 | The number of remaining cubes is the number of live ones |
| Cubes.Reduce | src/simpleIC3/ic3/ic3.h:714-773 | The cube is what dropping the latches outside the cone and then trying the others in the order of their priorities leaves of the state; all its states agree with it on the target literals under the inputs, and no literal of it can be left out: it is a target itself, or some target would lose its value |
| Cubes.ReductionStands | src/simpleIC3/ic3/ic3.h:714-773 | Dropping latches outside the cone and by ternary simulation keeps every target literal |
| Cubes.CubeNotSpare | src/simpleIC3/ic3/ic3.h:714-773 | What ternary simulation could not give up cannot be left out of the cube |
| Cubes.PredecessorSteps | src/simpleIC3/ic3/ic3.h:694-773 | All states of the reduced cube step into the successor cube |
| Cubes.RootBad | src/simpleIC3/ic3/ic3.h:253-329 | All states of the reduced cube are bad |
| Cubes.IsResetCube | src/simpleIC3/ic3/ic3.h:1425-1434 | Decides whether the cube contains a reset state; if not, one of its literals is excluded by reset |
| Cubes.ConflictsWithReset | src/simpleIC3/ic3/ic3.h:1404-1423 | Decides whether no literal of the clause is forced by reset |
| Cubes.BlockingClause | src/simpleIC3/ic3/ic3.h:779-824 | Exactly the negated literals of the core, and if none of them is forced by reset exactly one more: the negation of the first literal of the cube for which that is forced by reset |
| Cubes.ReadOffFits | src/simpleIC3/ic3/ic3.h:779-824 | A clause read off the core is a sub-clause of the negated cube, contains the negated core and a literal forced by reset |
| Queueing.MeasureBlocked | src/simpleIC3/ic3/ic3.h:839-851 | Moving a blocked obligation forward makes the measure smaller |
| Queueing.MeasurePredecessor | src/simpleIC3/ic3/ic3.h:689-774 | Queueing an unblocked predecessor of the minimum makes the measure smaller |
| Queueing.MeasureClause | src/simpleIC3/ic3/ic3.h:826-836 | A clause that blocks a new pair makes the measure smaller, whatever is queued afterwards |
| Queueing.EnqueuedUrgency | src/simpleIC3/util/VHeap.h:53-58 | What was queued last under the least frame is the minimum |
| Queueing.ObligationQueue.constructor | src/simpleIC3/ic3/ic3.h:234 | The queue starts empty |
| Queueing.ObligationQueue.HoldRoot | src/simpleIC3/ic3/ic3.h:658-660 | The root is held once more; counts are exact |
| Queueing.ObligationQueue.OnlyRoot | src/simpleIC3/ic3/ic3.h:617-621 | With an empty queue only the root is left |
| Queueing.ObligationQueue.Take | src/simpleIC3/ic3/ic3.h:668-670 | An obligation of the least frame, in hand, with all counts still exact |
| Queueing.ObligationQueue.Requeue | src/simpleIC3/ic3/ic3.h:829-847 | Queued at its new frame, counts unchanged |
| Queueing.ObligationQueue.Discard | src/simpleIC3/ic3/ic3.h:833-851 | Released and deleted if nobody holds it; counts of all others exact |
| Queueing.ObligationQueue.Spawn | src/simpleIC3/ic3/ic3.h:692-693 | A predecessor cube with its inputs continues the chain of its parent |
| Queueing.ObligationQueue.Precede | src/simpleIC3/ic3/ic3.h:690-774 | The obligation and, one frame before it, its predecessor are queued; counts are exact |
| Heaps.Heap.PercolateUp | src/minisat/mtl/Heap.h:45-58 | Heap order and the index table are restored if order was violated towards the root only; the keys are the same |
| Heaps.Heap.PercolateDown | src/minisat/mtl/Heap.h:61-73 | Heap order from the position on and the index table are restored; nothing changes if order held |
| Heaps.Heap.Insert | src/minisat/mtl/Heap.h:99-107 | Exactly the new key is added, heap order and index table hold |
| Heaps.Heap.Update | src/minisat/mtl/Heap.h:89-96 | The key is in the heap afterwards, every other key as before |
| Heaps.Heap.RemoveMin | src/minisat/mtl/Heap.h:127-136 | The root and nothing else is removed |
| Heaps.RootIsMin | src/minisat/mtl/Heap.h:127-136 | The root of an ordered heap is a least key |
| VHeaps.VHeap.constructor | src/simpleIC3/util/VHeap.h:49-51 | An empty queue |
| VHeaps.VHeap.LeastKey | src/simpleIC3/util/VHeap.h:84-97 | The root of the heap of keys is the least key with a nonempty bucket |
| VHeaps.VHeap.Insert | src/simpleIC3/util/VHeap.h:53-58 | The bag of elements gains exactly the element, at the end of its bucket |
| VHeaps.VHeap.RemoveMin | src/simpleIC3/util/VHeap.h:84-97 | Removes the element added last among those with the least key; the bag loses exactly it |
| Lbools.RawConnectives | src/minisat/core/SolverTypes.h:94-119 | On all codes, including both for "undefined", the table look-ups compute the three-valued connectives |
| Aigs.KleeneSound | src/simpleIC3/ic3/Ternary.cpp:137-218 | A definite three-valued value is the two-valued value under every completion of the undefined latches and inputs |
| Aigs.SettleUnique | src/simpleIC3/ic3/Ternary.cpp:83-132 | The leaves determine a consistent assignment uniquely |
| Aigs.SettleMonotone | src/simpleIC3/ic3/Ternary.cpp:83-132 | More definite leaves give more definite gates |
| TernarySimulation.DequeueAccounted | src/simpleIC3/ic3/Ternary.cpp:107-110 | Taking the first node off the worklist keeps the ordering invariant while its fan-outs are visited |
| TernarySimulation.SkipAccounted | src/simpleIC3/ic3/Ternary.cpp:114 | Skipping a gate that is already queued is safe |
| TernarySimulation.RecomputeAccounted | src/simpleIC3/ic3/Ternary.cpp:115-126 | Recomputing a gate and queueing it if it changed keeps the ordering invariant |
| TernarySimulation.EmptyQueueSettled | src/simpleIC3/ic3/Ternary.cpp:107-131 | With an empty worklist every gate has its final value |
| TernarySimulation.LoweringStep | src/simpleIC3/ic3/Ternary.cpp:115-117 | While a latch is being lowered, a gate changes only if its final value differs from its value before the trial |
| TernarySimulation.RollbackAccounted | src/simpleIC3/ic3/Ternary.cpp:117-124 | A half-propagated trial with the old value put back is a valid start of the simulation that restores the assignment |
| TernarySimulation.WeightDrops | src/simpleIC3/ic3/Ternary.cpp:107-130 | The pending set read as a binary number becomes smaller with every node taken off |
| TernarySimulation.NecessaryStays | src/simpleIC3/ic3/Ternary.cpp:183-208 | A latch that was needed stays needed when others are dropped later |
| TernarySimulation.ReducedCubeForces | src/simpleIC3/ic3/Ternary.cpp:137-218 | A preserved literal that was definite has the same value under every completion of the dropped latches |
| TernarySimulation.Ternary.constructor | src/simpleIC3/ic3/Ternary.cpp:32-53 | The fan-out lists hold exactly the gates that each variable feeds |
| TernarySimulation.Ternary.Propagate | src/simpleIC3/ic3/Ternary.cpp:55-77 | One gate is recomputed, and the result says whether the assignment changed |
| TernarySimulation.Ternary.Visit | src/simpleIC3/ic3/Ternary.cpp:111-128 | One fan-out: the worklist invariant holds again, or a preserved variable would lose its value |
| TernarySimulation.Ternary.Spread | src/simpleIC3/ic3/Ternary.cpp:107-130 | All fan-outs of one node, with a smaller pending weight |
| TernarySimulation.Ternary.Simulate | src/simpleIC3/ic3/Ternary.cpp:83-132 | Terminates and succeeds if and only if no preserved variable changes; then the assignment is the unique consistent one for the new leaf value, otherwise exactly the one before |
| TernarySimulation.Ternary.Load | src/simpleIC3/ic3/Ternary.cpp:140-168 | The leaves have the given latch and input values, the constant is false |
| TernarySimulation.Ternary.Sweep | src/simpleIC3/ic3/Ternary.cpp:171-174 | One pass in variable order makes every gate consistent |
| TernarySimulation.Ternary.TryLatch | src/simpleIC3/ic3/Ternary.cpp:192 | Trying one latch keeps all preserved values and makes it undefined unless it is needed |
| TernarySimulation.Ternary.TryAll | src/simpleIC3/ic3/Ternary.cpp:183-208 | The result is that of trying the defined latches one by one, those with a priority first, each given up unless it is needed at that time; every latch that is left is needed |
| TernarySimulation.Ternary.MarkPreserved | src/simpleIC3/ic3/Ternary.cpp:147-150 | Exactly the variables of the listed literals are marked |
| TernarySimulation.Ternary.Reduce | src/simpleIC3/ic3/Ternary.cpp:137-218 | Surviving latches are those that trials in the order of the priorities leave and keep their values, every preserved variable keeps its value, and no surviving latch could be dropped as well |
| Cones.ConeDetermines | src/simpleIC3/ic3/Cone.cpp:37-56 | The latches and inputs of the cone determine the value of the node |
| Cones.AgreeOnCone | src/simpleIC3/ic3/Cone.cpp:60-78 | Two states that agree on the cone of a literal give it the same value |
| Cones.ConeOfInfluence.MarkCone | src/simpleIC3/ic3/Cone.cpp:37-56 | Exactly the transitive fan-in is added to the marks, although marked nodes are not entered again |
| Cones.ConeOfInfluence.CollectCOI | src/simpleIC3/ic3/Cone.cpp:60-78 | Exactly the latches in the transitive fan-in |
| Encoding.AigToCnf | src/simpleIC3/aiglib/aigtocnf.h:90-125 | The models of the clauses are exactly the assignments in which the constant is false and every gate is the conjunction of its inputs |
| Encoding.GateClauses | src/simpleIC3/aiglib/aigtocnf.h:105-125 | Three clauses say exactly that a gate is the conjunction of its inputs |
| Encoding.ModelEval | src/simpleIC3/aiglib/aigtocnf.h:90-125 | In every model each node has the value that the circuit computes from the latches and inputs of the model |
| Sessions.StepHeld | src/simpleIC3/ic3/ic3.h:237-252 | Every step of the circuit is a model of all that the solver holds, whatever clauses have been added and released |
| Sessions.Found | src/simpleIC3/ic3/ic3.h:248-251 | A model under the assumptions is a step that satisfies the query |
| Sessions.NotFound | src/simpleIC3/ic3/ic3.h:782-796 | The clauses and next-state literals in the final conflict cannot hold together in any step |
| Sessions.StaysInStep | src/simpleIC3/ic3/ic3.h:231 | Clauses added and released at the end leave those of the engine as they are |
| Sessions.OneLessInStep | src/simpleIC3/ic3/ic3.h:212-232 | Releasing the activation variable of one clause leaves all others in use |
| Sessions.TranslatedAnswer | src/simpleIC3/ic3/ic3.h:237-252 | What is answered about activation variables holds for the clauses behind them |
| Sessions.Session.constructor | src/simpleIC3/ic3/ic3.h:423-425 | A new solver holds the gates and nothing else |
| Sessions.Session.AddClause | src/simpleIC3/ic3/ic3.h:894-897 | The clause is held behind a new activation variable; everything else is as before and the solver never becomes inconsistent |
| Sessions.Session.Release | src/simpleIC3/ic3/ic3.h:231 | The activation variable is false for good, whether the solver had found that before or not |
| Sessions.Session.Ask | src/simpleIC3/ic3/ic3.h:237-252 | One of any number of queries to the same solver: a step that satisfies the clauses asked for, or exactly the part of the assumptions that is in the final conflict, which cannot hold together; what is held stays |
| Sessions.Session.AskWith | src/simpleIC3/ic3/ic3.h:1278-1361 | The same with clauses that are only needed for this query |
| ClauseSets.Add | src/minisat/core/Solver.cc:154-181 | The set of models is cut down to those of the clause |
| Literals.ToIntInverse | src/minisat/core/SolverTypes.h:63-72 | Packing literals into integers loses nothing |
| Literals.Sort | src/minisat/core/Solver.cc:160 | Sorted, with the same literals |
| Literals.Filter | src/minisat/core/Solver.cc:161-167 | False and repeated literals go, true clauses and tautologies are recognised |
| Trails.CutValue | src/minisat/core/Solver.cc:231-242 | Going back keeps exactly the literals of the remaining levels |
| Trails.LevelsAscend | src/minisat/core/Solver.cc:486-492 | Levels never decrease along the trail |
| Watching.SwapWatches | src/minisat/core/Solver.cc:526-529 | Swapping the two watched literals of a clause that is not a reason keeps the kernel invariant |
| Watching.MoveWatch | src/minisat/core/Solver.cc:538-543 | Moving a watch to a literal that is not false keeps the kernel invariant and settles the clause |
| Watching.EnqueueKernel | src/minisat/core/Solver.cc:486-492 | An implied literal or a decision keeps the kernel invariant |
| Watching.CutKernel | src/minisat/core/Solver.cc:231-242 | The watch invariant holds again after any backjump |
| Watching.Propagated | src/minisat/core/Solver.cc:506-564 | After complete propagation every clause has a true literal or two unassigned watched literals |
| Watching.LearnKernel | src/minisat/core/Solver.cc:724-728 | Attaching the asserting clause and enqueueing its first literal keeps the kernel invariant |
| Watching.RemoveKernel | src/minisat/core/Solver.cc:212-219 | Removing a clause lazily keeps the kernel invariant |
| Watching.TrimKernel | src/minisat/core/Solver.cc:609-615 | Trimming literals that are false on level 0 keeps the watch invariant, although a blocker may be among them |
| Watching.RecycleKernel | src/minisat/core/Solver.cc:658-677 | Released variables without clauses can be used again with the watch invariant kept, if and only if no live clause has one of them as a blocker |
| Watching.StaleBlocker | src/minisat/core/Solver.cc:609-677 | A state in which the invariant holds and a released variable without clauses is still a blocker: its literal has been trimmed |
| Watching.ReleasedApart | src/minisat/core/Solver.cc:145-151 | No such blocker is left if the negation of the released literal is in no clause and has never been trimmed |
| Watching.WiderKernel | src/minisat/core/Solver.cc:127-140 | A new variable keeps the watch invariant |
| Watching.EmptiedKernel | src/minisat/core/Solver.cc:127-128 | Emptying the watch lists of a variable without clauses keeps the watch invariant |
| Meaning.TrailIsModel | src/minisat/core/Solver.cc:778-786 | A trail that assigns every variable after complete propagation is a model of all clauses |
| Meaning.RootConflict | src/minisat/core/Solver.cc:715 | A false clause on level 0 means that there is no model |
| Meaning.RemoveMeaning | src/minisat/core/Solver.cc:212-219 | Removing a learnt or root-satisfied clause keeps the models |
| Meaning.TrimMeaning | src/minisat/core/Solver.cc:609-615 | Trimming keeps the models, and learnt clauses stay implied |
| Meaning.RecycleMeaning | src/minisat/core/Solver.cc:658-677 | Afterwards nothing is said about the recycled variables, and what is said about the others is as before |
| Kernels.OpenWatches | src/minisat/core/Solver.cc:610 | After complete propagation a clause that is not satisfied has two open watched literals |
| Learning.ConflictRefuted | src/minisat/core/Solver.cc:306-324 | No model makes all marked literals of the conflict clause true |
| Learning.ResolveRefuted | src/minisat/core/Solver.cc:306-333 | Resolving with a reason keeps this |
| Learning.RedundantMade | src/minisat/core/Solver.cc:388-444 | A model that makes the marked literals that are not redundant true makes the redundant ones true as well |
| Learning.ChainFails | src/minisat/core/Solver.cc:408-417 | When one literal fails, everything waiting on the stack fails |
| Learning.Return | src/minisat/core/Solver.cc:424-440 | A literal whose whole reason is covered is redundant, and the one below it on the stack continues behind it |
| Learning.LearntImplied | src/minisat/core/Solver.cc:296-384 | The minimised clause holds in every model of the problem |
| Learning.UipGoesOn | src/minisat/core/Solver.cc:301-334 | Resolving with a reason follows the recursive definition of the first unique implication point |
| Learning.UipEnds | src/minisat/core/Solver.cc:334 | When one literal of the current level is left, that definition ends with the marked places |
| Learning.BackUnit | src/minisat/core/Solver.cc:366-381 | After the backjump the first literal is unassigned and all others are false |
| Learning.LearnClause | src/minisat/core/Solver.cc:717-728 | Backjump, learnt clause and asserted literal together keep the kernel invariant and the models |
| Learning.ExplainsReason | src/minisat/core/Solver.cc:473-476 | Replacing a literal by its reason keeps the explanation of the assumption |
| Learning.AccountsReason | src/minisat/core/Solver.cc:466-480 | Replacing a literal by its reason keeps the account of the decisions that the assumption depends on |
| Learning.AccountsEnd | src/minisat/core/Solver.cc:456-483 | When no mark is left, the decisions collected are exactly those that the assumption depends on |
| Learning.ExplainsEnd | src/minisat/core/Solver.cc:456-483 | At the end one literal of the final conflict holds in every model |
| SearchState.DecisionIsAssumption | src/minisat/core/Solver.cc:763-776 | While assumptions are being opened, every decision on the trail is an assumption |
| SearchState.DecideSmaller | src/minisat/core/Solver.cc:787-790 | A decision makes the measure of the search smaller |
| SearchState.BackSmaller | src/minisat/core/Solver.cc:717-729 | A backjump with its asserted literal makes the measure of the search smaller |
| SearchState.RemainingBound | src/minisat/core/Solver.cc:839-875 | The measure has a bound that depends on the numbers of variables and assumptions alone |
| Restarts.LubyExponent | src/minisat/core/Solver.cc:822-836 | The loops compute the recursively defined sequence |
| Restarts.LubyPeak | src/minisat/core/Solver.cc:822-836 | Every exponent occurs in the sequence, so restart limits are unbounded |
| Kernels.Solver.UncheckedEnqueue | src/minisat/core/Solver.cc:486-492 | The trail gains the literal with its reason and level |
| Kernels.Solver.FrontWatch | src/minisat/core/Solver.cc:523-529 | The false watched literal comes second, the invariant is kept |
| Kernels.Solver.FindWatch | src/minisat/core/Solver.cc:538-543 | The first literal from the third on that is not false, if there is one |
| Kernels.Solver.MoveTo | src/minisat/core/Solver.cc:538-543 | The clause changes lists and is settled |
| Kernels.Solver.Rewatch | src/minisat/core/Solver.cc:538-557 | A clause whose first literal is not true gets a new watch, implies that literal, or is in conflict |
| Kernels.Solver.Visit | src/minisat/core/Solver.cc:517-557 | One watcher behind the blocker test: new watch, implied literal or conflict, with the invariant for the rest of the list |
| Kernels.Solver.VisitAt | src/minisat/core/Solver.cc:517-557 | In-place compaction of a list that the clause being moved never belongs to |
| Kernels.Solver.CopyRest | src/minisat/core/Solver.cc:550-552 | The watches that are left are kept |
| Kernels.Solver.Lookup | src/minisat/core/SolverTypes.h:340-380 | A dirty watch list loses exactly the watchers of removed clauses |
| Kernels.Solver.OpenList | src/minisat/core/Solver.cc:512-514 | The next literal of the trail starts: all clauses of its list are pending |
| Kernels.Solver.WorkList | src/minisat/core/Solver.cc:517-558 | No clause is pending at the end, or a clause is all false and everything is dequeued |
| Kernels.Solver.PropagateLit | src/minisat/core/Solver.cc:511-559 | One literal of the trail is propagated completely, or a clause that is all false is returned |
| Kernels.Solver.Propagate | src/minisat/core/Solver.cc:506-564 | Complete propagation or an all-false clause; only implied literals are added and the models stay the same |
| Kernels.Solver.MarkVar | src/minisat/core/Solver.cc:426-429 | A changed mark is remembered for clearing |
| Kernels.Solver.FailStack | src/minisat/core/Solver.cc:408-417 | The failed marks set are correct verdicts |
| Kernels.Solver.MarkRemovable | src/minisat/core/Solver.cc:426-429 | The mark set is a correct verdict and leaves fewer undecided variables |
| Kernels.Solver.LitRedundant | src/minisat/core/Solver.cc:388-444 | Terminates and answers "removable" if and only if the literal is redundant; all memo marks stay correct and remembered |
| Kernels.Solver.Absorb | src/minisat/core/Solver.cc:313-324 | Exactly the literals of the clause above level 0 become marked, the count of open literals of the current level is exact |
| Kernels.Solver.NextMarked | src/minisat/core/Solver.cc:326-328 | The last marked literal of the trail |
| Kernels.Solver.FirstUip | src/minisat/core/Solver.cc:301-334 | Ends at the first place of the current level, counted from the end of the trail, at which all other marked literals are below that level: the marked places are those that the recursive definition of resolution down the trail gives; they are refuted together |
| Kernels.Solver.Minimize | src/minisat/core/Solver.cc:336-364 | Keeps exactly the literals that are not redundant |
| Kernels.Solver.SecondHighest | src/minisat/core/Solver.cc:366-381 | A literal of the greatest remaining level comes second |
| Kernels.Solver.ClearMarks | src/minisat/core/Solver.cc:383 | All marks are clear |
| Kernels.Solver.Analyze | src/minisat/core/Solver.cc:296-384 | The clause has exactly the negated literals at the places that resolution down to the first unique implication point leaves, without those that the others make redundant; it is implied, false under the trail, with exactly one literal of the current level in front and a literal of the backjump level second; all marks are clear |
| Kernels.Solver.CancelUntil | src/minisat/core/Solver.cc:231-242 | The trail is cut at the level and everything behind it is unassigned |
| Kernels.Solver.AttachClause | src/minisat/core/Solver.cc:184-191 | Two watchers with the other literal as blocker |
| Kernels.Solver.Learn | src/minisat/core/Solver.cc:717-729 | The invariant holds again with the first literal enqueued for its reason; exactly the learnt clause has been added, unless it is a unit; same models |
| Kernels.Solver.MarkReason | src/minisat/core/Solver.cc:473-476 | Exactly the literals of the reason above level 0 become marked |
| Kernels.Solver.CollectAt | src/minisat/core/Solver.cc:466-480 | One place of the trail: a marked decision joins the final conflict, a marked literal with a reason is replaced by its reason, and nothing else happens; the decisions that the assumption depends on stay those collected or below a mark |
| Kernels.Solver.AnalyzeFinal | src/minisat/core/Solver.cc:456-483 | The final conflict is exactly the given literal and the negations of the decisions that it depends on, by recursion down the reasons, or on level 0 the literal alone; one of them holds in every model, and all marks are clear |
| Kernels.Solver.Resolve | src/minisat/core/Solver.cc:714-729 | A conflict above level 0 is answered by the clause that `Analyze` describes, a backjump and the asserted literal; the measure is smaller and the models are the same |
| Kernels.Solver.NewDecisionLevel | src/minisat/core/Solver.h:346 | A new level starts at the end of the trail |
| Kernels.Solver.Decide | src/minisat/core/Solver.cc:787-790 | The state of the search is kept, the measure falls |
| Kernels.Solver.OpenAssumptions | src/minisat/core/Solver.cc:762-776 | Ends with all assumptions true, with one that is unassigned, or with the final conflict of the first assumption that is false |
| Kernels.Solver.PickBranchLit | src/minisat/core/Solver.cc:249-276 | An unassigned decision variable unless there is none |
| Kernels.Solver.Settle | src/minisat/core/Solver.cc:711-712 | Propagation within the search |
| Kernels.Solver.NextDecision | src/minisat/core/Solver.cc:762-790 | A decision, a model, or a final conflict |
| Kernels.Solver.Round | src/minisat/core/Solver.cc:710-792 | One round, with simplification and clause deletion before the decision, keeps the models and either answers or makes the measure smaller |
| Kernels.Solver.CleanUp | src/minisat/core/Solver.cc:753-760 | Simplification on level 0 and deletion of learnt clauses keep the models, the state of the search and its measure |
| Kernels.Solver.Simplify | src/minisat/core/Solver.cc:641-686 | Same models and measure with everything propagated, or the answer that there is no model |
| Kernels.Solver.RemoveSatisfied | src/minisat/core/Solver.cc:601-620 | Among the learnt clauses or among the others, exactly the satisfied ones are removed and every other one is left with exactly its open literals |
| Kernels.Solver.Trim | src/minisat/core/Solver.cc:609-615 | The in-place removal leaves exactly the literals that are not false; models and invariant are kept |
| Kernels.Solver.ReduceDB | src/minisat/core/Solver.cc:581-599 | Only learnt clauses of more than two literals that are no reasons go; models and trail stay |
| Kernels.Solver.Search | src/minisat/core/Solver.cc:702-793 | Terminates even without a limit on conflicts; "false" comes with a clause of negated assumptions implied by the problem, "true" with a complete assignment under all assumptions, and "undefined" only if the limit is below the measure at the start |
| Kernels.Solver.SearchOn | src/minisat/core/Solver.cc:862-868 | The restart loop terminates: some limit of the Luby sequence is never reached |
| Kernels.Solver.Solve | src/minisat/core/Solver.cc:839-884 | Always answers: a model of the problem and the assumptions, or negated assumptions one of which holds in every model, namely one that is false after the assumptions before it and the decisions that this depends on; the solver can be used again |
| Kernels.Solver.Conclude | src/minisat/core/Solver.cc:882 | Back on level 0 with the same models |
| Kernels.Solver.Restart | src/minisat/core/Solver.cc:751 | Level 0 with the same models |
| Kernels.Solver.constructor | src/minisat/core/Solver.cc:54-104 | Without clauses everything is a model |
| Kernels.Solver.AddUnit | src/minisat/core/Solver.cc:171-173 | The models are those that make the literal true, or there are none |
| Kernels.Solver.AddClause | src/minisat/core/Solver.cc:154-181 | The models are those that satisfy the clause as well, or there are none |
| Kernels.Solver.RemoveClause | src/minisat/core/Solver.cc:212-219 | Same models, invariant kept, although the watchers stay behind |
| Kernels.Solver.ReleaseVar | src/minisat/core/Solver.cc:145-151 | A literal without a value becomes true for good and its variable is remembered; a literal with a value changes nothing |
| Kernels.Solver.RecycleReleased | src/minisat/core/Solver.cc:658-677 | The trail loses exactly the released variables, in place and in order; invariant kept, and the other variables have the same models |
| Kernels.Solver.NewVar | src/minisat/core/Solver.cc:119-142 | A free variable or a new one, without a value and without clauses; same models |
| Kernels.Solver.CompleteIsModel | src/minisat/core/Solver.cc:778-786 | When nothing is left to decide the assignment satisfies every clause and every assumption |
| Subsumption.CalcAbstraction | src/minisat/core/SolverTypes.h:187-192 | The loop computes the signature |
| Subsumption.VariablesCovered | src/minisat/core/SolverTypes.h:445-446 | The filter lets every pair through whose variables are contained |
| Subsumption.Match | src/minisat/core/SolverTypes.h:454-460 | Finds the literal, or once its negation |
| Subsumption.Subsumes | src/minisat/core/SolverTypes.h:438-467 | The verdict is exact: subsumption if and only if all literals occur, strengthening by a literal if and only if all others occur and its negation does |
| Subsumption.SubsumedSound | src/minisat/simp/SimpSolver.cc:389-390 | A subsumed clause follows |
| Subsumption.StrengthenSound | src/minisat/simp/SimpSolver.cc:391-395 | Removing the negated literal changes nothing in models of the subsuming clause |
| Subsumption.RemoveLit | src/minisat/core/SolverTypes.h:469-473 | The clause without the literal, in order |
| Elimination.ResolutionSound | src/minisat/simp/SimpSolver.cc:230-258 | Resolvents hold in every model of their parents |
| Elimination.Merge | src/minisat/simp/SimpSolver.cc:230-258 | Refuses exactly the tautologies, otherwise builds the resolvent |
| Elimination.MergeSize | src/minisat/simp/SimpSolver.cc:262-288 | Refuses exactly the tautologies, otherwise returns the length of the resolvent |
| Elimination.GroupSatisfies | src/minisat/simp/SimpSolver.cc:515-523 | If all resolvents hold, reading back the recorded side and the default unit satisfies all clauses on the variable |
| Elimination.ExtendAgrees | src/minisat/simp/SimpSolver.cc:578-592 | Reading back with three values agrees with the two-valued extension of every completion and leaves every recorded variable defined |
| Elimination.OrderedGroup | src/minisat/simp/SimpSolver.cc:515-523 | A recorded group looks only at variables that are known by the time it is read back |
| Simplification.SimpSolver.Enqueue | src/minisat/core/Solver.h:336 | The models are those that make the literal true; refused only if none does |
| Simplification.SimpSolver.Propagate | src/minisat/simp/SimpSolver.cc:225 | Root propagation keeps the models and leaves every clause with a true literal or with two open ones, or there are no models |
| Simplification.SimpSolver.RemoveClause | src/minisat/simp/SimpSolver.cc:188-200 | The clause is marked, occurrence lists stay valid |
| Simplification.SimpSolver.Lookup | src/minisat/core/SolverTypes.h:340-380 | The occurrence list holds live clauses with the variable only |
| Simplification.SimpSolver.StrengthenPair | src/minisat/simp/SimpSolver.cc:213-225 | A clause that shrinks to a unit is removed and its literal enqueued; same models |
| Simplification.SimpSolver.StrengthenLong | src/minisat/simp/SimpSolver.cc:216-223 | A longer clause loses the literal in place; lists and signature follow |
| Simplification.SimpSolver.StrengthenClause | src/minisat/simp/SimpSolver.cc:203-226 | Strengthening by an implied literal keeps the models or finds that there are none, and makes the store smaller |
| Simplification.SimpSolver.AttachClause | src/minisat/simp/SimpSolver.cc:163-182 | The clause is listed under each of its variables and queued |
| Simplification.SimpSolver.AddSimplified | src/minisat/simp/SimpSolver.cc:148-185 | The models are those that satisfy the clause as well, or there are none |
| Simplification.SimpSolver.BestVar | src/minisat/simp/SimpSolver.cc:373-377 | A variable of the clause with the shortest list |
| Simplification.SimpSolver.TryClause | src/minisat/simp/SimpSolver.cc:386-400 | One candidate is removed, strengthened or left alone, and afterwards the clause can do nothing more to it; same models |
| Simplification.SimpSolver.ScanCandidates | src/minisat/simp/SimpSolver.cc:383-401 | Every entry of the list has been treated at the end, although strengthening takes entries off the list being scanned; same models |
| Simplification.SimpSolver.SubsumeWith | src/minisat/simp/SimpSolver.cc:363-401 | Afterwards the queued clause neither subsumes nor strengthens any clause below the size limit, although only one list has been scanned; same models |
| Simplification.SimpSolver.BackwardSubsumptionCheck | src/minisat/simp/SimpSolver.cc:341-405 | Terminates with an empty queue and all root values used: no clause that was queued or has been shortened, and no root value found meanwhile, can subsume or strengthen any clause below the size limit; same models, or there are none |
| Simplification.SimpSolver.Split | src/minisat/simp/SimpSolver.cc:493-496 | Exactly the clauses with either sign of the variable, each once |
| Simplification.SimpSolver.WithinLimits | src/minisat/simp/SimpSolver.cc:501-508 | Continues if and only if number and length of the proper resolvents stay within the limits |
| Simplification.SimpSolver.MkElimClause | src/minisat/simp/SimpSolver.cc:459-481 | The clause is recorded with the eliminated literal in front and its length behind |
| Simplification.SimpSolver.MkElimUnit | src/minisat/simp/SimpSolver.cc:452-456 | The default literal is recorded |
| Simplification.SimpSolver.RecordSide | src/minisat/simp/SimpSolver.cc:515-523 | The whole shorter side is recorded, followed by the default |
| Simplification.SimpSolver.RemoveAll | src/minisat/simp/SimpSolver.cc:525-526 | All clauses on the variable are gone; the models before are those of the rest that satisfy them |
| Simplification.SimpSolver.AddResolvents | src/minisat/simp/SimpSolver.cc:528-533 | The models are those that satisfy every proper resolvent as well, and every new clause is queued |
| Simplification.SimpSolver.TakeOut | src/minisat/simp/SimpSolver.cc:510-526 | The shorter side is recorded, both sides are removed, the variable is out of use |
| Simplification.SimpSolver.ReplaceByResolvents | src/minisat/simp/SimpSolver.cc:510-536 | The shorter side is recorded, and the invariant of the simplifier is kept: same satisfiability, and every model extends to one of the original clauses |
| Simplification.SimpSolver.EliminateVar | src/minisat/simp/SimpSolver.cc:485-543 | The variable is eliminated if its resolvents stay within the limits and nothing happens otherwise; an elimination records the shorter side and ends with an empty queue and no new clause that can subsume or strengthen another one below the size limit. The invariant is kept, and failure means that the original clauses have no model |
| Simplification.SimpSolver.Eliminate | src/minisat/simp/SimpSolver.cc:595-677 | After any number of rounds the invariant holds and exactly the variables have been eliminated that came up, were not frozen and had few and short enough resolvents at their turn; failure means that the original clauses have no model, and once simplification has been turned off only values are propagated |
| Simplification.SimpSolver.Simplify | src/minisat/simp/SimpSolver.cc:597-600 | Root propagation keeps the models of the store, or the original clauses have none |
| Simplification.SimpSolver.EliminateRounds | src/minisat/simp/SimpSolver.cc:604-648 | Every round keeps the invariant and tries all variables that come up; success of the first needs success of backward subsumption |
| Simplification.SimpSolver.EliminationRound | src/minisat/simp/SimpSolver.cc:604-648 | One round keeps the invariant, tries all variables that come up, and succeeds only if backward subsumption of the queued clauses does |
| Simplification.SimpSolver.EliminateAll | src/minisat/simp/SimpSolver.cc:621-645 | The variables are tried one after the other: each one that is neither frozen nor eliminated nor assigned at its turn is eliminated exactly if its resolvents stay within the limits |
| Simplification.SimpSolver.GatherTouchedClauses | src/minisat/simp/SimpSolver.cc:292-316 | Exactly the live clauses with a touched variable join the queue, each once, unless they are in it; nothing is touched afterwards |
| Simplification.SimpSolver.Equisatisfiable | src/minisat/simp/SimpSolver.cc:485-543 | Under assumptions about variables that have not been eliminated, the original clauses have a model if and only if the remaining ones have |
| Simplification.SimpSolver.constructor | src/minisat/simp/SimpSolver.cc:46-69 | An empty store |
| Simplification.SimpSolver.AddClause | src/minisat/simp/SimpSolver.cc:148-185 | The clause joins the original clauses and the invariant is kept, or they have no model; a clause of at least two different variables without values is stored as it is and queued |
| Simplification.SimpSolver.KeepValue | src/minisat/core/Solver.cc:863-883 | A literal that holds in every model of the original clauses becomes a value, or a learnt clause if its variable has been eliminated |
| Simplification.SimpSolver.ExtendModel | src/minisat/simp/SimpSolver.cc:578-592 | The scan from the end computes the recursively defined extension |
| Simplification.SimpSolver.Complete | src/minisat/simp/SimpSolver.cc:578-592 | The extended model defines every variable, leaves the others as they were, and satisfies every original clause |
| Solving.Load | src/minisat/simp/SimpSolver.cc:130-131 | The kernel has exactly the models of the values and clauses that are left and of the clauses learnt by earlier calls |
| Solving.Solve | src/minisat/simp/SimpSolver.cc:106-144 | With or without simplification, answers "satisfiable" if and only if some model of the original clauses makes all assumptions true; the extended model does both. After the answer "unsatisfiable" one literal of the conflict holds in every model, and the conflict consists of negated assumptions if and only if simplification was off or succeeded or the conflict left by the call before does already. What was frozen before is frozen afterwards |
| Solving.SolveRest | src/minisat/simp/SimpSolver.cc:130-137 | The same for what is left after simplification, with a conflict of negated assumptions; what has been learnt is kept |
| Solving.Decide | src/minisat/simp/SimpSolver.cc:130-136 | The answer of the kernel is right for the original clauses, although the kernel also holds clauses learnt before the last elimination |
| Solving.Remember | src/minisat/core/Solver.cc:863-883 | Every learnt clause and every value found on level 0 is kept for the next call and follows from the original clauses |
| StaleConflicts.StaleConflict | src/minisat/simp/SimpSolver.cc:106-144 | A real run: the first call assumes a and answers with the conflict not a; after four more clauses the second call assumes b, simplification fails, and the conflict is still not a |
| StaleConflicts.FirstCall | src/minisat/core/Solver.cc:842 | The first of these calls: its answer is right and the store is unchanged |
| StaleConflicts.CannotBeSubsumed | src/minisat/simp/SimpSolver.cc:341-405 | Backward subsumption of the six clauses cannot succeed, in whatever order they are worked off |
| Solving.Freeze | src/minisat/simp/SimpSolver.cc:114-125 | Exactly the variables of the assumptions become frozen as well, and those that were not frozen before are remembered |
| Solving.Unfreeze | src/minisat/simp/SimpSolver.cc:138-141 | Exactly the remembered variables are frozen no longer |
| DeltaCodec.WriteDelta | src/aiger/aiger.c:948-967 | The loop writes the code of the number |
| DeltaCodec.FiveBytes | src/aiger/aiger.c:948-967 | A 32-bit number takes at most five bytes |
| DeltaCodec.DeltaRoundTrip | src/aiger/aiger.c:2288-2331 | Every 32-bit number is read back as it was written, and what follows stays unread |
| DeltaCodec.OverlongAccepted | src/aiger/aiger.c:2306-2328 | A five-byte code that stands for more than 32 bits is accepted and truncated |
| DeltaCodec.DecodesExactly | src/aiger/aiger.c:2306-2328 | A code of at most five bytes is decoded to what it stands for if and only if it has fewer than five bytes or a fifth byte below 16 |
| DeltaCodec.AcceptsExactly | src/aiger/aiger.c:2289-2332 | A number is read exactly if the input starts with a code: bytes with their top bit set and a last one without it, at most five in all, or six with the last one below 8. The end of the file is reported exactly if there are at most five bytes, all with their top bit set |
| DeltaCodec.Reader.ReadDelta | src/aiger/aiger.c:2288-2331 | Every input, error or not, gives the result of the decoding function and leaves its rest |
| DeltaCodec.WriteAnds | src/aiger/aiger.c:1695-1712 | The loop writes the code of the gates |
| DeltaCodec.Reader.ReadAnds | src/aiger/aiger.c:2333-2372 | Every input gives the result of the decoding function for the section |
| DeltaCodec.SectionRoundTrip | src/aiger/aiger.c:2333-2372 | The gates written are read back one for one, and any suffix stays unread |
| DeltaCodec.SectionAccepted | src/aiger/aiger.c:2333-2372 | Whatever spells gates by codes of their differences is accepted as these gates |
| DeltaCodec.SectionRejected | src/aiger/aiger.c:2333-2372 | A section is rejected exactly if no beginning of the input spells as many gates |
| Nets.ValuationExists | src/aiger/aiger.c:809-885 | Without cycles there are values for all inputs and states |
| DepthFirst.CycleFound | src/aiger/aiger.c:837-843 | A gate on the stack that is on the current path is on a cycle |
| DepthFirst.AllFinished | src/aiger/aiger.c:823-882 | If every gate is finished there is no cycle |
| DepthFirst.CloseWalk | src/aiger/aiger.c:868-880 | A gate without pending inputs is finished behind all its inputs |
| Reencoding.Aiger.Fanins | src/aiger/aiger.c:857-866 | The fan-ins other than the constant |
| Reencoding.Aiger.Step | src/aiger/aiger.c:833-881 | One step keeps the invariant of the traversal and makes the measure smaller, or proves a cycle |
| Reencoding.Aiger.VisitFrom | src/aiger/aiger.c:830-881 | Everything below the gate is finished and nothing is left on the path |
| Reencoding.Aiger.CheckForCycles | src/aiger/aiger.c:809-885 | With fresh marks an error is reported if and only if the graph has a cycle |
| Reencoding.Aiger.IsReencoded | src/aiger/aiger.c:1305-1349 | Decides whether inputs, latches and gates are numbered consecutively with ordered right-hand sides |
| Reencoding.Aiger.MaxInputOrLatch | src/aiger/aiger.c:1279-1302 | The largest literal of an input or a latch |
| Reencoding.Aiger.NumberSources | src/aiger/aiger.c:1492-1520 | Inputs and latches get the first codes, in order |
| Reencoding.Aiger.GateFanins | src/aiger/aiger.c:1411-1438 | The fan-ins that are gates outside the current path, the one with the smaller variable on top |
| Reencoding.Aiger.NumberStep | src/aiger/aiger.c:1392-1449 | One step keeps the traversal, the table of codes and the order in which gates will be finished, and makes the measure smaller |
| Postorders.OutcomeOpen | src/aiger/aiger.c:1407-1438 | Entering a gate keeps the order in which gates will be finished, because the fan-in with the smaller variable is put on top |
| Postorders.OutcomeClose | src/aiger/aiger.c:1440-1449 | Leaving a gate keeps that order |
| Reencoding.Aiger.ReencodeLit | src/aiger/aiger.c:1362-1466 | The gates with a code become those of the recursively defined postorder of the root literal, the fan-in with the smaller variable first, behind what has been numbered before; the result is the code of the literal |
| Reencoding.Aiger.ReencodeList | src/aiger/aiger.c:1536-1555 | The codes of all literals of a list, with the gates below them numbered in postorder, one literal after the other; codes once given stay |
| Postorders.PostAllConcat | src/aiger/aiger.c:1536-1555 | The postorder over two lists is that over the second behind that over the first |
| Reencoding.Aiger.ReencodeLatches | src/aiger/aiger.c:1525-1534 | The codes of all next-state and reset literals, with the gates below them numbered in postorder, next before reset for every latch |
| Reencoding.Aiger.ReencodeRoots | src/aiger/aiger.c:1525-1572 | The gates are numbered in postorder over latches, outputs, bad states, constraints, justice and fairness properties, and all these get their codes |
| Reencoding.Aiger.ReencodeJustice | src/aiger/aiger.c:1557-1565 | The codes of all literals of all justice properties, with the gates below them numbered in postorder |
| Reencoding.Aiger.RewriteAnds | src/aiger/aiger.c:1576-1603 | Exactly the gates with a code are kept, rewritten, with different left-hand sides |
| Reencoding.Aiger.SortAnds | src/aiger/aiger.c:1605 | The same gates in ascending order of their left-hand sides, provided the comparison of the source orders them rightly |
| Reencoding.CompareRight | src/aiger/aiger.c:1468-1474 | The comparison as `int` is right both ways if and only if the two literals are less than 2^31 apart |
| Reencoding.SortsRight | src/aiger/aiger.c:1468-1474 | It is right for all kept gates if and only if there are at most 2^30 of them |
| Reencoding.Aiger.FixTypes | src/aiger/aiger.c:1607-1655 | Inputs and latches get their codes, and the table of variables agrees with the lists |
| Reencoding.Aiger.Reencode | src/aiger/aiger.c:1476-1670 | Unchanged if already re-encoded; otherwise, for at most 2^30 gates, exactly the renumbering in which the gates follow in postorder over the roots. The result is well defined, without cycles, re-encoded and with no larger variables, and for all inputs and states every next-state, reset, output, bad, constraint, justice and fairness literal has the same value |
| Reencoding.Aiger.WriteBinaryAnds | src/aiger/aiger.c:1682-1715 | The bytes written for any well-defined graph without cycles, already re-encoded or of at most 2^30 gates, decode to the gates of its renumbering in postorder, and any suffix stays unread |
| Renumbering.SameValue | src/aiger/aiger.c:1476-1670 | Every numbered variable has the same value in both graphs |
| Renumbering.PathKept | src/aiger/aiger.c:1577-1582 | A gate below a numbered gate is numbered |
| Renumbering.SortedGates | src/aiger/aiger.c:1576-1605 | The kept gates, sorted, are the finished gates in the order of their numbers |
| Renumbering.RenumberedIsReencoded | src/aiger/aiger.c:1305-1349 | The result satisfies the test for re-encoded graphs, with right-hand sides strictly below |
| Preservation.KeepsMeaning | src/aiger/aiger.c:1476-1670 | For all inputs and states every root keeps its value |
| Preservation.SameGraph | src/aiger/aiger.c:1489-1490 | Without cycles values are unique, so a graph that is left alone keeps its meaning |
| Preservation.NewGraph | src/aiger/aiger.c:1607-1668 | The new graph is well defined, without cycles, re-encoded, and has no larger variables |
| Preservation.OnlyUsedKept | src/aiger/aiger.c:1577-1582 | Every gate of the new graph is a gate in the fan-in of some root |
| Preservation.OnlyUnusedDropped | src/aiger/aiger.c:1577-1582 | A gate in the fan-in of some root is a gate of the new graph |

## Left out

- Sessions.Session.AskWith: gives every clause that is only assumed for a query an activation variable of its own and releases it after the query; the source shares one variable between the trials of a generalisation until one fails, and adds the new clause for good before it is propagated early.
- Sessions.Session.AddClause: takes a new activation variable every time, although released ones could be used again. Variable renaming between the circuit and the latch variables is left out: a latch literal is a literal of its circuit node.
- Cubes.BlockingClause: lists the literals of the core in the order of the cube; the source takes them in the order of the final conflict. Likewise a core and its clauses are sets.
- Engine.ClauseDB.AddNewClause: generalises once, as by default; `opt_generalize_rounds` is left out.
- Solving.Solve: lets the kernel decide eliminated variables as well, before their values are overwritten; the source takes them out of the decision order.
- Kernels.Solver.Simplify: whether enough has changed since the last time for the clauses to be looked at is left open, and so is which learnt clauses `ReduceDB` deletes and when; the source decides that by counters and by activities in floating point. Released variables are recycled by `RecycleReleased`, which needs the condition of `Watching.RecycleKernel` and is not part of `Simplify`.
- Kernels.Solver.RecycleReleased: takes the value of a released variable back when it leaves the trail, where the source does so when the variable is used again.
- Kernels.Solver.PickBranchLit: takes some unassigned decision variable; activities, random decisions, phase saving and polarity modes are heuristics.
- Kernels.Solver.SearchOn: takes the restart limits as unbounded integers, where the source computes them in floating point.
- Simplification.SimpSolver.Propagate: scans all clauses, because watch lists and reasons are not part of that store. Learnt clauses are not part of it either; they are kept beside it for the kernel.
- Solving.Load: builds a new kernel for every call, with the learnt clauses among the problem clauses, so that none of them is deleted later.
- Simplification.SimpSolver.Eliminate: takes the variables that come up in each round as a parameter, because `n_occ` and the elimination heap only decide their order.  Occurrence lists are kept up to date even after simplification has been turned off, when nothing reads them. `asymm`, `rcheck` and `substitute` are off by default or unused.
- Simplification.SimpSolver.TakeOut: sets the mark of the eliminated variable after its clauses are gone; in the source nothing looks at the mark in between.
- Reencoding.Aiger.Reencode: requires at most 2^30 gates unless nothing is to be done, because beyond that the comparison used for sorting can be wrong and what a sorting function then does is not defined (`Reencoding.SortsRight`).
- Reencoding.Aiger.FixTypes: cuts the table of variables to the new size, where the source keeps its unused rest.
- DeltaCodec.Reader.ReadDelta: leaves out the line and character counters, and the input is a sequence of bytes.
- Default options of the engine only: cubes are queued forward but not kept beyond the last frame, cone of influence and ternary simulation are on, clauses are propagated early.
- AIGER constraints: the source does not say how they go together with cones of influence.
- The frame lists hold clause numbers in place of activation literals, and -1 for the constant true that replaces a released one.
- Sorting is selection sort; the heap holds integer keys, the only ones used here.
- `checkCEX` and `checkInvariant`: run-time checks of what `IC3.Solve` proves.
- Clause relocation and region allocation: clauses have stable numbers.
- `Heap::remove`, which does not keep heap order in general and is not used by these queues.
- Symbol tables, comments and the header in the AIGER library, and failures of the output function.
- Option parsing, DIMACS and compressed input, statistics, messages, resource limits and signals.
