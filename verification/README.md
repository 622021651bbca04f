# Verified model of the rill-ml learning core

This project models the stateful cores of the rill-ml streaming-learning library and proves their central
promises. Each core is written twice: as values with a transition function, on which the theorems are
stated, and, where the library updates state in place, as a class or a loop whose contract ties every new
state to that transition.

* **LinUCB** (`LinearAlgebra`, `Cholesky`, `CholeskyLoops`, `RidgeBandit`, `RidgeRegression`, `RidgeScores`,
  `TieBreak`, `LinUcb`): factorisation and triangular solves, the stable bandit, the fast bandit with its
  Sherman-Morrison inverse and the proof that it refines the stable one over every run, what the solved
  weights and the scores mean, and the fairness of the randomised tie-break.
* **Decision ledger and replay** (`Ledger`, `LedgerReach`, `LedgerObject`, `DelayedOutcome`, `Digest`, `Replay`,
  `ReplayEvents`, `ReplayOrder`, `ReplayInvariants`, `ReplayComposition`, `ReplayJournal`, `ReplayProvenance`,
  `ReplayLearning`, `ReplayBytes`, `ReplayDigests`, `ReplayTrained`, `ReplayFailures`, `ReplayWitnesses`, `ReplayReport`,
  `ReplayObject`): the life cycle of decisions, what each event of the event-sorting replay does in full, its
  conservation laws, chunk composition, the journal of accepted facts behind digest, latencies and totals, what a
  history teaches the model, which errors remain possible, and the FNV-1a digest.
* **Drift** (`DriftLevels`, `Consensus`, `ConsensusTraces`, `ConsensusVotes`, `ConsensusStepDown`, `ConsensusEvents`,
  `ConsensusOccurrences`, `ConsensusSuccess`, `ConsensusObject`, `Adwin`, `AdwinRuns`, `AdwinPortable`, `AdwinObject`):
  votes, hysteresis, cooldown and events of the consensus over whole vote traces; the adaptive window as a suffix of
  the stream and its portable state.
* **Schema encoding** (`Names`, `Schema`, `SchemaLimits`, `SchemaMetadata`, `SchemaHasher`): the bytes that are
  hashed, their decoder, and what the validation means on floats and code points.
* **Weighted accumulators** (`Weighted`, `WeightedDecay`, `WeightedObject`): one-pass updates against the
  two-pass definitions.
* **Release gate** (`SemVer`): version precedence.

`dafny verify dfyconfig.toml` checks everything.

## How the model reads the source

* A 64-bit float is a `real`. The platform's `sqrt` is a parameter that only has to square back
  (`Cholesky.IsSqrt`), `powf` a parameter with the laws in `WeightedDecay.IsPower`, `to_bits` an uninterpreted
  parameter of the replay, and the Hoeffding bound a parameter that is positive and does not increase in
  delta (`Adwin.IsBound`). Where bit patterns matter, in the schema encoding, a float is its 64-bit pattern.
* Counters are natural numbers with the 64-bit overflow error of the source; `usize` is 64 bits wide.
* Strings are their UTF-8 bytes. An ordered map or set is a strictly ascending list.
* Error values keep their constructor and payload; the free-text messages of invalid-state errors are an
  enumeration (`Errors.Fault`).
* The draws of the random generator are a tape of numbers, each below the bound it is drawn with.

## Where the code and the expectation differ

* *Drift to Warning.* The level can go from Drift straight to Warning: exactly when the window starts a new
  generation, one window confirms, and its raw level is Warning, which at a boundary needs that no warming window is
  configured (`ConsensusStepDown.DriftToWarning`). A valid configuration has such a trace if and only if
  `confirmation_windows` and `warming_windows` are 1 and 0 (`StepDownConfigurations`); the default has one warming
  window, so under it the step never happens.
* *Portable ADWIN state.* The relative tolerance of the validator accepts states whose later exports it
  refuses (`AdwinPortable.AcceptanceNotInductive`). All later exports are accepted exactly when the total is
  within 1e-10 of the window's sum, given counter room to refill the window (`AlwaysAcceptedIff`); every state
  reached from a new detector has offset zero. The decisions are never affected (`InexactTotalHarmless`).
* *Weighted variance.* The validator accepts an empty state with a positive `m2`, which then never leaves the
  result (`Weighted.ImportedSpread`; `ImportedSpreadHappens` shows it for every first sample).
* *Version comparison.* The pattern admits leading zeros in numeric prerelease fields, on which `compare`
  returns 0 before looking at later fields; then "compares equal" is not transitive
  (`SemVer.LeadingZeroBreaksEquivalence`). Exactly those ties separate it from a total order.
* *Replay construction.* `DecisionReplayHarness::new` accepts a trained model or, through public fields, an
  unusable configuration. `ReplayInvariants.NewHarnessValid` gives the exact condition of a valid start and
  `ReplayTrained.LearnedHarnessInvalid` a trained one-arm model that violates it. From a trained model a chunk commits
  exactly when, besides being admitted and replaying without error under a legal configuration, it resets the model at
  a generation or drift boundary (`ReplayTrained.TrainedChunk`).
* *Restored replay state.* The state check compares neither the length of pending contexts with the model nor the
  latencies with the tombstones. So an outcome of a restored harness can fail in two ways that a new harness never
  shows: the latency list is already full, or the pending context has another length than the model.
  `ReplayFailures.OutcomeFailsOtherwise` is the exact condition, `ReplayWitnesses.FullLatenciesFail` and `MisfitFails`
  are states of either kind that pass the check.
* *Replay counters.* A decision swept as expired is counted once more, as rejected, when its own record has an
  outcome (`ReplayFailures.ExpiredThenRejected`; `ReplayWitnesses.SweptTwice` shows it), so the two counters are not
  disjoint; the conservation law uses `expired` only. A latency is measured from the timestamp of the outcome's record
  (`ReplayJournal.HistoryBooks`), which need not be that of the record that registered the decision.

## Model

| member | source | states |
|---|---|---|
| Cholesky.FactorIffPositive | src/bandit/linucb.rs:853-887 | on a symmetric matrix the factorisation succeeds if and only if the matrix is positive definite, and then L is lower triangular with positive diagonal and L times its transpose is the matrix |
| Cholesky.FactorCorrect | src/bandit/linucb.rs:853-887 | every computed factor of a symmetric matrix multiplies back to it, entry by entry |
| Cholesky.FactorPositive | src/bandit/linucb.rs:848-850 | a matrix that has a factor is positive definite, so the factorisation test is sound |
| Cholesky.FailureNotPositive | src/bandit/linucb.rs:868-874 | a pivot that is not positive exhibits a direction of non-positive curvature, so rejecting is never a false alarm |
| Cholesky.NoneStays | src/bandit/linucb.rs:868-874 | once a pivot fails, no later row can rescue the factorisation: the early return is final |
| Cholesky.ForwardTo | src/bandit/linucb.rs:898-913 | the forward pass solves the lower triangular system row by row |
| Cholesky.BackwardFrom | src/bandit/linucb.rs:915-933 | the backward pass solves the transposed system from the last unknown up |
| Cholesky.SolveCorrect | src/bandit/linucb.rs:890-935 | the two triangular passes return the one and only solution of A x = rhs |
| Cholesky.InverseColumnsCorrect | src/bandit/linucb.rs:937-961 | the column-by-column inverse is two-sided and already symmetric before the averaging pass |
| CholeskyLoops.CholeskyFactor | src/bandit/linucb.rs:853-887 | the nested loops return exactly that factor, the not-square error, or the not-positive-definite error; success on a symmetric matrix means positive definite |
| CholeskyLoops.FactorRow | src/bandit/linucb.rs:861-885 | the two inner loops extend the factor by its next row or report the failing pivot |
| CholeskyLoops.SolveRow | src/bandit/linucb.rs:862-877 | the entries left of the diagonal solve the triangular system of the rows above |
| CholeskyLoops.ForwardSolve | src/bandit/linucb.rs:898-913 | the forward loop fills the intermediate vector that satisfies every row equation |
| CholeskyLoops.BackwardSolve | src/bandit/linucb.rs:915-933 | the backward loop fills the solution that satisfies every column equation |
| CholeskyLoops.CholeskySolve | src/bandit/linucb.rs:890-935 | both loops together solve the factored system |
| CholeskyLoops.InverseFromCholesky | src/bandit/linucb.rs:937-961 | the loops over basis vectors and the averaging pass return the two-sided symmetric inverse; averaging changes nothing |
| CholeskyLoops.CheckedDot | src/bandit/linucb.rs:971-977 | the accumulation loop is the inner product |
| CholeskyLoops.CheckedMatrixVectorMul | src/bandit/linucb.rs:963-969 | the row loop is the matrix-vector product |
| LinearAlgebra.ShermanMorrison | src/bandit/linucb.rs:712-722 | if B inverts A then the downdated B inverts A plus the outer product of the context |
| LinearAlgebra.RankOnePositive | src/bandit/linucb.rs:440-456 | adding an outer product keeps positive definiteness |
| RidgeBandit.UpdateRefines | src/bandit/linucb.rs:687-746 | one update of the fast bandit answers like the stable one and keeps: every cached inverse inverts the stable matrix, with equal rewards and sample count; errors only for a bad arm, a bad context length or a full counter |
| RidgeBandit.GuardsUnreachable | src/bandit/linucb.rs:691-735 | over exact reals the variance is never negative, the denominator is at least one, and the mirroring pass changes nothing |
| RidgeBandit.RidgeGuards | src/bandit/linucb.rs:691-735 | on an inverse of a ridge matrix none of the numeric guards of the fast update rejects |
| RidgeBandit.InverseStep | src/bandit/linucb.rs:691-735 | the fast update of one arm succeeds and its result again inverts the updated matrix |
| RidgeBandit.StableUpdateValid | src/bandit/linucb.rs:435-462 | every update keeps what `validate` checks and its factorisation check never rejects |
| RidgeBandit.RidgeStep | src/bandit/linucb.rs:440-456 | adding an outer product to a ridge matrix gives a symmetric positive definite matrix that factors |
| RidgeBandit.ResetRefines | src/bandit/linucb.rs:748-756 | reset puts both bandits back into the relation, from any state |
| RidgeBandit.ScoresAgree | src/bandit/linucb.rs:630-650 | exploitation, bonus and total of an arm are the same real numbers in both bandits |
| RidgeBandit.AllScoresAgree | src/bandit/linucb.rs:553-558 | the whole score lists agree, hence every choice made from them |
| RidgeBandit.RunRefines | src/bandit/linucb.rs:687-756 | over every sequence of updates and resets, failing calls included, the fast bandit refines the stable one, result by result |
| RidgeBandit.RunScoresAgree | src/bandit/linucb.rs:630-650 | after every such run from a fresh configuration all scores of all arms agree in every context |
| RidgeBandit.RunChoicesAgree | src/bandit/linucb.rs:561-573 | after every such run the two deterministic choices are the same in every context |
| RidgeBandit.FromLinUcbRefines | src/bandit/linucb.rs:515-532 | conversion from any valid stable state succeeds and lands in the refinement relation, and the result validates |
| RidgeBandit.RefinesValid | src/bandit/linucb.rs:576-615 | whatever refines a valid stable bandit passes the fast validation |
| RidgeBandit.StableScoreOk | src/bandit/linucb.rs:366-398 | scoring a valid stable state never fails |
| RidgeScores.ScoreMeaning | src/bandit/linucb.rs:366-398 | for whatever vectors solve the arm's two systems, the score predicts with the first, and its bonus is the one non-negative number whose square is the scaled variance along the second; the total is their sum |
| RidgeScores.FastScoreMeaning | src/bandit/linucb.rs:630-650 | the fast score is made of the solutions of the stable bandit's systems in the same way |
| RidgeScores.TotalIsUpper | src/bandit/linucb.rs:366-398 | the total of an arm is its upper confidence bound and no other number is |
| RidgeScores.TotalsAreUppers | src/bandit/linucb.rs:302-307 | the totals that both selection rules run over are the upper confidence bounds of the arms |
| RidgeScores.ChoiceMeaning | src/bandit/linucb.rs:324-336 | the deterministic choice is an arm if and only if it is the lowest-numbered one of greatest upper confidence bound |
| RidgeScores.FastChoiceMeaning | src/bandit/linucb.rs:561-573 | the fast bandit chooses among the same bounds |
| RidgeScores.RunScoreMeaning | src/bandit/linucb.rs:630-650 | after every run from a fresh configuration both bandits predict with the ridge minimiser over the samples the arm accepted since the last reset |
| RidgeScores.RunChoiceMeaning | src/bandit/linucb.rs:561-573 | after every such run both bandits choose the lowest-numbered arm of greatest upper confidence bound |
| RidgeRegression.RunSummarises | src/bandit/linucb.rs:435-474 | after every run each arm holds exactly identity plus the outer products, and the weighted contexts, of the samples accepted since the last reset |
| RidgeRegression.RunCounts | src/bandit/linucb.rs:435-474 | the sample counter is the number of samples all arms have accepted since the last reset |
| RidgeRegression.ExcessLoss | src/bandit/linucb.rs:366-398 | the loss of any weights exceeds that of the solved ones by the curvature along the difference |
| RidgeRegression.SolvedWeightsOptimal | src/bandit/linucb.rs:366-398 | the weights behind a score are the unique minimiser of the ridge loss over the accepted samples |
| LinUcb.StableBandit.New | src/bandit/linucb.rs:179-194 | the constructor accepts exactly positive arm count, feature count and alpha, and starts from identity and zero |
| LinUcb.StableBandit.Update | src/bandit/linucb.rs:435-462 | the new fields and the result are those of the transition; a failing call changes nothing |
| LinUcb.StableBandit.Reset | src/bandit/linucb.rs:464-474 | reset gives back a new bandit of the same configuration |
| LinUcb.StableBandit.ScoreArmValidated | src/bandit/linucb.rs:366-398 | scoring through the factor gives the specified score |
| LinUcb.StableBandit.ScoreAll | src/bandit/linucb.rs:302-307 | one score per arm in arm order, or the dimension error |
| LinUcb.StableBandit.SelectDeterministic | src/bandit/linucb.rs:324-336 | the lowest-numbered arm among the best scores |
| LinUcb.StableBandit.Select | src/bandit/linucb.rs:414-433 | the arm the randomised scan ends on for the given draws |
| LinUcb.StableBandit.SelectWithScores | src/bandit/linucb.rs:311-319 | the same arm as `select` on the same draws, together with all scores |
| LinUcb.StableBandit.Validate | src/bandit/linucb.rs:224-271 | validation accepts exactly the states whose shapes fit and whose matrices are symmetric positive definite |
| LinUcb.ScoreFactored | src/bandit/linucb.rs:366-398 | two solves through the factor give exploitation and curvature; no inverse is formed |
| LinUcb.AddOuterProduct | src/bandit/linucb.rs:440-447 | the double loop adds the outer product of the context |
| LinUcb.AddReward | src/bandit/linucb.rs:448-451 | the loop adds the reward times the context |
| LinUcb.FastBandit.New | src/bandit/linucb.rs:496-512 | the constructor accepts exactly positive arm count, feature count and alpha |
| LinUcb.FastBandit.Validate | src/bandit/linucb.rs:576-615 | validation accepts exactly the states with fitting shapes and symmetric positive definite inverses, within the symmetry tolerance |
| LinUcb.FastBandit.FromLinUcb | src/bandit/linucb.rs:515-532 | conversion of a stable object yields an object that refines it |
| LinUcb.FastBandit.Update | src/bandit/linucb.rs:687-746 | the new fields and the result are those of the transition; a failing call changes nothing |
| LinUcb.FastBandit.Reset | src/bandit/linucb.rs:748-756 | reset gives back a new fast bandit of the same configuration |
| LinUcb.FastBandit.ScoreArmValidated | src/bandit/linucb.rs:630-650 | scoring through the cached inverse gives the specified score |
| LinUcb.FastBandit.ScoreAll | src/bandit/linucb.rs:553-558 | one score per arm in arm order, or the dimension error |
| LinUcb.FastBandit.SelectDeterministic | src/bandit/linucb.rs:561-573 | the lowest-numbered arm among the best scores |
| LinUcb.FastBandit.Select | src/bandit/linucb.rs:666-685 | the arm the randomised scan ends on for the given draws |
| LinUcb.DowndateInverse | src/bandit/linucb.rs:691-735 | variance, denominator, entry loop and mirroring give the downdated inverse or the guard that fired |
| LinUcb.SubtractOuterProduct | src/bandit/linucb.rs:712-722 | the double loop subtracts the scaled outer product |
| LinUcb.MirrorUpper | src/bandit/linucb.rs:724-735 | the lower triangle becomes the mirror of the upper one, or the first non-positive diagonal entry is reported |
| TieBreak.FairTo | src/bandit/linucb.rs:979-996 | of all draw tapes allowed by the bounds, every best arm is chosen by the same number (the total divided by the number of best arms) and no other arm by any |
| TieBreak.TapesAre | src/bandit/linucb.rs:988-993 | the allowed tapes are exactly those with one draw per tie, each below its number of ties |
| TieBreak.TapesExist | src/bandit/linucb.rs:979-996 | there is always an allowed tape, so fairness is not vacuous |
| TieBreak.ScanShape | src/bandit/linucb.rs:979-996 | the number of ties and of draws depends on the scores alone, and the arm held is a best one |
| TieBreak.TieStep | src/bandit/linucb.rs:988-993 | on a tie the new arm wins on the draw zero and every earlier winner on all other draws |
| TieBreak.Select | src/bandit/linucb.rs:414-433 | the loop that starts below every score consumes the whole tape and ends on the arm of the scan |
| TieBreak.SelectRandomTie | src/bandit/linucb.rs:979-996 | the loop that starts from the first score agrees with `select` draw for draw |
| TieBreak.SelectDeterministic | src/bandit/linucb.rs:324-336 | the loop returns the lowest index of a maximum |
| TieBreak.LowestBest | src/bandit/linucb.rs:324-336 | a best arm such that every earlier one is strictly worse |
| TieBreak.LowestBestUnique | src/bandit/linucb.rs:324-336 | there is only one such arm, so stable and fast choices cannot differ on equal scores |
| Ledger.StepLegal | src/decision/mod.rs:317-465 | every call keeps the validated structure, moves an identifier only absent, pending, completed, absent, and when it fails leaves the ledger equal to before |
| Ledger.StepValid | src/decision/mod.rs:467-532 | the validated structure, capacities and disjointness included, is preserved by every call |
| Ledger.AcceptanceExact | src/decision/mod.rs:317-410 | exactly which registrations and feedbacks are accepted, in terms of where the identifier stands |
| Ledger.SweepComplete | src/decision/mod.rs:442-465 | after a sweep exactly the pending decisions that expire at the given time or later remain, unchanged, and exactly the others are named; likewise for tombstones |
| LedgerReach.ValidIffReachable | src/decision/mod.rs:467-532 | over positive capacities the structural validation accepts a ledger if and only if some sequence of calls leads to it from the empty one |
| Ledger.LifeCycle | src/decision/mod.rs:317-465 | over every run each registration of an identifier is still pending, was swept explicitly, or was answered by exactly one accepted feedback whose tombstone remains or was explicitly forgotten |
| Ledger.PendingProvenance | src/decision/mod.rs:317-359 | a pending decision is exactly what its registration supplied |
| Ledger.TombstoneProvenance | src/decision/mod.rs:362-410 | a tombstone carries exactly the facts of its registration and of the one later accepted feedback |
| LedgerObject.DecisionLedger.New | src/decision/mod.rs:300-314 | a ledger is built exactly when all four capacities are positive, and it starts empty |
| LedgerObject.DecisionLedger.Register | src/decision/mod.rs:317-359 | the new maps and the reply are those of the transition |
| LedgerObject.DecisionLedger.ApplyFeedback | src/decision/mod.rs:362-410 | the new maps and the reply are those of the transition, the checks in the same order |
| LedgerObject.DecisionLedger.ClearExpired | src/decision/mod.rs:442-452 | exactly the pending decisions that expired before the given time are removed and returned in key order |
| LedgerObject.DecisionLedger.ClearCompletedBefore | src/decision/mod.rs:455-465 | exactly the tombstones observed before the given time are removed and returned in key order |
| LedgerObject.Sweep | src/decision/mod.rs:442-452 | collecting the matching keys and then removing them one by one removes exactly the matching entries |
| LedgerObject.Validate | src/decision/mod.rs:467-532 | the validation loops accept exactly the valid structures |
| DelayedOutcome.ApplyContextualOutcome | src/decision/mod.rs:579-615 | ledger and model change together or not at all |
| Digest.StepBijective | src/replay.rs:384-389 | for each byte one digest step is a bijection on the 64-bit state |
| Digest.StepInjective | src/replay.rs:384-389 | two states that meet after the same byte were the same state |
| Digest.StepSeparates | src/replay.rs:384-389 | from one state different bytes lead to different states |
| Digest.StepMeaning | src/replay.rs:384-389 | a step multiplies the word whose bits are those in which digest and byte differ by the FNV prime, modulo 2^64 |
| Digest.XorBits | src/replay.rs:386 | each bit of the exclusive or is set exactly when the two bits differ |
| Digest.MixInjective | src/replay.rs:383-404 | different starting digests never merge under the same facts |
| Digest.OneByteChangesDigest | src/replay.rs:383-404 | two equally long fact streams that differ in exactly one byte always give different digests |
| Digest.MixAppend | src/replay.rs:383-404 | mixing field after field is mixing their concatenation |
| Digest.LittleEndianInjective | src/replay.rs:391-403 | the little-endian bytes of a field determine it |
| Digest.MixLoop | src/replay.rs:384-389 | the byte loop computes the fold |
| Replay.EventKeepsShape | src/replay.rs:221-360 | every event keeps arm and feature counts, configuration and the pull counters' length, so no index can be out of range |
| ReplayEvents.DecisionMeaning | src/replay.rs:221-276 | a decision registers if and only if its schema matches, its generation is not older, its arm is the lowest-numbered one of greatest upper confidence bound under the model its own resets leave, and its identifier is new; it is rejected if and only if one of the first three fails; all fields of the result are given, the expiry included |
| ReplayEvents.DecisionSucceeds | src/replay.rs:221-276 | exactly when a decision event fails: a full counter, an expiry beyond the clock, a conflicting or too large decision, or no room |
| ReplayEvents.OutcomeMeaning | src/replay.rs:278-360 | an outcome is accepted, late, repeated or rejected by explicit conditions on record and ledger; an accepted one moves its decision to the tombstones and teaches the model the registered context with its reward; a late one sweeps all due decisions; all fields of the result are given |
| ReplayEvents.OutcomeSucceeds | src/replay.rs:278-360 | exactly when an outcome event fails: a full counter or latency list, a context of another length than the model, or no room for a tombstone |
| ReplayOrder.EventsMeaning | src/replay.rs:202-208 | each record contributes its decision event and, if it has an outcome, its outcome event, once each, and nothing else |
| ReplayOrder.ReplayedInOrder | src/replay.rs:209 | events are replayed in the order of their times, at equal times decisions before outcomes, and events of one kind in record order |
| ReplayOrder.DecisionBeforeOutcome | src/replay.rs:209 | no outcome is replayed before its own record's decision |
| ReplayInvariants.EventKeeps | src/replay.rs:221-360 | one event keeps the validated state, the pull and reward conservation, and changes pending plus completed plus expired by exactly its new registration |
| ReplayInvariants.EventsKeep | src/replay.rs:214-217 | the same over the whole sorted event list |
| ReplayInvariants.ChunkValid | src/replay.rs:168-194 | from a valid harness the check after a chunk cannot fail: an admitted chunk succeeds exactly when its events do, and what is committed is valid |
| ReplayInvariants.ChunkConserves | src/replay.rs:168-194 | one committed chunk conserves decisions, per-arm pulls and rewards, and counts its records |
| ReplayInvariants.HistoryConserves | src/replay.rs:168-360 | over every history of chunks: decisions registered equal pending plus completed plus expired; each arm's pulls count its tombstones; the reward is the sum over tombstones; there are as many latencies as tombstones; samples never exceed total pulls |
| ReplayInvariants.HistoryKeeps | src/replay.rs:168-194 | the conservation laws hold after every history from any valid state that satisfies them |
| ReplayInvariants.NewHarnessValid | src/replay.rs:129-156 | a new harness validates exactly when its model is untrained and its record capacity and schema hash are legal; `new` itself checks none of these |
| ReplayTrained.TrainedChunk | src/replay.rs:168-194 | from a new harness over a trained model a chunk commits if and only if it is admitted under a legal configuration, its events succeed, and one of them resets the model |
| ReplayTrained.LearnedHarnessInvalid | src/replay.rs:421-448 | a concrete trained model that `new` accepts and the state check refuses |
| ReplayJournal.EventBooks | src/replay.rs:221-360 | one event enters the fact it accepts, and nothing else, in digest, latencies, reward, regret, baseline and pulls |
| ReplayJournal.ChunkBooks | src/replay.rs:168-219 | a committed chunk enters exactly the facts its events accept, and a failing one none |
| ReplayJournal.HistoryBooks | src/replay.rs:221-404 | after every history of chunks the digest is the accepted facts' bytes mixed in order, the latencies are the accepted outcomes' delays from their own records, missing feedback counts the registrations without outcome, and reward, regret, baseline and pulls are sums over the accepted outcomes |
| ReplayProvenance.HistoryDocuments | src/replay.rs:252-359 | after every history from an empty ledger each pending decision was registered by an accepted fact with exactly its fields, and each tombstone answers one by a later fact with exactly its reward and time |
| ReplayLearning.EventTeaches | src/replay.rs:221-360 | one event teaches the model a reset per boundary it enters, or the registered context with the reward of the outcome it accepts, or nothing |
| ReplayLearning.HistoryTeaches | src/replay.rs:168-360 | after every history the model is the first one after exactly these operations in order, each of which succeeded |
| ReplayLearning.ReplayedModelMeaning | src/replay.rs:168-360 | after every history from a new harness over a fresh model each arm holds the ridge statistics of exactly the samples taught to it since the last boundary |
| ReplayBytes.RecordLayout | src/replay.rs:391-403 | where every field of a fact stands: marker, timestamp, identifier, arm, generation, one word per context entry, and the reward's word if present; and the length |
| ReplayBytes.FactLayout | src/replay.rs:391 | a registered decision starts with the letter d, an accepted outcome with the letter o |
| ReplayBytes.BytesIdentify | src/replay.rs:391-403 | facts of one feature count with equal bytes agree in marker, all integer fields, the bit patterns of the context, and the presence and bit pattern of the reward |
| ReplayBytes.RewardChangesDigest | src/replay.rs:383-404 | facts that differ only in a reward whose bit pattern differs in one byte give different digests |
| ReplayDigests.HistoryTwins | src/replay.rs:383-404 | nothing but the digest depends on the digest: two harnesses that differ in it accept the same facts from every history |
| ReplayDigests.FreshDigest | src/replay.rs:383-404 | from a new harness the digest of a history is the FNV-1a hash, from the standard offset basis, of the bytes of its accepted facts |
| ReplayDigests.DigestsNeverMerge | src/replay.rs:383-404 | two harnesses that differ only in their digest still differ, and only in it, after every common history |
| ReplayDigests.OneByteSeparatesHistories | src/replay.rs:383-404 | histories whose accepted facts spell equally long byte streams that differ in one byte end in different digests |
| ReplayComposition.SortSound | src/replay.rs:209 | sorting orders the events by time, kind and index and keeps the same events |
| ReplayComposition.SortedUnique | src/replay.rs:209 | there is only one sorted arrangement of the events, whatever the sort algorithm |
| ReplayComposition.SortSplits | src/replay.rs:209 | when all events of one list come before those of another, the sorted concatenation is the concatenation of the sorted lists |
| ReplayComposition.OrderSplits | src/replay.rs:202-209 | for two chunks in time order the event order of the joined chunk splits at the boundary |
| ReplayComposition.RunIgnoresProcessed | src/replay.rs:196-219 | events never read the processed-record counter |
| ReplayComposition.InPlaceComposes | src/replay.rs:196-219 | replaying the joined event list is replaying the first list and then the second |
| ReplayComposition.ChunksCompose | src/replay.rs:168-219 | for chunks in time order, replaying the joined chunk succeeds exactly when replaying one after the other does, and commits the same harness, latencies and digest included |
| ReplayFailures.ChunkFails | src/replay.rs:168-360 | from any valid state, restored ones included, whose pending contexts fit the model and whose latency list has room for the chunk's outcomes, an admitted chunk fails only with a saturated counter, an expiry beyond the clock, or the ledger refusing a registration or lacking room for a tombstone |
| ReplayFailures.SoundChunkFails | src/replay.rs:168-360 | when the latencies are at most the processed records, every admitted chunk has that room, and the result is such a state again |
| ReplayFailures.HistoryFails | src/replay.rs:168-360 | the same for the next chunk after every history from a new harness, and there are never more tombstones than records |
| ReplayFailures.FeedbackFails | src/replay.rs:300-324 | a matching outcome is refused by the ledger only for lack of room: the replay has checked everything else |
| ReplayFailures.OutcomesOfRecords | src/replay.rs:202-208 | a chunk has at most one outcome event per record, before and after sorting |
| ReplayFailures.OutcomeFailsOtherwise | src/replay.rs:325-348 | an outcome ends in any other error if and only if it matches its decision, the pull counter has room, and the latency list is full or the pending context has another length than the model |
| ReplayWitnesses.FullLatenciesFail | src/replay.rs:336-342 | a state that passes the check, fits the model, and fails an admitted chunk on its full latency list |
| ReplayWitnesses.MisfitFails | src/replay.rs:421-448 | a state that passes the check and fails an admitted chunk with a dimension error |
| ReplayFailures.ExpiredThenRejected | src/replay.rs:278-311 | after a sweep the own record of a swept decision is refused, and counted as rejected, if and only if it has an outcome, whatever its generation and reward |
| ReplayWitnesses.SweptTwice | src/replay.rs:297-311 | a valid state in which one late outcome sweeps two decisions and the second is then rejected as well |
| ReplayObject.DecisionReplayHarness.New | src/replay.rs:129-156 | the constructor's two rejections; otherwise the harness owns the given bandit and a new ledger and has the initial fields |
| ReplayObject.DecisionReplayHarness.Clone | src/replay.rs:187-188 | the copy has the same state in fresh objects |
| ReplayObject.DecisionReplayHarness.Replay | src/replay.rs:168-194 | all or nothing: the harness becomes the committed chunk's and its report is returned, or the call fails and state and owned objects are untouched |
| ReplayObject.DecisionReplayHarness.MakeReport | src/replay.rs:362-381 | the report holds the figures of the state and the latency summary |
| ReplayReport.SummaryMeaning | src/replay.rs:496-513 | minimum and maximum are attained bounds of the latencies, and the 95th percentile is the smallest latency that covers more entries than its rank |
| ReplayReport.SummaryMean | src/replay.rs:503-510 | the mean is the sum of the latencies over their number |
| ReplayReport.SummaryOrderFree | src/replay.rs:496-513 | the summary depends on the recorded latencies only, not on their order |
| ReplayReport.HistoryReport | src/replay.rs:362-381 | after every history from a new harness the report adds up: pending, completed and expired are the registrations, pulls and latencies number the completed ones, and the reward over the baseline is the difference of the totals |
| ReplayObject.SummariseLatencies | src/replay.rs:496-513 | the sort, the sum loop and the picked entries give the summary |
| ReplayObject.DecisionReplayHarness.ReplayInPlace | src/replay.rs:196-219 | the loop over the collected and sorted events runs them in order and stops at the first failure |
| ReplayObject.CollectEvents | src/replay.rs:202-208 | the loop collects each record's decision event and, if it has one, its outcome event |
| ReplayObject.SortEvents | src/replay.rs:209 | the sorted list is the one ordered arrangement of the events |
| ReplayObject.DecisionReplayHarness.ReplayDecision | src/replay.rs:221-276 | a decision event: rejections, model resets at generation and drift boundaries, choice check, registration, digest |
| ReplayObject.DecisionReplayHarness.ReplayOutcome | src/replay.rs:278-360 | an outcome event: rejections, duplicate, sweep of expired decisions, mismatch, or acceptance |
| ReplayObject.DecisionReplayHarness.Accept | src/replay.rs:325-359 | an accepted outcome: counter and capacity checks first, then ledger and bandit together, then totals, latency and digest; a failure changes nothing |
| ReplayObject.DecisionReplayHarness.Enter | src/replay.rs:349-359 | the totals, the pull counter, the latency and the digest after an accepted outcome |
| ReplayObject.DecisionReplayHarness.ValidateState | src/replay.rs:421-452 | the state check accepts exactly the valid harnesses |
| ReplayObject.ValidateAll | src/replay.rs:181-183 | every record is checked before any event, and the first bad one decides the error |
| Consensus.UpdateKeeps | src/drift/consensus.rs:256-266 | the validated invariant is preserved by every successful update, from any state that meets it |
| Consensus.RecordKeeps | src/drift/consensus.rs:450-488 | recording or merging keeps the summary well formed, its detectors sorted, and restarts the cooldown |
| Consensus.TakeCollectOk | src/drift/consensus.rs:467-479 | collecting names into an ordered set and truncating gives a sorted, duplicate-free, bounded list |
| ConsensusTraces.RunAgrees | src/drift/consensus.rs:268-399 | after every trace of windows the whole dynamic state is the one read off the trace: streaks, generation length and hysteretic level |
| ConsensusVotes.RawLevelMeaning | src/drift/consensus.rs:291-331 | counted on sets of votes: Drift if and only if enough available detectors vote Drift, Warning if and only if not and enough vote for a change, incomplete if and only if too few are available |
| ConsensusVotes.KindMeaning | src/drift/consensus.rs:308-331 | a window counts if and only if it is past the warming windows of its generation and enough detectors were available, and then reaches exactly one level |
| ConsensusVotes.ConfirmationByVotes | src/drift/consensus.rs:336-372 | the level becomes Drift, or Warning from none, if and only if each of the last `confirmation_windows` windows of one generation counts and has the votes for that level |
| ConsensusVotes.ClearingByVotes | src/drift/consensus.rs:373-384 | the level returns to none if and only if the window is stable and ends a stretch of one generation, without votes for a change, holding `clear_windows` stable windows |
| ConsensusVotes.ResultMeaning | src/drift/consensus.rs:386-399 | every field of the reported window, in terms of the votes and the trace |
| ConsensusSuccess.RunSucceeds | src/drift/consensus.rs:256-266 | a trace below the 64-bit window counter is accepted if and only if the configuration is valid and every window well formed |
| ConsensusSuccess.ValidationMeaning | src/drift/consensus.rs:433-448 | exactly which votes are well formed |
| ConsensusTraces.StreakMeans | src/drift/consensus.rs:336-372 | a streak of at least n is exactly n unbroken windows of that raw level in one generation |
| ConsensusTraces.Confirmation | src/drift/consensus.rs:336-372 | the level becomes Drift from another level, or Warning from none, if and only if the last `confirmation_windows` windows are complete, non-warming and unbroken, of one generation, with that raw level; Warning is otherwise reached only across a generation boundary |
| ConsensusTraces.StepsOnTraces | src/drift/consensus.rs:336-385 | the same steps read off the trace alone, with the exact condition of the step from Drift down to Warning |
| ConsensusStepDown.DriftToWarning | src/drift/consensus.rs:275-282 | the level steps from Drift to Warning if and only if a new generation starts, a single window confirms, and that window is a complete warning window; then no warming window is configured |
| ConsensusStepDown.StepDownConfigurations | src/drift/consensus.rs:275-282 | a valid configuration has a trace with that step if and only if `confirmation_windows` is 1 and `warming_windows` is 0 |
| ConsensusTraces.CalmMeans | src/drift/consensus.rs:373-384 | the calm counter counts the stable windows of a stretch of one generation without a change window |
| ConsensusTraces.Clearing | src/drift/consensus.rs:373-384 | without a generation change the level returns to none if and only if the window is complete and stable and ends a stretch of one generation, without a change window, that holds at least `clear_windows` complete stable windows |
| ConsensusTraces.StretchBelowCalm | src/drift/consensus.rs:373-384 | no stretch without change windows holds more stable windows than the calm counter |
| ConsensusTraces.CooldownLeft | src/drift/consensus.rs:287-290 | after an occurrence the cooldown runs down by at most one per window of the generation |
| ConsensusTraces.Spacing | src/drift/consensus.rs:287-290 | in one generation two recorded or merged occurrences are at least `cooldown_windows` + 1 windows apart |
| ConsensusOccurrences.OccurrenceExact | src/drift/consensus.rs:287-372 | a window records an occurrence if and only if it announces its level and no occurrence lies within the last `cooldown_windows` windows of its generation |
| ConsensusOccurrences.MergeExact | src/drift/consensus.rs:450-471 | an occurrence merges into the last event if and only if that event's last window has the same generation and is at most `event_merge_horizon` windows back |
| ConsensusOccurrences.CooldownExact | src/drift/consensus.rs:287-290 | the running cooldown is exactly what is left since the last occurrence of the generation |
| ConsensusTraces.EventIdsIncrease | src/drift/consensus.rs:473-487 | identifiers of new events strictly increase along every trace |
| ConsensusTraces.DetectorsOrdered | src/drift/consensus.rs:450-488 | the retained detector list is always sorted, duplicate-free and bounded |
| ConsensusOccurrences.DetectorsExact | src/drift/consensus.rs:467-485 | the retained event names exactly the smallest `max_detectors` of all names triggered by its occurrences: cutting after each of them loses nothing |
| Names.SmallestMeaning | src/drift/consensus.rs:467-479 | the cut list is sorted, and every name it drops is above all it keeps |
| ConsensusEvents.SummaryTrue | src/drift/consensus.rs:450-488 | after every trace the retained summary is exact: it started with a window that recorded a new event under its identifier, and its occurrence count, last window and peak level are those of the windows since |
| ConsensusEvents.PeakMeaning | src/drift/consensus.rs:462-466 | the peak is Drift if and only if one of the event's occurrences was, and Warning otherwise |
| ConsensusEvents.LastTells | src/drift/consensus.rs:450-488 | a window that records nothing leaves the summary alone; a new event starts one; a merge extends the previous one |
| ConsensusObject.DriftConsensus.New | src/drift/consensus.rs:204-219 | the constructor accepts exactly ordered thresholds within the capacity and positive window counts, and gives the initial state, which validates |
| ConsensusObject.DriftConsensus.Update | src/drift/consensus.rs:256-266 | the new fields and the result are those of the transition, and a failing update changes nothing |
| ConsensusObject.DriftConsensus.UpdateInner | src/drift/consensus.rs:268-399 | the field assignments of one window compute the transition |
| ConsensusObject.DriftConsensus.RecordEvent | src/drift/consensus.rs:450-488 | merging or creating an event, with its counters |
| ConsensusObject.DriftConsensus.ApplyLevel | src/drift/consensus.rs:336-385 | the level logic of one window on the fields |
| ConsensusObject.DriftConsensus.Reset | src/drift/consensus.rs:242-253 | reset gives back a new consensus of the same configuration, the next event identifier included |
| ConsensusObject.CheckVotes | src/drift/consensus.rs:433-448 | the loop with its set of seen names accepts exactly well-formed votes of distinct detectors within the capacity, and reports the first fault |
| Schema.DecodeEncode | src/descriptor.rs:183-208 | a decoder recovers every valid schema from its bytes followed by anything, and leaves the rest untouched |
| Schema.EncodingIdentifies | src/descriptor.rs:183-208 | two valid schemas with the same bytes are identical, and no encoding is a proper prefix of another |
| Schema.FeatureBack | src/descriptor.rs:189-205 | one encoded feature decodes to itself before any following bytes |
| Schema.MetadataBack | src/descriptor.rs:201-205 | the counted metadata entries decode to themselves |
| Schema.TextBack | src/descriptor.rs:342-345 | a length-prefixed string decodes to itself, whatever bytes it contains |
| Schema.OptionalTextBack | src/descriptor.rs:347-355 | the tag byte tells an absent string from an empty one |
| Schema.OptionalBitsBack | src/descriptor.rs:357-365 | an optional float decodes to its bit pattern |
| Schema.BigEndianBack | src/descriptor.rs:338-340 | big-endian bytes decode to their number |
| SchemaLimits.AcceptedSchemas | src/descriptor.rs:158-180 | exactly which schemas are valid, with the limits spelled out and the bounds compared as floats |
| SchemaLimits.OrderKeyMeaning | src/descriptor.rs:42-46 | the comparison of two bounds on their bit patterns is the comparison of the floats they encode |
| SchemaLimits.ControlMeaning | src/descriptor.rs:330 | the bytes of a text show a control character if and only if one of its code points is one |
| SchemaMetadata.InsertionOrderIrrelevant | src/descriptor.rs:57-70 | the same metadata entries inserted in any order give the same bytes |
| SchemaMetadata.SameLookups | src/descriptor.rs:57-70 | ordered maps with the same lookups are the same list of entries |
| SchemaMetadata.PutLookup | src/descriptor.rs:57-70 | an insertion is visible under its key and nowhere else |
| SchemaMetadata.BuildSound | src/descriptor.rs:57-70 | the map built by insertions is ordered and answers like the last insertion of each key |
| SchemaHasher.HashInput.WriteFeature | src/descriptor.rs:189-205 | the helpers append exactly the encoding of the feature |
| SchemaHasher.HashInput.WriteMetadata | src/descriptor.rs:201-205 | the loop appends the count and every entry in key order |
| SchemaHasher.HashInput.WriteFeatures | src/descriptor.rs:188-206 | the loop appends the encodings of all features in order |
| SchemaHasher.HashInput.WriteOptionalString | src/descriptor.rs:347-355 | the helper appends the tagged encoding |
| SchemaHasher.HashInput.WriteString | src/descriptor.rs:342-345 | the helper appends the length-prefixed encoding |
| SchemaHasher.Validate | src/descriptor.rs:158-180 | the loop with its set of seen names accepts exactly the valid schemas |
| SchemaHasher.HashBytes | src/descriptor.rs:183-208 | an invalid schema is refused and a valid one feeds exactly its encoding |
| Adwin.UpdateMeaning | src/drift/adwin.rs:350-386 | Drift exactly when detection is open and some split of the grown window beats the drift bound, and then the part before the smallest such split is dropped; Warning exactly when none does but one beats the warning bound, window untrimmed |
| Adwin.UpdateOpens | src/drift/adwin.rs:350-386 | detection opens at `min_samples` observations and two values; then Drift if and only if some split of the grown window beats the bound for `delta`, Warning if and only if none does but some beats that for `warning_delta` |
| Adwin.BeatsMeaning | src/drift/adwin.rs:299-329 | a split beats the bound if and only if the means of its two parts lie further apart than the bound for the two sizes, the window size and the significance level |
| Adwin.SilenceMeans | src/drift/adwin.rs:293-331 | with a bound that does not increase in delta, no level means no split beats either bound; with equal deltas a warning is impossible |
| Adwin.UpdateKeeps | src/drift/adwin.rs:350-386 | an update keeps the invariant and fails only when the sample counter is full |
| Adwin.OffsetKept | src/drift/adwin.rs:334-340 | evicting, appending and trimming keep the distance between the running total and the sum of the window |
| Adwin.PrefixGap | src/drift/adwin.rs:299-318 | the difference of means from prefix sums is the naive one from the two slices |
| Adwin.FirstFromMeaning | src/drift/adwin.rs:309-329 | the search returns the smallest split that beats the bound, or none exists |
| AdwinRuns.WindowIsSuffix | src/drift/adwin.rs:350-409 | after every run the window is a contiguous suffix of the observations accepted since the last reset, at most `max_window` long, and the total is its sum |
| AdwinRuns.ConstantStreamQuiet | src/drift/adwin.rs:350-386 | a stream of one repeated value never raises a level and the window keeps all that fits |
| AdwinRuns.TotalUnread | src/drift/adwin.rs:293-331 | levels and windows never depend on the running total |
| AdwinPortable.ReachableRoundTrip | src/drift/adwin.rs:242-279 | every reachable state exports to an accepted one; restoring it under the same configuration, and no other, gives a detector that behaves the same for ever |
| AdwinPortable.AcceptedExports | src/drift/adwin.rs:83-126 | the validator accepts an export exactly when the detector is well formed and its total is within the tolerance |
| AdwinPortable.ExportRestore | src/drift/adwin.rs:257-279 | restore succeeds exactly on accepted states with the given configuration, and exports back the same state |
| AdwinPortable.InexactTotalHarmless | src/drift/adwin.rs:257-279 | a state accepted with an inexact total gives the same levels and windows for ever as one with the exact total |
| AdwinPortable.AcceptanceNotInductive | src/drift/adwin.rs:83-126 | a concrete accepted import whose export after one more update is refused |
| AdwinPortable.AlwaysAcceptedIff | src/drift/adwin.rs:83-126 | an accepted detector whose total is within the absolute tolerance of the window's sum exports accepted states for ever; with room in the sample counter for `max_window` more samples, only such a detector does |
| AdwinObject.AdwinDetector.New | src/drift/adwin.rs:189-220 | the constructor's rejections in order; it accepts exactly 0 < delta <= warning delta < 1 with positive sizes, and starts empty |
| AdwinObject.AdwinDetector.CheckSplits | src/drift/adwin.rs:293-331 | the single pass finds what two separate searches would: the first drift, else the first warning |
| AdwinObject.AdwinDetector.TrimFront | src/drift/adwin.rs:334-340 | the pops remove the oldest values and their sum |
| AdwinObject.AdwinDetector.Update | src/drift/adwin.rs:350-386 | the new fields and the level are those of the transition, and a failing update changes nothing |
| AdwinObject.AdwinDetector.Clear | src/drift/adwin.rs:404-409 | reset gives back a new detector of the same configuration |
| AdwinObject.AdwinDetector.WindowMean | src/drift/adwin.rs:228-234 | with an exact total the reported mean is the mean of the window |
| AdwinObject.AdwinDetector.Restore | src/drift/adwin.rs:257-279 | restoring gives the object of the accepted state or the error |
| AdwinObject.PrefixSums | src/drift/adwin.rs:299-305 | entry k of the prefix array is the sum of the k oldest values |
| AdwinObject.ValidatePortable | src/drift/adwin.rs:84-125 | the checks in order, with the recomputation loop |
| Weighted.VarianceIsTwoPass | src/weighted.rs:150-176 | after any stream the mean times the total weight is the weighted sum and m2 is the weighted sum of squared distances from that mean, never negative |
| Weighted.VarianceValueIsTwoPass | src/weighted.rs:144-146 | the reported variance is the mean squared distance from the weighted mean, and nothing before a positive weight |
| Weighted.MeanIsTwoPass | src/weighted.rs:85-101 | the reported mean is the weighted sum over the total weight, and nothing before a positive weight |
| Weighted.UpdateAddsMoments | src/weighted.rs:150-176 | an update fails only on a full counter: the negative-variance error is unreachable and the clamp changes nothing; the three moments grow by the sample's own |
| Weighted.UpdatesExact | src/weighted.rs:85-101 | mean and variance refuse a negative weight, ignore a zero one, and take a positive one if and only if the counter has room |
| Weighted.MeanMinimisesSpread | src/weighted.rs:150-176 | no other centre has a smaller weighted sum of squares, and only the mean attains it |
| Weighted.OrderIrrelevant | src/weighted.rs:150-176 | the result does not depend on the order of the samples, rejected and zero-weight ones included |
| Weighted.WeightIsRepetition | src/weighted.rs:150-176 | one update of integer weight n gives the weight, mean and spread of n unit updates; only the sample count differs |
| Weighted.RunMeanAgrees | src/weighted.rs:85-101 | the mean accumulator and the mean inside the variance accumulator are the same after every stream |
| Weighted.ImportedSpread | src/weighted.rs:379-391 | from an accepted empty state with positive m2 the spread stays too large by that m2, so the two-pass equation holds if and only if it was zero |
| Weighted.ImportedSpreadHappens | src/weighted.rs:379-391 | every positive m2 is accepted in an empty state, and after any one sample it is still there although the sample has no spread |
| WeightedDecay.WeightIsRepetition | src/weighted.rs:236-256 | one decayed update of integer weight n gives the mean of n unit updates |
| WeightedDecay.EffectiveSmoothing | src/weighted.rs:236-256 | an update of integer weight n leaves (1 - alpha)^n of the distance to the new value |
| WeightedDecay.WeightsAdd | src/weighted.rs:236-256 | two updates with one value decay as one update with the summed weight, fractions included |
| WeightedDecay.UpdateExact | src/weighted.rs:236-256 | a decayed update refuses a negative weight, ignores a zero one, takes over the first value, and otherwise shrinks the distance to the new value by the weight's power of 1 - alpha |
| WeightedDecay.RunFromNew | src/weighted.rs:208-234 | a new mean accepts exactly alpha in (0, 1], has no value before the first accepted sample, and then that one |
| WeightedDecay.StaysInRange | src/weighted.rs:236-256 | the decayed mean never leaves the range of the values seen |
| WeightedObject.WeightedMean.UpdateWeighted | src/weighted.rs:85-101 | the fields become those of the transition; errors and zero weights change nothing |
| WeightedObject.WeightedVariance.UpdateWeighted | src/weighted.rs:150-176 | the same, and the call fails only on a negative weight or a full counter |
| WeightedObject.WeightedVariance.Value | src/weighted.rs:144-146 | the population variance or nothing |
| WeightedObject.DecayedMean.New | src/weighted.rs:208-222 | alpha must lie in (0, 1] |
| WeightedObject.DecayedMean.UpdateWeighted | src/weighted.rs:236-256 | the fields become those of the transition; errors and zero weights change nothing |
| SemVer.CompareIsPrecedence | scripts/release_version_compare.py:41-74 | `compare` is -1 exactly when the first version has lower precedence by section 11 of SemVer 2.0.0, 1 exactly when higher, 0 exactly when equal or when the first differing fields are equal numbers spelled differently; and it is antisymmetric |
| SemVer.CanonicalTotalOrder | scripts/release_version_compare.py:41-74 | without leading zeros `compare` is a total order: zero only for equal core and prerelease |
| SemVer.NewerTransitive | scripts/release_version_compare.py:41-74 | strictly-newer is transitive on all versions, leading zeros included |
| SemVer.LeadingZeroBreaksEquivalence | scripts/release_version_compare.py:52-57 | with leading zeros comparing equal is not transitive: a concrete triple |
| SemVer.ListsMatch | scripts/release_version_compare.py:50-64 | the scan is the first-difference order, and the early zero is returned exactly on a tie |
| SemVer.CanonicalValue | scripts/release_version_compare.py:55-57 | numerals without leading zeros and with the same value are the same string |
| SemVer.NumeralValue | scripts/release_version_compare.py:55-57 | every number has a canonical numeral, and its value is read back with or without a leading zero |
| Names.LessMeaning | scripts/release_version_compare.py:62 | strings are ordered by the first byte that differs, or by length when one is a prefix of the other |

## Left out

- Rounding, NaN, infinity and the non-finite error branches: over the reals they cannot occur. The tolerance
  branches are kept, and shown unreachable where they are.
- LinUcb.StableBandit.Select: computes all scores before the selection loop instead of inside it; scoring only
  reads, so the choice is the same. The other selection methods of both bandits do likewise.
- LinUcb.FastBandit.Validate: the symmetry tolerance is kept, although every refining state is exactly symmetric.
- RidgeBandit.FromLinUcbRefines: the conversion is stated on the unaveraged inverse, which averaging leaves as it is.
- Condition diagnostics of LinUCB, the accessors of single matrices, and the explicit-inverse reference code in tests.
- WeightedDecay.WeightsAdd: needs the power function to be exactly multiplicative, which a float `powf` is only up to rounding.
- AdwinPortable.AlwaysAcceptedIff: for a total outside the absolute tolerance it assumes counter room for `max_window`
  more samples, that is a sample count below 2^64 by that much; nearer to the limit the answer depends on the bound.
- ReplayObject.SortEvents: an insertion sort stands for the library's stable sort, likewise for the latencies; the
  sorted arrangement is unique (`ReplayComposition.SortedUnique`, `ReplayReport.AscendingUnique`).
- ReplayObject.DecisionReplayHarness.MakeReport: keeps the digest as a number; its 16 hexadecimal digits are left out.
- ConsensusSuccess.RunSucceeds: at exactly 2^64 - 1 windows acceptance also depends on the next event identifier.
- Replay checkpoints, `Snapshot` and every other JSON or serde path; SHA-256 itself: the encoding is modelled, not the hash.
- Schema.DecodeEncode: starts from valid schemas; that a byte string is valid UTF-8 is not checked, as the source's strings are.
- Ledger.StepLegal: contexts are real vectors and actions arm indices, the instance replay uses; the other bounded value
  types and caller-supplied domain validators are not modelled. State versions are not modelled.
- The order in which the ledger returns removed identifiers is stated on `LedgerObject` only; the value model returns the set.
- SemVer.CompareIsPrecedence: starts from parsed versions; the regular expression, build metadata and the command line are left out.
- Weighted absolute and squared error metrics: thin wrappers of the weighted mean.
- The values of the logarithm and square root in the Hoeffding bound.
- Thompson sampling, UCB1, epsilon-greedy, diagnostics, pipelines, the drift-aware wrapper, the feature hasher, signing,
  bindings and release scripts: probabilistic, plumbing, or dependent on code not shown.
