# AlphaSwarm: a verified model

AlphaSwarm simulates how a crowd of language-model agents reacts to a market rumour: rounds of
decisions, peers shown to each other, shocks injected on the way, and metrics over the result. This
project models the parts of it whose correctness is hardest to see from any one function, and proves
what those parts promise. `dafny verify dfyconfig.toml` checks all of it.

- **The memory governor** (`Governor*.dfy`). A slot limiter shared by any number of waiters, driven by
  a five-state monitor. `GovernorModel` has one step function per handler, `GovernorClass` is the
  object with its fields, `GovernorSystem` interleaves waiters, releases, checks, monitor deaths, done
  callbacks and stops in any order; the other files prove what holds over every run. The bounds and
  orderings of `GovernorSettings` (src/alphaswarm/settings.py:132-188) and a nondecreasing clock are
  assumed.
- **Peers** (`Peer*.dfy`). The two-phase greedy selection under a cap per bracket, the renderer with a
  hard budget, the round builder with its control readers, and the exposure counts. Draws are
  arbitrary keys, the shuffle any permutation, a sample any choice of the right size.
- **Measurement** (`Gini`, `Ranks`, `Flips`, `Citations`, `Consensus`, `ConsensusSides`). Closed forms against their
  definitions, over integers and exact reals.
- **The frame adapter** (`StructuralSharing.dfy`). Arrays and objects are heap references, so object
  identity is real; a separate tree is the value they show.
- **The state store and the shock protocol** (`StateStore.dfy`, `Store*.dfy`, `ShockProtocol.dfy`).
- **Cycle matching, PNG chunks, interviews, generated documentation blocks** (`CycleMatching.dfy`,
  `PngChunks.dfy` with `PngLayout.dfy`, `Interview.dfy`, `DocsBlocks.dfy`).

`Common` and `Sorting` (one stable sort, used wherever the source calls `sorted`) serve all of these.

## Where the code and its promises part

- `docs/DECISIONS.md:630` says failure regrowth goes "never above the pre-shrink level". It does when a
  monitor check raises the limit between the shrink and the regrow (`GovernorRecovery.RegrowOvershoots`).
  `PassesLevelExactly` and `RegrowPassesExactly` give the exact condition over any stretch of a session:
  the slots that checks added exceed the slots still owed and those written off.
- A stop that runs after the monitor died but before its done callback surfaces the error, resets, and
  then the callback sets the same error again in the fresh session, whose agents are refused
  (`GovernorErrors.StaleErrorRaisedTwice`). `StaleFatalExactly` gives the exact condition.
- Resetting a session under a holder makes `_in_use` forget that holder
  (`GovernorSlots.StopUnderHolderOverAdmits`). `InUseCountsHolders` gives the exact condition.
- The frame adapter (`StructuralSharing`) keeps an old 0 where the new frame has a -0 (`OldZeroIsKept`),
  the only way its result can differ from the frame built (`SharingKeepsValue`); `SignsKeptExactly` and
  `FrameSignsExactly` say exactly when it does not.
- The adapter promises that an unchanged frame is the previous one. It rebuilds one that holds a NaN
  (`NaNIsRebuilt`), two objects under one key (`SecondObjectOfAKey`) or another clock reading
  (`LaterFrameIsRebuilt`: `buildFrame` stamps every frame, frontend/src/adapter/frame.ts:130);
  `FreshFrameKept` gives the exact condition.
- On a roster with an agent in two brackets the selection of peers can list that agent twice
  (`PeerSelection.SharedIsChosenTwice`); without one, or with fewer than two guaranteed slots, it never does
  (`SelectDiversePeers`). The roster generator makes none.
- A seeded subset keeps a reader of every bracket outside unless the bracket repeats readers so often
  that its share reaches the number of different ones (`PeerRounds.ControlShare`, `AllHeldOut`).
- The flip counts of metrics.py and episodes.py count pairs, those of rounds.py agents. They agree exactly
  when no pair that flips is followed by another of the same agent (`Flips.AllFlipCountsAgree`).
- An empty shock text passes the queue but the runner drops it (`ShockProtocol.EmptyShockIsDropped`);
  `NothingIsDroppedExactly` gives the exact condition. The web route admits no text that short
  (src/alphaswarm/web/params.py:17).
- `sync` does not settle when a generated body holds a marker of its file (`DocsBlocks.SettlesExactly`).

## Model

| member | source | states |
|---|---|---|
| GovernorSystem.InvAt | src/alphaswarm/governor.py:371-413 | Every reachable state of any run, over any interleaving: gate closed iff PAUSED or CRISIS, `_crisis_start` set iff CRISIS, `_paused_since` set iff PAUSED, CRISIS has limit 1 and no debt, RECOVERING stays within the baseline, 1 <= limit <= max_parallel, 0 <= in use <= max_parallel, no green checks outside RUNNING, no clock in the future, every waiter parked on the current event really blocked |
| GovernorSystem.InvStep | src/alphaswarm/governor.py:417-487 | Each single step, from whatever waiter, release, check, callback or stop it comes, keeps that invariant |
| GovernorSystem.CheckKeeps | src/alphaswarm/governor.py:450-664 | A monitor check keeps the mode invariant in all five states and, when it opens room, wakes everybody |
| GovernorSystem.ReleaseKeeps | src/alphaswarm/governor.py:150-160 | A release keeps the mode invariant and moves to a new event, so no waiter parked before it stays unaware of the freed slot |
| GovernorSlots.NoLostWakeup | src/alphaswarm/governor.py:130-160 | In every reachable state a waiter parked on the current event faces a closed gate or a full limit, with no fatal error pending |
| GovernorSlots.DeadMonitorIsHeard | src/alphaswarm/governor.py:162-171 | In every reachable state with a failed monitor and a waiter asleep on the current event the done callback is still due, and running it sets the fatal error and the event, after which the waiter re-checks and raises that error |
| GovernorSlots.OpenSlotAdmits | src/alphaswarm/governor.py:130-148 | In every reachable state with an open gate, a free slot and no error, any waiter at all may re-check and is admitted |
| GovernorSlots.InUseCountsHolders | src/alphaswarm/governor.py:150-160 | `_in_use` equals the number of holders throughout a run if and only if every session of the run is stopped while nobody holds a slot |
| GovernorSlots.HoldersBounded | src/alphaswarm/governor.py:130-148 | Then never more than max_parallel agents hold a slot |
| GovernorSlots.StopUnderHolderOverAdmits | src/alphaswarm/governor.py:399-413 | The condition is needed: for all valid settings and every n there is a run that ends with n holders at once, session resets under holders letting the next ones in |
| GovernorSlots.FatalUntilReset | src/alphaswarm/governor.py:130-148 | Once a fatal error is set nothing is admitted until the session is reset, and every attempt or re-check raises that same error and leaves the waiters |
| GovernorCrisis.ShutSince | src/alphaswarm/governor.py:505-517 | Whenever the gate is shut, its clock (crisis start, or the pause it was backdated to) names a moment since which it was shut and nobody was admitted |
| GovernorCrisis.LastSuccessAt | src/alphaswarm/governor.py:150-160 | The success clock is the time of the latest successful release of the whole run, or the start |
| GovernorCrisis.AbortIsJustified | src/alphaswarm/governor.py:593-611 | Whenever the abort is raised: shut and nobody admitted for longer than the timeout, no successful release within the timeout, and the error carries exactly that duration |
| GovernorCrisis.AbortExactly | src/alphaswarm/governor.py:593-611 | In CRISIS a check aborts if and only if the crisis clock, the run and all successful releases are older than the timeout, whatever the reading |
| GovernorCrisis.EscalatedPauseAborts | src/alphaswarm/governor.py:569-591 | After a pause is escalated, with no later success or reset, the very next check aborts whatever it reads |
| GovernorErrors.DeliveredMeansRaised | src/alphaswarm/governor.py:130-148 | The delivered flag is set if and only if some acquire of this session raised |
| GovernorErrors.FatalNeverLost | src/alphaswarm/governor.py:173-203 | With no other exception propagating, a stop with a fatal error raises it if and only if no acquire of the session did: the error is surfaced at least once and not again by the stop |
| GovernorErrors.StaleFatalExactly | src/alphaswarm/governor.py:381-397 | In a session whose own monitor has not failed, a fatal error is present if and only if a done callback left from before the stop has run: the exact condition under which an error outlives its session |
| GovernorErrors.CleanStopStaysClean | src/alphaswarm/governor.py:173-203 | A stop that leaves no callback pending is followed by an error-free session until its own monitor fails |
| GovernorErrors.DirtyStopLeaks | src/alphaswarm/governor.py:169-171 | From any state, a stop that leaves a callback pending lets it set a fatal error in the fresh session |
| GovernorErrors.StaleErrorRaisedTwice | src/alphaswarm/governor.py:162-203 | A concrete sequence of events: one monitor failure is raised by the stop and raised again by an acquire of the next session |
| GovernorErrors.RecordedDuration | src/alphaswarm/governor.py:381-397 | The fatal error carries the duration of the crisis error that ended the monitor, or for a foreign error the time spent in CRISIS |
| GovernorErrors.StopStartsAfresh | src/alphaswarm/governor.py:399-413 | A stop leaves the governor as it was made, but for the events set so far and the success clock |
| GovernorAccounting.SessionAccounting | src/alphaswarm/governor.py:271-325 | Over any session: each shrink is witnessed by its own full window at or above the failure threshold, so shrinks * window <= outcomes; each regrow by its own block of consecutive successes; slots regrown never exceed slots shrunk, and the debt is exactly what is still owed |
| GovernorAccounting.LedgerInvAt | src/alphaswarm/governor.py:271-325 | At every moment the window, the success streak and the debt are what the outcome history of the session says: the debt is exactly shrunk minus regrown minus forgiven |
| GovernorAccounting.ShrinksExactly | src/alphaswarm/governor.py:271-299 | A release lowers the limit if and only if it failed, outside CRISIS and above one slot, the outcomes since the last failing window fill a window, and the failures counted in it reach the threshold; then by one step, never below one slot |
| GovernorAccounting.RegrowsExactly | src/alphaswarm/governor.py:301-325 | A release raises the limit if and only if it succeeded in RUNNING or THROTTLED below the maximum with slots owed, and the successes since the last failure or used-up streak are enough; then by one step, by no more than is owed, never above the maximum |
| GovernorRecovery.RecoveryIsExact | src/alphaswarm/governor.py:612-664 | From CRISIS, undisturbed calm checks bring the governor to RUNNING at the baseline in exactly max(2, ceil((baseline - 1) / step)) checks, the limit following the ramp at every check before and never passing the baseline |
| GovernorRecovery.LevelRises | src/alphaswarm/governor.py:301-325 | Inside a session limit plus debt rises if and only if a monitor check raises the limit: no release can raise it |
| GovernorRecovery.PassesLevelExactly | docs/DECISIONS.md:630 | At any moment of a session the limit is above the level (limit plus debt) of an earlier moment if and only if the slots added by monitor checks since then exceed the slots still owed plus those written off |
| GovernorRecovery.RegrowPassesExactly | src/alphaswarm/governor.py:301-325 | A regrow goes above the level before the shrinks if and only if, before it, the slots added by checks exceed what will still be owed after it plus what was written off |
| GovernorRecovery.RegrowWithinLevel | src/alphaswarm/governor.py:301-325 | In particular: as long as no check raises the limit, regrowing never passes the level before the shrinks |
| GovernorRecovery.RegrowOvershoots | docs/DECISIONS.md:630 | A concrete sequence of events: limit 8 before the shrink, 10 after the regrow, because a check scaled up in between |
| GovernorGate.GateFollowsReading | src/alphaswarm/governor.py:450-487 | From a check to the next check or stop the gate is shut if and only if that check aborted, read kernel pressure, or read a pause-zone percentage outside RECOVERING; while it is shut nobody is admitted |
| GovernorGate.ShutByReading | src/alphaswarm/governor.py:519-630 | Whenever the gate is shut some check of the session read kernel pressure or a pause-zone percentage |
| GovernorGate.TransitionTable | src/alphaswarm/governor.py:450-461 | The documented transitions of all five states in the raw fields of the reading, both directions |
| GovernorGate.EscalatesExactly | src/alphaswarm/governor.py:569-591 | A stuck pause escalates if and only if the pause, the run and every success so far are all older than the timeout |
| GovernorGate.ScalesUpExactly | src/alphaswarm/governor.py:519-554 | A RUNNING check raises the limit if and only if it is calm, there is room, and with it the calm checks in a row that raised nothing number scale_up_consecutive_checks; then by one step, never above the maximum |
| GovernorGate.OtherChecksKeepLimit | src/alphaswarm/governor.py:556-591 | In THROTTLED and PAUSED a check moves the limit only into CRISIS |
| GovernorClass.ResourceGovernor.TryAcquire | src/alphaswarm/governor.py:130-148 | One pass of acquire does what the step function of the run theorems says to every field, with the verdict raise, admit or wait |
| GovernorClass.ResourceGovernor.ReleaseSlot | src/alphaswarm/governor.py:150-160 | A release does what the step function says to every field, through the recording, shrinking and regrowing methods |
| GovernorClass.ResourceGovernor.StopMonitoring | src/alphaswarm/governor.py:173-203 | A stop, with the monitor running, dead or done, cancels or absorbs it, resets and returns the error it raises |
| GovernorClass.ResourceGovernor.HasFailingWindow | src/alphaswarm/governor.py:271-299 | True exactly when the window is full and its failure share reaches the threshold |
| GovernorClass.ResourceGovernor.ApplyStateTransition | src/alphaswarm/governor.py:450-487 | One monitor iteration, through the five handlers, does what the step function says; an abort fails the monitor |
| PeerSelection.SelectDiversePeers | src/alphaswarm/peers.py:86-159 | For any roster, draws and shuffle: an error iff the cap is below 1; only eligible peers (never the reader, never a PARSE_ERROR agent), at most limit; a top member of each of the min(min_brackets, limit) top-ranked brackets; nobody twice with fewer than two such slots. If no candidate stands in two brackets also: distinct peers, exactly min(limit, sum of min(cap, members)) of them, at most cap per bracket, covering at least min(min_brackets, limit, brackets), in each bracket the top ones by key, and whoever is filled in has a key no smaller than any candidate left out while its bracket had room |
| PeerWeights.DrawnByWeight | src/alphaswarm/peers.py:63-83 | If x is chosen and y of its bracket is not, then log(u_x) * w_y >= log(u_y) * w_x for positive finite weights; a positive weight comes before none, and without weights the draws alone decide |
| PeerWeights.TopsByWeight | src/alphaswarm/peers.py:124-145 | The same law between a guaranteed bracket and a passed-over one, at the summed weights of their own members, and between the pick of a guaranteed bracket and its other members |
| PeerWeights.FilledByWeight | src/alphaswarm/peers.py:147-156 | The same law between a filled-in peer and any candidate, of whatever bracket, left out while its bracket had room |
| PeerSelection.SharedIsChosenTwice | src/alphaswarm/peers.py:86-159 | Those two conditions are exact: with two guaranteed slots, for every roster with a candidate in two brackets and all weights under which it has reach there are draws (logs of numbers below 1) for which every list that takes its guaranteed picks holds that candidate twice |
| PeerSelection.PhaseOne | src/alphaswarm/peers.py:86-159 | The guaranteed phase picks one top member from each of the top brackets, on any roster |
| PeerSelection.PhaseTwo | src/alphaswarm/peers.py:86-159 | The fill phase only appends candidates not yet chosen, up to the limit; if no candidate stands in two brackets it stops exactly at limit or capacity, keeps the cap, and passes over nobody whose bracket still has room |
| PeerSelection.RankedSorts | src/alphaswarm/peers.py:86-159 | The descending sort is sorted, a permutation, and stable: candidates with tied keys keep their order |
| Sorting.SortedIdsIgnoreOrder | src/alphaswarm/peers.py:389-389 | `sorted(ids)` depends on the ids alone, not on the order they come in |
| Sorting.LessIsLexicographic | src/alphaswarm/peers.py:389-389 | Ids compare as in a dictionary: a proper beginning first, otherwise by the first difference |
| PeerSelection.SelectionSize | src/alphaswarm/peers.py:86-159 | A selection has at most the capacity of the partition, and has it when it is saturated |
| PeerSelection.ReachComesFirst | src/alphaswarm/peers.py:63-83 | No peer without reach is chosen while one with reach from the same bracket is left out |
| PeerSelection.ShuffleKeeps | src/alphaswarm/peers.py:86-159 | The final shuffle changes none of the promises |
| PeerRendering.FormatPeerContext | src/alphaswarm/peers.py:162-235 | A block is empty iff nobody is shown; a non-empty one is exactly header, one line per shown peer in order, and guard, in at most budget - 1 characters; posts are cut off only when no room is left |
| PeerTexts.LineBegins | src/alphaswarm/peers.py:211-213 | The beginning of a line, letter for letter, under each setting of the two label switches |
| PeerTexts.RoomIsAllThereIs | src/alphaswarm/peers.py:213-224 | A quote that takes all the room left for it brings the block to exactly budget - 1 characters |
| PeerTexts.FitsByWords | src/alphaswarm/peers.py:218-221 | A quote too long for its room ends before the last space inside it, unless nothing would be left |
| PeerTexts.PostsExactly | src/alphaswarm/peers.py:291-304 | Each chosen peer gives one post, in order, with its own bracket, signal, confidence and rationale |
| PeerTexts.SignalWords | src/alphaswarm/peers.py:213-213 | The four signals in upper case |
| PeerTexts.WeightsExactly | src/alphaswarm/peers.py:269-280 | An author weighs its base reach plus its global share, plus the boost exactly when this reader cited it |
| PeerRounds.BuildReader | src/alphaswarm/peers.py:238-315 | One reader of either builder: the block and exposure of exactly its feed; nobody is shown twice when no id stands in two brackets (stratified) or when ids are unique (random) |
| PeerRounds.SelectRandomPeers | src/alphaswarm/peers.py:419-437 | A uniform sample, as large as the limit allows, of the roster peers that decided last round without failing, never the reader |
| PeerRounds.BuildPeerContexts | src/alphaswarm/peers.py:440-484 | For any roster and both strategies: blocks and exposures stay aligned with the roster, each reader shown exactly its feed, within budget, only decided peers |
| PeerRounds.SeededBracketSubset | src/alphaswarm/peers.py:371-390 | The subset is the union of one sample of the right size per bracket, drawn from its sorted ids |
| PeerRounds.ControlShare | src/alphaswarm/peers.py:364-395 | Every bracket contributes at most its share, which is below its size; exactly its share if it lists nobody twice; and it keeps a reader that sees peers if the share is below the number of different readers it lists |
| PeerRounds.AllHeldOut | src/alphaswarm/peers.py:371-390 | The last condition is exact: if the share reaches the number of different readers, some lawful sampler holds out the whole bracket |
| PeerTexts.SubsetSizeIsNearest | src/alphaswarm/peers.py:364-368 | The share of a bracket is count * fraction to the nearest, halves up, short of the last agent |
| PeerRounds.ControlsIgnoreOrder | src/alphaswarm/peers.py:371-390 | The drawn subset is the same for every order of the roster, whatever it lists, although the sampler sees a list: the sorted ids of a bracket are the same list for every order |
| PeerRounds.BuildRoundContext | src/alphaswarm/peers.py:503-548 | In round 1, without peers and for control readers: no block and no exposure; everybody else exactly its feed, for any strategy; the own-prior line of every reader, controls included, when that memory is on; all aligned with the roster |
| PeerRounds.OwnPriors | src/alphaswarm/peers.py:403-416 | Each reader gets its own line or none, by its previous decision alone |
| PeerTexts.OwnPriorReads | src/alphaswarm/peers.py:403-416 | The own-prior line, letter for letter; none without a decision or after a failure |
| PeerExposure.ComputeExposureMetrics | src/alphaswarm/peers.py:318-354 | Slots, readers and distinct agents per bracket equal their definitions by counting |
| PeerExposure.ExposureConserved | src/alphaswarm/peers.py:318-354 | Summed over the brackets the slots equal the number of shown peers that are on the roster |
| PeerExposure.RoundSlotsAddUp | src/alphaswarm/peers.py:503-548 | For the exposures of a round that is everybody shown: the bracket slots add up to the lengths of the exposures |
| Gini.SortedIndexIdentity | src/alphaswarm/metrics.py:371-395 | For sorted counts, twice the sorted-index expression is the sum of all pairwise absolute differences |
| Gini.GiniIsMeanDifference | src/alphaswarm/metrics.py:371-395 | The coefficient is the sum of all pairwise absolute differences over 2 n total, for counts in any order |
| Gini.GiniExtremes | src/alphaswarm/metrics.py:371-395 | It lies in [0, (n - 1) / n], is 0 iff all counts are equal and (n - 1) / n iff one agent holds every citation |
| Gini.CitationGini | src/alphaswarm/metrics.py:371-395 | The loop over decisions computes that coefficient of what each agent received; None exactly when there is nobody or nothing to count |
| Ranks.AverageRanks | src/alphaswarm/evaluation.py:437-449 | The sort-and-run loop gives every index (number smaller) + (number equal + 1) / 2 |
| Ranks.RanksSum | src/alphaswarm/evaluation.py:437-449 | Whatever the ties, the ranks sum to n (n + 1) / 2 |
| Ranks.RanksKeepOrder | src/alphaswarm/evaluation.py:437-449 | A rank is smaller iff its value is smaller, and equal iff equal |
| Ranks.SpearmanSums | src/alphaswarm/evaluation.py:452-465 | An error iff the lengths differ, None exactly below 3 points or for a constant series; otherwise the three sums are the covariance and variances of the ranks, with sxy^2 <= sxx * syy |
| Ranks.CauchySchwarz | src/alphaswarm/evaluation.py:452-465 | sxy^2 <= sxx * syy for any two lists |
| Ranks.ConstantRanks | src/alphaswarm/evaluation.py:452-465 | The variance of the ranks is zero iff all values are equal |
| Flips.AllFlipCountsAgree | src/alphaswarm/rounds.py:140-190 | For any two rounds and any group: total_flips = agents_shifted of compute_shifts; off-diagonal sum of transition_matrix = inside + outside of split_flips = flips of retest_metrics = episode records with a flip type; the first two never exceed the other four, and all six are equal if and only if no pair that flips is followed by another pair of its agent |
| Flips.PairsAreAgents | src/alphaswarm/metrics.py:138-153 | In any group, the flips counted by pairs are the agents that flipped plus the flips a later pair of the same agent overwrote |
| Flips.RepeatedAgentCountsTwice | src/alphaswarm/metrics.py:156-169 | One agent listed twice: two flips counted by pairs, one by agents |
| Flips.MatrixCounts | src/alphaswarm/metrics.py:294-306 | With every agent listed once, each cell of the matrix is the number of agents that made that transition |
| Flips.ComputeShifts | src/alphaswarm/rounds.py:140-190 | Transition counts are the sizes of the sets of agents that made each change; agents shifted is the size of the flip set |
| Flips.TransitionMatrix | src/alphaswarm/metrics.py:294-306 | All nine cells, each the number of pairs with those decided signals |
| Flips.SplitFlips | src/alphaswarm/metrics.py:138-153 | Inside counts the flipping pairs of the group, inside and outside together all of them |
| Flips.RetestFlips | src/alphaswarm/metrics.py:156-169 | The pairs decided in both draws and the flips among them, both exact |
| Flips.FlipRecordsCount | src/alphaswarm/episodes.py:36-50 | The records whose flip type is not NONE are as many as the flipping pairs |
| Flips.TypesFillCells | src/alphaswarm/episodes.py:36-50 | The records of each flip type are as many as the pairs in its cell of the transition matrix |
| Flips.ChangesSumToFlips | src/alphaswarm/rounds.py:180-180 | Any table of change counts sums, off the diagonal, to the number of flips |
| Citations.FilterCitations | src/alphaswarm/metrics.py:35-52 | Kept are, in order, the first mentions of shown peers other than the reader; kept + dropped = cited |
| Citations.SurvivorsAreValid | src/alphaswarm/metrics.py:35-52 | Survivors carry the shown spelling, are never the reader, never repeat, and were cited |
| Citations.EveryShownCitationSurvives | src/alphaswarm/metrics.py:35-52 | Every citation of a shown peer, in whatever spelling, leaves that peer among the survivors |
| Citations.FilterTwice | src/alphaswarm/metrics.py:35-52 | Filtering filtered citations drops nothing |
| Citations.KeepsMentionOrder | src/alphaswarm/metrics.py:35-52 | Survivors stand in the order in which they were first mentioned |
| Citations.LastSpellingCounts | src/alphaswarm/metrics.py:35-52 | Of two shown spellings of one id the later counts |
| Consensus.BracketEqualIsMeanOfBrackets | src/alphaswarm/consensus.py:87-105 | The bracket_equal score is the unweighted mean of the headcount scores of the brackets with a decided agent |
| ConsensusSides.ScoreExactly | src/alphaswarm/consensus.py:87-105 | For each weighting, written out as one, the reach, or one over the votes of the bracket: the score is the BUY side minus the SELL side of weight times confidence, over the sum of the weights; 0 without weight |
| ConsensusSides.ScoreTakesSides | src/alphaswarm/consensus.py:96-105 | It is positive iff the BUY side is larger, and negative iff the SELL side is |
| ConsensusSides.WarmerRaises | src/alphaswarm/consensus.py:96-105 | Turning a SELL into a HOLD, or a HOLD into a BUY, never lowers it |
| ConsensusSides.AllBuying | src/alphaswarm/consensus.py:96-105 | Where everybody buys it is the weighted mean confidence |
| Consensus.ScoreInRange | src/alphaswarm/consensus.py:96-105 | Every weighting keeps the score in [-1, 1] |
| Consensus.HeadcountsAgree | src/alphaswarm/evaluation.py:270-280 | headcount_score and the headcount net score agree, score and count, whenever all decided agents have a persona |
| ConsensusSides.HeadcountExactly | src/alphaswarm/evaluation.py:270-280 | The score is the BUY confidences minus the SELL confidences over the number of valid votes |
| Consensus.VotesFromDecisions | src/alphaswarm/consensus.py:64-84 | Votes are the decided agents with a persona, in order |
| ConsensusSides.VotesExactly | src/alphaswarm/consensus.py:64-84 | A longer round votes part by part, and one decision gives one vote with its own fields exactly when it is decided and its agent known |
| Consensus.SumsByBracket | src/alphaswarm/consensus.py:87-105 | Grouping votes by bracket conserves both weighted sums |
| Consensus.QuantileGrows | src/alphaswarm/consensus.py:146-151 | Quantiles of sorted values grow with q and stay between the extremes |
| ConsensusSides.QuantileMixes | src/alphaswarm/consensus.py:146-151 | At a rank the quantile is that value, and between two ranks the mixture of both |
| Consensus.BootstrapInterval | src/alphaswarm/consensus.py:154-171 | Whatever the resampling draws, the interval is ordered and inside [-1, 1] |
| StructuralSharing.Share | frontend/src/adapter/frame.ts:255-280 | The result is `next` with every array and object that has a match in its place in `prev` replaced by that very object, and nothing else changed or reused; it is `prev` if and only if `prev` matches |
| StructuralSharing.ShareItems | frontend/src/adapter/frame.ts:257-265 | The same for arrays |
| StructuralSharing.ShareFields | frontend/src/adapter/frame.ts:266-278 | The same for objects |
| StructuralSharing.SharingKeepsValue | frontend/src/adapter/frame.ts:255-280 | Such a result shows the value of `next`, at every depth; zeros are compared without their sign |
| StructuralSharing.SignsKeptExactly | frontend/src/adapter/frame.ts:255-280 | The result reads exactly like `next`, signs of zeros included, if and only if whatever of `prev` matches in its place reads exactly like its counterpart |
| StructuralSharing.SharingKeepsSigns | frontend/src/adapter/frame.ts:255-280 | In particular without negative zeros on either side the result reads exactly as `next` |
| StructuralSharing.OldZeroIsKept | frontend/src/adapter/frame.ts:256-256 | An input where it does not: share makes the old list with 0 of a new list with -0 |
| StructuralSharing.OldZeroStays | frontend/src/adapter/frame.ts:256-256 | So does every result that share may give for those lists |
| StructuralSharing.FreshMatch | frontend/src/adapter/frame.ts:255-280 | A freshly built value matches an old one if and only if they are equal and free of NaN |
| StructuralSharing.SharingTakesNoNaN | frontend/src/adapter/frame.ts:255-280 | No old array or object that holds a NaN is taken over, at any depth |
| StructuralSharing.NaNIsRebuilt | frontend/src/adapter/frame.ts:256-256 | An input: share gives a new list for an unchanged list holding a NaN |
| StructuralSharing.ShareByKey | frontend/src/adapter/frame.ts:283-293 | Each item is shared with the last previous item of its key, wherever it moved; on lists of objects the result is the previous list if and only if every item matches the one in its place and that one is kept under its key |
| StructuralSharing.FreshListKept | frontend/src/adapter/frame.ts:283-293 | For a fresh list: if and only if the values are equal and free of NaN and no key of the old list belongs to two objects |
| StructuralSharing.SecondObjectOfAKey | frontend/src/adapter/frame.ts:283-293 | An input for every key: of two equal lists, each with two objects under that key, shareByKey makes a new list |
| StructuralSharing.SecondObjectRebuilds | frontend/src/adapter/frame.ts:283-293 | It always does: both places take the second old object |
| StructuralSharing.AdaptSnapshot | frontend/src/adapter/frame.ts:300-310 | The frame always shows the value built; agents and rationales are shared by key; the other fields are all the previous ones if each of them matches, and otherwise each is shared in place; it is the previous frame if and only if both lists are kept and every other field matches |
| StructuralSharing.FrameSignsExactly | frontend/src/adapter/frame.ts:300-310 | The frame reads exactly like the one built, signs of zeros included, if and only if the signs agree wherever something of the previous frame stands for it |
| StructuralSharing.FreshFrameKept | frontend/src/adapter/frame.ts:300-310 | For a freshly built frame: if and only if it equals the previous one, holds no NaN, and the previous lists are steady |
| StructuralSharing.LaterFrameIsRebuilt | frontend/src/adapter/frame.ts:130-130 | So a frame whose clock reading differs is never the previous one |
| StructuralSharing.UniqueKeysAreSteady | frontend/src/adapter/frame.ts:303-304 | Lists without repeated keys are steady |
| StoreVersions.VersionNamesOneView | src/alphaswarm/state.py:220-226 | Over any life of the process, with any number of live and replay stores: a version is never seen on two stores, and two snapshots of a store at one version agree on every field but elapsed time and tps |
| StoreVersions.QuietCallsAreInvisible | src/alphaswarm/state.py:344-420 | A call that takes no version, on a live or a replay store, changes nothing a snapshot shows |
| StoreVersions.VersionsGrow | src/alphaswarm/state.py:539-545 | A call that takes a version moves its store past every version it had before |
| StoreVersions.ReplayDrawsExactly | src/alphaswarm/state.py:552-567 | A replay store takes a version for everything but a snapshot |
| StoreVersions.StoresAreSeparate | src/alphaswarm/state.py:165-218 | Each live store is what its own calls made of it, however the calls on all stores interleave |
| StoreRuns.WindowIsLatest | src/alphaswarm/state.py:326-342 | After any calls the rationale window is the latest 50 pushes since the last SEEDING |
| StoreRuns.FeedIsConsecutive | src/alphaswarm/state.py:326-342 | Those pushes are numbered without gaps up to the number of pushes of the store's life |
| StoreRuns.TpsIsExact | src/alphaswarm/state.py:358-386 | Under a monotonic clock the tps of a snapshot is the sum over the full token history since SEEDING filtered to the last 10 s, over 10, however often the window was pruned, rounding included |
| StoreRuns.RoundingIsExact | src/alphaswarm/state.py:386-386 | Rounding to one decimal changes no tps |
| StoreRuns.ElapsedGrows | src/alphaswarm/state.py:255-307 | Between two SEEDINGs the elapsed time never runs back, whatever phases are entered |
| StoreRuns.RosterIsStable | src/alphaswarm/state.py:239-253 | From begin_run on every snapshot lists the roster in order of first occurrence, no id twice, as long as only roster agents decide |
| StoreRuns.BeginRunInstalls | src/alphaswarm/state.py:239-253 | begin_run installs exactly the given ids, no id twice, in order of first occurrence, all pending |
| StoreSnapshots.ShowsLatestDecision | src/alphaswarm/state.py:228-285 | A snapshot shows each agent by its latest decision since the last round entry, SEEDING or begin_run, and pending before it |
| StoreSnapshots.ShowsLatestSetting | src/alphaswarm/state.py:388-420 | Phase and all ten other overwritten fields show what the latest call set them to, with what SEEDING resets |
| StoreSnapshots.ShowsLogs | src/alphaswarm/state.py:468-471 | Applied shocks are all those since SEEDING; the audit shows the latest 100 lines that hold no secret |
| StoreSnapshots.ShowsWindow | src/alphaswarm/state.py:473-484 | The shock window is open in SEEDING and in a round below the round count, and in no other phase |
| StoreSnapshots.ElapsedExactly | src/alphaswarm/state.py:289-306 | Elapsed time runs from the latest SEEDING, or else the first live phase, to the latest COMPLETE after it, or else to now |
| StoreSnapshots.RefusesExactly | src/alphaswarm/data_audit.py:85-89 | An audit result is refused if and only if one of the three patterns stands in it, in whatever case |
| StoreSnapshots.TakesVersionExactly | src/alphaswarm/state.py:225-226 | Every call takes a version but a snapshot, an empty token count and a refused audit line |
| StoreSnapshots.ReplayShows | src/alphaswarm/state.py:567-591 | A replay snapshot shows the recorded signals of its round, what the player set, and round - 1 edge steps |
| StoreSnapshots.ReplaySets | src/alphaswarm/state.py:552-565 | Each setter of a replay store changes its own field and no other |
| StateStoreClass.StateStore.SetPhase | src/alphaswarm/state.py:255-307 | set_phase leaves every field as its step function says, with a new version |
| StateStoreClass.StateStore.RecordTokens | src/alphaswarm/state.py:344-356 | A positive count is appended, the window pruned, a version taken; any other count changes nothing |
| StateStoreClass.StateStore.PruneTokenWindow | src/alphaswarm/state.py:358-361 | The popleft loop removes exactly the leading entries that are ten seconds old or older |
| StateStoreClass.StateStore.Snapshot | src/alphaswarm/state.py:388-420 | Shows every visible field as it was, the elapsed time and the rounded tps, and changes none of the visible fields |
| StateStoreClass.StateStore.RecordDataSource | src/alphaswarm/data_audit.py:67-99 | A line whose result looks like a secret raises and changes nothing; any other is appended, the oldest of 100 dropped |
| ShockProtocol.EveryShockLandsOnce | src/alphaswarm/simulation.py:564-583 | In every completed run, whatever was queued when: persisted = recorded = accepted (non-empty) shocks, each once, in order, with the round of the first gate still ahead when it was accepted; none is left |
| ShockProtocol.NothingIsDroppedExactly | src/alphaswarm/simulation.py:579-579 | A completed run persists all it accepted if and only if no accepted text is empty |
| ShockProtocol.EmptyShockIsDropped | src/alphaswarm/simulation.py:579-579 | A completed run from every fresh two-round state that drops one |
| ShockProtocol.CutShortKeepsPrefix | src/alphaswarm/rounds.py:498-503 | A run cut short anywhere has persisted a prefix of what it accepted |
| ShockProtocol.OutcomesGrow | src/alphaswarm/rounds.py:640-650 | The outcome of round k carries exactly the shocks persisted for rounds up to k, a prefix of every later outcome; the rounds in the ledger strictly increase |
| ShockProtocol.OpenWindowIsConsumed | src/alphaswarm/state.py:473-484 | Every moment at which shock_window_open holds is followed, in a completed run, by a later consume call |
| ShockProtocol.OpenMeansGateAhead | src/alphaswarm/state.py:473-484 | In every reachable state an open window means a gate is still ahead |
| ShockProtocol.AcceptsExactly | src/alphaswarm/web/simulation_manager.py:300-316 | In every run the window is open exactly while seeding and in every round before the last, and a text is accepted exactly then, when none is waiting |
| ShockProtocol.NextGateExactly | src/alphaswarm/simulation.py:564-583 | The gate a text is dated with: that of the next round, of round 2 while seeding, and a gated round's own before its gate is passed |
| ShockProtocol.InvAfter | src/alphaswarm/web/simulation_manager.py:300-324 | The invariant behind these, over every interleaving of runner, injections and aborts |
| CycleMatching.MatchCycles | eval/run_eval.py:684-719 | In row fields alone: each returned (arm, event, seed) holds its last complete row of that arm, planned event and variant, sim_seed 2100 + seed, without a manifest problem; incomplete, orphans and each excluded reason count exactly the rows of that kind; matched + incomplete + orphans + duplicates + excluded = rows with a known tag |
| CycleMatching.IndexExactly | eval/run_eval.py:695-716 | Before the drift drop a key is held if and only if some row runs it, and by the last such row |
| CycleMatching.IndexIsNewest | eval/run_eval.py:684-719 | Before the drift drop each (arm, event, seed) holds its last valid row, and every valid row has its key held |
| CycleMatching.DropContextDrift | eval/run_eval.py:670-681 | Kept are exactly the runs whose block is the first most common one of their event and variant; kept + dropped = all |
| CycleMatching.OneBlockPerGroup | eval/run_eval.py:670-681 | Afterwards all runs of an event and variant share one block, at least as frequent as any dropped one, and no group loses all its runs |
| CycleMatching.FirstMaxIsMax | eval/run_eval.py:676-677 | most_common(1) is a most frequent block, the first of them to occur |
| CycleMatching.SurvivesExactly | eval/run_eval.py:670-681 | A run survives if and only if more runs of its event and variant carry its block than any other, or as many and one of them came first |
| PngChunks.IterChunks | scripts/strip_png_metadata.py:42-57 | The loop with its position computes the parse of the data, or its error |
| PngChunks.ParseExactly | scripts/strip_png_metadata.py:42-57 | A file parses to given chunks iff they end in their first IEND and the file starts with their print |
| PngChunks.PrintedImagesParse | scripts/strip_png_metadata.py:42-57 | Parsing undoes printing, whatever follows IEND |
| PngChunks.FailsExactly | scripts/strip_png_metadata.py:42-57 | Parsing fails iff the signature is missing or whole chunks without IEND are followed by a cut-off header or chunk |
| PngChunks.ErrorsAreExact | scripts/strip_png_metadata.py:42-57 | Which of the two errors it then is |
| PngChunks.StripKeepsExactly | scripts/strip_png_metadata.py:71-72 | The stripped file parses, to exactly the kept chunks, in order, byte for byte |
| PngChunks.StripTwice | scripts/strip_png_metadata.py:71-72 | Stripping is idempotent |
| PngLayout.LayoutParses | scripts/strip_png_metadata.py:42-57 | Fields written by hand, length most significant byte first, then type, data and CRC, parse to exactly those chunks, whatever follows IEND |
| PngLayout.ParsedIsLayout | scripts/strip_png_metadata.py:42-57 | Every file that parses has that form |
| PngLayout.StripsByName | scripts/strip_png_metadata.py:20-35 | Stripping leaves exactly the fields of the twelve named types, in order |
| PngLayout.MetadataGoes | scripts/strip_png_metadata.py:3-6 | Text, EXIF, time and vendor chunks are not among them |
| Interview.ConversationIsSound | src/alphaswarm/interview.py:260-309 | After any conversation with any failures: folded blocks followed by the window are the transcript (each pair folded at most once, none lost), the window holds whole pairs and exceeds 12 only by failed trims, the summary has at most 1500 characters |
| Interview.FoldsExactly | src/alphaswarm/interview.py:283-309 | A turn folds the oldest six pairs if and only if its answer makes more than twelve and the summary call answers; otherwise it touches no message and no summary |
| Interview.MergeKeepsNewest | src/alphaswarm/interview.py:303-306 | A merged summary is everything so far, or its last 1500 characters without the white space in front |
| Interview.InterviewEngine.AskOnce | src/alphaswarm/interview.py:260-281 | A failed chat changes nothing; otherwise the pair is kept even when the trim fails, and only a hard stop of the trim is raised |
| Interview.InterviewEngine.TrimWindow | src/alphaswarm/interview.py:283-309 | Both fields change together, and only after the summary succeeded |
| DocsBlocks.RoundTrip | scripts/docs_sync.py:182-199 | A replaced block reads back as the new body iff that body holds neither of the block's own markers |
| DocsBlocks.RestStays | scripts/docs_sync.py:197-199 | Replacing a block keeps every character before and behind its body |
| DocsBlocks.StripsBreaks | scripts/docs_sync.py:192-194 | `strip` takes line breaks from both ends and nothing else |
| DocsBlocks.MarkersRead | scripts/docs_sync.py:182-183 | The two markers, letter for letter |
| DocsBlocks.OtherMoves | scripts/docs_sync.py:197-199 | Replacing a block moves any other block as a whole and keeps its body |
| DocsBlocks.Sync | scripts/docs_sync.py:606-624 | The loop over all targets, with its cache of texts and its optional files, computes the fold of its step, or fails leaving every file as it was; with write exactly the files of a stale block change |
| DocsBlocks.SettlesExactly | scripts/docs_sync.py:606-624 | Over any number of files whose blocks stand side by side: sync with write succeeds and sync again finds nothing stale, if and only if every file that is not optional is there and no body holds a marker of its file |
| DocsBlocks.WriteThenCheck | scripts/docs_sync.py:606-624 | Then sync with write reports exactly the blocks that were out of date before it began |
| DocsBlocks.WrittenIsPassed | scripts/docs_sync.py:606-624 | Whatever the files and bodies, unless it fails sync leaves each file as the pass over its own blocks, however the targets of several files interleave |
| DocsBlocks.SpanExactly | scripts/docs_sync.py:182-189 | A span is found iff both markers stand exactly once and in order |
| DocsBlocks.CountOne | scripts/docs_sync.py:184-184 | A non-overlapping count of one means exactly one occurrence |

## Left out

- GovernorSystem.InvAt: the cancellation internals of asyncio are one step that ends the monitor; logs, metric emission, time-in-state totals and the transition probe change nothing that admission reads.
- GovernorClass.ResourceGovernor.TryAcquire: one pass of the loop between two awaits; waiting on the event is the Parked state of GovernorSystem.
- PeerRounds.BuildRoundContext: the hashing that seeds the generators is not modelled; draws are arbitrary.
- PeerRounds.ControlShare: for rosters where no id stands in two brackets, as the roster generator makes them.
- PeerSelection.SelectDiversePeers: keys are exact, so a float overflow of a key is not modelled; on a roster with a candidate in two brackets only eligibility, the limit and the guaranteed picks are stated, for the cap and the coverage then have no single meaning.
- PeerRendering.FormatPeerContext: the sanitizer is an arbitrary function from text to text.
- Gini.CitationGini: exact reals; float rounding is not modelled, here or in Ranks and Consensus.
- Flips.AllFlipCountsAgree: confidence deltas and bracket summaries are not modelled.
- Citations.FilterCitations: stripping and lower-casing is an arbitrary function on ids.
- Consensus.HeadcountsAgree: on rounds whose decided agents all have a persona; the other function has no roster to compare with. Entropy, dispersion and the lean are not modelled.
- StructuralSharing.AdaptSnapshot: plain data only, as buildFrame makes it; the order of object keys and the parsing in buildFrame are not modelled. buildFrame stamps `telemetry.ts` with `Date.now()`, so an unchanged wire frame is the previous frame only within one millisecond.
- StateStoreClass.StateStore.Snapshot: payloads the store never reads are strings, and the ten one-line setters share one method.
- StateStoreClass.StateStore.RecordDataSource: lower-casing is modelled as far as it can produce the ASCII letters of the three patterns.
- ShockProtocol.EveryShockLandsOnce: prompts, persistence of decisions and metrics between two steps of the runner are not modelled; a failure anywhere is the Abort action.
- CycleMatching.MatchCycles: reading a manifest is an arbitrary function of row and arm, and rumours are already normalized.
- Interview.ConversationIsSound: one turn is one step, as the session lock makes it; prompt texts are not modelled.
- DocsBlocks.WriteThenCheck: for names free of "<" and line breaks and files whose blocks neither overlap nor nest (so SettlesExactly); rendering the bodies and file access are not modelled.
- PngChunks.StripKeepsExactly: the CRC is carried along and, as in the source, never checked; `main` and its file access are not modelled.
- MemoryMonitor keeps its last pressure when a read fails; a reading is an input here, so nothing about that is stated.
- `reliability_bins`, `conformity_rate`, `_exposure_counts`, `base_index`, `score_forecaster` and `cluster_bootstrap` would add easier members of the kind already present.
- Persona generation, prompts, reports, providers, the graph database, web routes and the React front end beyond the adapter are plumbing, data or text.
