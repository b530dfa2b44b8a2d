# Nullius: a verified model of baselines, detection, response, delivery and failover

Nullius watches a host: an agent ships metrics and logs, a server detects attacks, blocks addresses,
trains an anomaly detector on a clean baseline, and fails over to a warm standby. This project models
the parts of that behaviour with the most state and arithmetic, and proves what they guarantee over
unbounded inputs and whole runs. `dafny verify dfyconfig.toml` checks all of it.

| file | what it models |
|---|---|
| `Sequences.dfy` | subsequences, Python's stable sort, filtering |
| `BaselineIntervals.dfy` | merging noise intervals, sweeping rows past them with a second pointer |
| `BaselineQuality.dfy` | quality gates, quality score, labels |
| `BaselineEvents.dfy` | events as noise windows, contamination of a row |
| `BaselineSelection.dfy` | the best-effort fallback |
| `BaselineDataset.dfy`, `BaselineTheorems.dfy` | the builder with its six exits, and what every dataset satisfies |
| `Detector.dfy`, `DetectorRuns.dfy` | the sliding-window detectors, and a history-keeping reference they refine |
| `SignalIntegration.dfy` | rule findings and the classifier's opinion merged into one event |
| `ResponsePolicy.dfy`, `ResponseServer.dfy` | stamp validation, decision, dedup, recording, blocking, expiry, retention |
| `ResponseRuns.dfy`, `BlockSpacing.dfy`, `Escalation.dfy` | runs of all that under the agent's and the server's clocks: how far apart blocks are, and when repetition escalates |
| `AgentBuffer.dfy`, `Delivery.dfy`, `DeliveryProtocol.dfy` | the agent's buffer, its sends and drain alone, and all of them interleaved |
| `CommandLimiter.dfy` | the agent's token bucket |
| `Deployment.dfy`, `Failover.dfy`, `Orchestrator.dfy` | the primary lock, the failover protocol, promotion pacing |
| `Risk.dfy` | the risk score |

## Conventions

- Floats are reals. `int(...)` truncates, `round(...)` rounds halves to even, exactly as Python does on
  exact values; what binary floating point adds to that is not modelled.
- Time is an integer parameter. The limiter and the orchestrator assume a nondecreasing clock. The detectors
  are treated for every clock. In the response path an event carries a stamp of the agent, up to a day old and
  five minutes ahead (server/ws/agent.py:230-238), while expiry and retention read the server's clock: its runs
  allow stamps to be late, and only the results that say so assume one clock for both.
- Code that updates objects in place is a class or a method with loops, proved equal to a function on
  values; the results about runs are then about that function.
- The text of a log line enters as the result of matching it: an address, or an address and a port.

## Findings

Places where the code does something its comments or documents do not say, or where a natural
expectation fails. The model follows the code.

- **Escalation of identical events can be switched off by accident, and dedup is easily sidestepped.**
  Dedup keeps recorded reviews with one and the same description more than `event_dedup_window` apart,
  whatever the clocks (`Escalation.ReviewsAreSpaced`), so counting `medium_escalation_threshold` identical
  events takes `(threshold - 2) * (dedup + 1)` seconds (a dedup window of 0 counts as 300). With the shipped
  300 s and 900 s, events with one description, handled in auto-defend or assist mode and stamped in the order
  of arrival, never escalate at a threshold of 5 or more. Three things sidestep dedup, which looks at the
  newest row only: a second description, such as the classifier's beside a rule's
  (`Escalation.BarrageEscalates`); a spell of observe mode, whose rows say "logged" and count all the same
  (`Escalation.ObserveEscalates`); and late stamps, because an old stamp moves the escalation window back while
  newer rows still count. The first two work within one instant at any threshold, the last one stretches
  the window by the lateness, at the server's tolerance by 86700 s, which makes 293 the last threshold that can
  be reached. The exact condition, from an event table without rows of the source, with `auto_block` on and
  auto-defend among the modes, is
  `Escalation.EscalationPossibleIff` for any lateness and `Escalation.ServerEscalationIff` for the server's
  clocks; `Escalation.ShippedWindows` evaluates both.
- **Blocks need not last when messages are late.** An expiry sweep goes by the server's clock, an event by its
  stamp. After a sweep past the end of a block, a late event stamped before that end blocks again. Blocks of an
  address are a block duration apart in all runs if and only if no such stamp follows such a sweep
  (`BlockSpacing.BlocksSpacedIff`). With validated stamps a block duration of a day promises a distance of one
  second, and no more (`BlockSpacing.LateBlocksAreSpaced`, `BlockSpacing.LateBlocksAttained`).
- **Detectors and a clock that steps back.** Hits carry wall-clock time. Pruning is unobservable if and
  only if no reading that has left the window of a later one ever comes back into the window of a still
  later one (`DetectorRuns.PruningUnobservableIff`). Nondecreasing clocks qualify, and so do many that
  step back; for every other clock some run alerts with full history and not with pruning.
- **The token bucket does not refill "proportionally to elapsed time"** (agent/ws/client.go:25-26). The
  fraction of a token is lost at every call; no whole token is lost if and only if the lost fractions
  add up to less than one (`CommandLimiter.RefillProportionalIff`), and calls less than a
  tenth of a second apart get no token back, ever (`CommandLimiter.RapidCallsStarve`).
- **The detector never raises a port scan to "high".** With a positive threshold an alert always reports
  exactly the threshold; the high branch needs a threshold of zero or less (`DetectorRuns.PortScanSeverity`).
  Only a classifier that agrees can make it high afterwards (`SignalIntegration.MergeLogDetection`).
- **The sweep needs ordered rows.** It equals the naive filter if and only if no covered row comes
  after a row past the covering interval's end (`BaselineIntervals.SweepExactIff`). The trainer
  orders its rows, so it always does there.
- **A lock probe is not passive.** It owns the lock for a moment, and a primary that starts in that
  moment refuses to run although no other primary exists (`Failover.ProbeCanRefuseStart`). A passed
  probe does not make a promotion the primary either (`Failover.PromotionsCanRace`). Neither breaks
  the at-most-one-primary guarantee.
- **Events only the classifier saw do not always go to review**, as the repository's README.md:169 has
  it. Such an event is marked for review exactly when a standby holds back its block, or when nothing blocks
  it, the mode is not observe and the confidence reaches 0.9 (`SignalIntegration.MlOnlyReviewedIff`).
  Otherwise an immediate type is blocked even at low severity, an escalatable one is blocked by repetition,
  and the rest is merely logged (`SignalIntegration.MlEventsNotAlwaysReviewed`). Either suppression may still
  drop it (`SignalIntegration.MlOnlyRecordedIff`).

## Model

| member | source | states |
|---|---|---|
| Sequences.SortCorrect | server/ml/baseline.py:274-276 | the list sort returns a sorted permutation of its input |
| Sequences.SortStable | server/ml/baseline.py:274-276 | rows that tie under the sort key keep their input order |
| BaselineIntervals.MergeIntervals | server/ml/baseline.py:379-390 | the loop that rewrites the last merged interval computes `Merge` |
| BaselineIntervals.MergeCorrect | server/ml/baseline.py:379-390 | the merged list is sorted, strictly disjoint, and covers the same integers, for any intervals at all |
| BaselineIntervals.FilterRowsOutsideIntervals | server/ml/baseline.py:359-376 | the two-pointer loop computes `Sweep` |
| BaselineIntervals.SweepExactIff | server/ml/baseline.py:366-376 | on disjoint intervals the sweep is the naive filter exactly when no row straggles behind a later one |
| BaselineIntervals.SweepKeepsOutside | server/ml/baseline.py:366-376 | in any row order the sweep drops covered rows only, and keeps order and multiplicity |
| BaselineIntervals.KeptIsOutside | server/ml/baseline.py:359-390 | for time-ordered rows, merge-then-sweep returns exactly the rows lying in none of the original intervals |
| BaselineIntervals.OutsideIsExact | server/ml/baseline.py:359-376 | the naive filter is a subsequence of the input with every uncovered row at full multiplicity and no covered one |
| BaselineIntervals.MergeCount | server/ml/baseline.py:379-390 | as many intervals are left as there are groups of overlapping ones, each starting where its group does |
| BaselineQuality.EffectiveQualityGates | server/ml/baseline.py:41-50 | at least 50 samples and at least one tolerated event are always demanded |
| BaselineQuality.StricterProfiles | server/ml/baseline.py:32-50 | a database host is never gated more loosely, a dev host never more strictly, than a generic one |
| BaselineQuality.ProfilesRanked | server/ml/baseline.py:32-50 | all five profiles are ranked: a stricter one never asks for fewer samples nor tolerates more events |
| BaselineQuality.ProfileExamples | server/ml/baseline.py:32-50 | a generic or unknown profile takes the settings as they are; what the other four make of 200 samples and 10 events |
| BaselineQuality.RoundHalfEvenIff | server/ml/baseline.py:48 | rounding gives the nearest integer, and the even one of two |
| BaselineQuality.RoundMicroIsClose | server/ml/baseline.py:297 | six digits are within half a millionth, and keep a difference of more than a millionth |
| BaselineQuality.QualityScore | server/ml/baseline.py:393-415 | the score lies in 0..100 |
| BaselineQuality.ClampIsIdle | server/ml/baseline.py:405-415 | on the builder's inputs the sum lies in 0..100 before clamping |
| BaselineQuality.QualityMonotone | server/ml/baseline.py:393-415 | more clean samples, less pressure or fewer maintenance commands never lower the score |
| BaselineQuality.QuietScore | server/ml/baseline.py:107-128 | a quiet window that lost nothing scores at least 83, and 83 is attained |
| BaselineQuality.CleanSamplesEarn | server/ml/baseline.py:405-413 | clean samples earn exactly 45 points for their share and 25 for their number up to the minimum |
| BaselineQuality.PressureCosts | server/ml/baseline.py:407-409 | pressure costs 20 points in proportion, all of them at three times the limit |
| BaselineQuality.MaintenanceCosts | server/ml/baseline.py:410-411 | every maintenance command costs two points, up to five of them |
| BaselineQuality.MarksWithoutSamples | server/ml/baseline.py:405-413 | what remains without a sample is 30 |
| BaselineEvents.BuildEventWindows | server/ml/baseline.py:300-333 | one window per event in order, reaching at least 30 s and of positive weight |
| BaselineEvents.BareEvent | server/ml/baseline.py:307-333 | a bare timestamp counts as a medium event without a type: nine tenths of the buffer, weight one |
| BaselineEvents.HeaviestAndLightest | server/ml/baseline.py:322-333 | the three factors multiply: the two ends of the scale |
| BaselineEvents.WorseSeverity | server/ml/baseline.py:434-440 | a worse severity is strictly heavier and reaches no less, whatever the type and action |
| BaselineEvents.HarsherAction | server/ml/baseline.py:454-459 | so is a block against a review, and a review against a logged event |
| BaselineEvents.HeavierType | server/ml/baseline.py:469-481 | the types ranked by weight |
| BaselineEvents.WiderType | server/ml/baseline.py:443-451 | the types ranked by reach |
| BaselineEvents.BareEventsAreCounted | server/ml/baseline.py:75 | the pressure of bare timestamps is their number |
| BaselineEvents.WeightAdds | server/ml/baseline.py:75 | the pressure adds up event by event |
| BaselineEvents.PressureNonNegative | server/ml/baseline.py:75 | the weighted event pressure is never negative |
| BaselineEvents.BuildEffectiveEventIntervals | server/ml/baseline.py:336-346 | the loop yields the merged intervals around all events for a fallback window |
| BaselineEvents.WiderCoversMore | server/ml/baseline.py:343-345 | a wider fallback window excludes at least what a narrower one does |
| BaselineEvents.RowContaminationScore | server/ml/baseline.py:280-297 | the loop computes the rounded contamination of a timestamp |
| BaselineEvents.ContaminationBounds | server/ml/baseline.py:287-297 | contamination is never negative, its sum never exceeds the total weight, and it is zero out of every window's reach |
| BaselineEvents.ContributionDecays | server/ml/baseline.py:295-296 | an event contributes its weight at distance zero, and in proportion to the distance less, down to nothing at the end of its buffer |
| BaselineEvents.NearerContributesMore | server/ml/baseline.py:291-296 | a nearer row never gets less, and strictly more while it is in reach |
| BaselineEvents.ContaminationAdds | server/ml/baseline.py:287-296 | contributions add up event by event |
| BaselineEvents.FartherIsCleaner | server/ml/baseline.py:280-297 | a row nowhere nearer to an event is no more contaminated, rounding included |
| BaselineSelection.BuildBestEffortRows | server/ml/baseline.py:257-277 | decorate, sort, cut, sort computes `BestEffort`: nothing if there are too few rows, else exactly the required number |
| BaselineSelection.SortDecorated | server/ml/baseline.py:266-274 | sorting the scored triples ranks the rows by score, then time |
| BaselineSelection.BestEffortIsOptimal | server/ml/baseline.py:257-277 | no selection of that size from the rows has a smaller total contamination |
| BaselineSelection.NothingBetterLeftBehind | server/ml/baseline.py:274-275 | every selected row has a smaller contamination than a row left behind, or the same one and no later timestamp |
| BaselineSelection.SelectedAreFarther | server/ml/baseline.py:257-297 | with one event, no selected row is nearer to it than a row left behind within its reach |
| BaselineSelection.BestEffortIsSubsequence | server/ml/baseline.py:274-277 | on time-ordered input the selection is a subsequence of it, equal timestamps included |
| BaselineSelection.BestEffortIsSelection | server/ml/baseline.py:263-277 | the selection has the required size, takes rows at most as often as they occur, and is in time order |
| BaselineDataset.TryFilterWindows | server/ml/baseline.py:136-177 | the loop stops at the first window that leaves enough rows, else ends with the best candidate |
| BaselineDataset.BuildBaselineDataset | server/ml/baseline.py:53-254 | each of the six separately written records agrees, in all seventeen fields, with the one description `Baseline` of what a dataset must report |
| BaselineDataset.FirstReaching | server/ml/baseline.py:140-158 | the cascade position found reaches the count and no earlier one does |
| BaselineTheorems.Accounting | server/ml/baseline.py:70-254 | on all exits clean and discarded add up to the total, and "ready" means exactly enough clean samples |
| BaselineTheorems.RowsWithinInput | server/ml/baseline.py:70-254 | in any row order, on all exits, returned rows occur at most as often as in the input |
| BaselineTheorems.RowsComeFromInput | server/ml/baseline.py:70-254 | on time-ordered input the returned rows are a time-ordered subsequence of it |
| BaselineTheorems.MaintenanceIff | server/ml/baseline.py:103-105 | the maintenance filter drops exactly the rows within the window of some maintenance command |
| BaselineTheorems.SurvivorIff | server/ml/baseline.py:336-376 | a filter window drops exactly the rows within 30 s of some event, or within both the window and the event's buffer |
| BaselineTheorems.CascadeRowsIff | server/ml/baseline.py:136-177 | on the cascade exit exactly the rows away from all maintenance and far from all events are returned |
| BaselineTheorems.BuffersFollowWidest | server/ml/baseline.py:71 | every buffer is a share of the widest filter window |
| BaselineTheorems.NoMaintenanceRow | server/ml/baseline.py:103-105 | no returned row lies within the maintenance window of any maintenance command |
| BaselineTheorems.NoNoisyRow | server/ml/baseline.py:141-177 | on the cascade exit every returned row is out of reach of every security event |
| BaselineTheorems.WiderLeavesFewer | server/ml/baseline.py:336-346 | survivors of a wider window are a subsequence of survivors of a narrower one |
| BaselineTheorems.CascadeIsStrictest | server/ml/baseline.py:136-177 | with descending windows the cascade returns the strictest window reaching the count |
| BaselineTheorems.BestIsNarrowest | server/ml/baseline.py:136-157 | the kept best rows are those of the narrowest window tried |
| BaselineTheorems.BestIsFirstMaximum | server/ml/baseline.py:140-157 | for windows in any order the kept best is the first of the highest score, then of the most rows |
| BaselineTheorems.BestHasMostRows | server/ml/baseline.py:140-157 | no window tried leaves more rows than the kept best |
| BaselineTheorems.FallbackReportsBestWindow | server/ml/baseline.py:188-205 | the fallback reports a filter window that leaves the most rows |
| BaselineTheorems.ReasonIff | server/ml/baseline.py:77-254 | which of the reasons is given, in terms of what the filters leave |
| BaselineTheorems.ShortExitKeepsNarrowest | server/ml/baseline.py:215-254 | the two short exits return the narrowest window's survivors, "poisoned" exactly when there are none |
| BaselineTheorems.QualityIsCoherent | server/ml/baseline.py:107-254 | the six records' labels are high from 80 and low below 55; reason "ready" forces at least 83 and label "high" |
| BaselineTheorems.ScoreIsOfTheRows | server/ml/baseline.py:107-254 | the score is that of the returned rows and the reported counts, 35 at least on the fallback, 0 on the two empty exits |
| BaselineTheorems.ExcludedAreGroups | server/ml/baseline.py:97-254 | the excluded windows are the groups of overlapping ones, of maintenance and of events |
| BaselineTheorems.NoiseIsCoherent | server/ml/baseline.py:107-213 | for ready datasets, noisy, pressure over the limit and a positive filter window are one and the same, the hard-coded exit included; clean means half the limit at most |
| BaselineTheorems.TrainerWindows | server/ml/trainer.py:144-152 | the trainer's windows are its four shares without repeats, strictly descending from the full buffer, none under 30 s |
| BaselineTheorems.TrainerExamples | server/ml/trainer.py:144-152 | the windows of a buffer of 300 s, and of the least one |
| Detector.AttemptTable.PruneStaleAttempts | server/security/detector.py:317-355 | the loop removes other addresses without a fresh hit, trims the rest, and leaves the current address alone |
| Detector.AttemptTable.Record | server/security/detector.py:103-105 | append, filter and prune leave the address its hits in the window |
| Detector.AttemptTable.DetectSshBruteforce | server/security/detector.py:89-118 | table and alert after one line, with the reset on alert |
| Detector.AttemptTable.DetectSshInvalidUser | server/security/detector.py:121-153 | table and alert after one line, nothing when disabled |
| Detector.AttemptTable.DetectWebLoginAbuse | server/security/detector.py:209-252 | table and alert after one login line, nothing when disabled |
| Detector.AttemptTable.DetectPortScan | server/security/detector.py:255-293 | table and alert after one firewall line, counting distinct ports |
| DetectorRuns.PruningUnobservableIff | server/security/detector.py:89-118 | for every clock and window: the pruning detector alerts on exactly the reference's lines, for any rule, threshold and addresses, if and only if the clock revives no hit |
| DetectorRuns.SameCount | server/security/detector.py:103-107 | without revivals each line counts exactly the hits the history-keeping reference counts |
| DetectorRuns.DetectorRefinesHistory | server/security/detector.py:89-118 | under a nondecreasing clock the pruning detector alerts on exactly the lines a history-keeping one does |
| DetectorRuns.TableMatchesHistory | server/security/detector.py:296-335 | without revivals table and full history agree on every hit a later line can count, for every address |
| DetectorRuns.StoredHitStayedFresh | server/security/detector.py:317-335 | a stored hit was in the window of every line since it came in |
| DetectorRuns.RevivalIsObservable | server/security/detector.py:296-297 | for every clock that revives a hit, a run on which the reference alerts and the detector does not |
| DetectorRuns.AlertsIff | server/security/detector.py:255-293 | without revivals a line alerts exactly when `threshold` lines of its address since its last alert lie in the window, for a port scan on pairwise different ports |
| DetectorRuns.OnePortIsNoScan | server/security/detector.py:280-281 | lines to one port alone never alert at a threshold of two or more, whatever the clock |
| DetectorRuns.AlwaysBelowThreshold | server/security/detector.py:278-285 | between lines every address measures less than the threshold |
| DetectorRuns.AlertIsExact | server/security/detector.py:280-293 | an alert is raised at exactly the threshold, never above |
| DetectorRuns.PortScanSeverity | server/security/detector.py:286-293 | "high" exactly for a threshold of zero or less; otherwise the reported count is the threshold |
| DetectorRuns.AlertsArePaidFor | server/security/detector.py:255-293 | threshold times alerts plus pending hits never exceeds the matching lines of an address |
| DetectorRuns.StoredMeansRecent | server/security/detector.py:317-335 | a stored address other than the current one was seen within the window |
| ResponsePolicy.DecideResponse | server/security/responder.py:40-175 | exactly when an event is blocked, which address, when it may be reviewed or only logged |
| ResponsePolicy.FirstSightBlocksIff | server/security/responder.py:107-120 | at low severity exactly three types are blocked, on first sight |
| ResponsePolicy.RepetitionBlocksIff | server/security/responder.py:121-139 | at medium severity exactly six more are, from the threshold on; the rest is reviewed |
| ResponsePolicy.ReasonsTell | server/security/responder.py:56-175 | when each of seven reasons is given |
| ResponseServer.ValidateTimestamp | server/ws/agent.py:230-238 | the stamp lies within a day before and five minutes after the server's clock, and is the agent's whenever that one does |
| ResponseServer.LatestSince | server/ws/agent.py:86-108 | the duplicate row is the newest matching one in the dedup window |
| ResponseServer.LatestIsNewest | server/ws/agent.py:86-108 | it has the largest timestamp, and the largest row id among those |
| ResponseServer.FollowupIff | server/ws/agent.py:120-128 | an event is dropped as a follow-up exactly when it is a port scan from an address with a block row |
| ResponseServer.DuplicateIff | server/ws/agent.py:131-144 | otherwise it is dropped exactly when the newest row of its source in the window has its action and description |
| ResponseServer.AnonymousIsRecorded | server/ws/agent.py:46-53 | an event without an address is never dropped and never blocked |
| ResponseServer.CooldownHolds | server/ws/agent.py:76-84 | nothing is blocked before a timed block ends, nor within the cooldown of a permanent one |
| ResponseServer.Server.LoadResponseContext | server/ws/agent.py:44-117 | count, cooldown, block and duplicate as the tables have them |
| ResponseServer.Server.HandleLog | server/ws/agent.py:355-476 | outcome and both tables after one event, standby and both suppressions included |
| ResponseServer.Server.ExpireBlockedIps | server/tasks/expiry.py:7-28 | exactly the blocks past their expiry are removed and returned |
| ResponseServer.Server.CleanupOldEvents | server/tasks/retention.py:8-35 | events older than ninety days are gone, all others stay as often as they were there and in order, the block table is untouched |
| ResponseServer.KeptEventsExact | server/tasks/retention.py:12-31 | a kept event is never older than the cutoff, and every younger one is kept at full multiplicity |
| ResponseServer.KeptEventsInOrder | server/tasks/retention.py:12-31 | the kept events are a subsequence of the old table |
| SignalIntegration.MergeLogDetection | server/security/integration.py:6-45 | when an event results, whose type and address it carries, and what a classifier-only event says |
| SignalIntegration.ConfirmationRaises | server/security/integration.py:20-68 | agreement of a strong classifier raises the severity one step, up to critical; otherwise the finding is kept as it is |
| SignalIntegration.ConfirmationNeverWeakens | server/security/integration.py:14-37 | whatever the classifier says, a rule's finding is never answered more weakly than alone |
| SignalIntegration.MlOnlyReviewedIff | server/ws/agent.py:356-379 | exactly when an event only the classifier saw is marked for review, standby included, and exactly when it is blocked |
| SignalIntegration.MlOnlyRecordedIff | server/ws/agent.py:412-451 | exactly when it is recorded for review, both suppressions included |
| SignalIntegration.MlEventsNotAlwaysReviewed | server/security/responder.py:107-175 | one such event blocked at low severity, one only logged, one blocked by repetition |
| ResponseRuns.ServerClockIff | server/ws/agent.py:230-238 | a server clock that explains all stamps and sweeps exists exactly when no step must come later than a following one can |
| ResponseRuns.BlockedScansLeaveNoRow | server/ws/agent.py:412-428 | while an address has a block row no port scan of it is recorded, over any run |
| BlockSpacing.BlockLasts | server/ws/agent.py:468-472 | after a block, whatever the clocks, the row of it or of a later block is there, or a sweep past that row's expiry took it |
| BlockSpacing.BlocksSpacedIff | server/tasks/expiry.py:7-28 | for any stamps and sweeps: automatic blocks are the block duration apart in all runs if and only if no stamp before a block's end follows a sweep past it (or, which takes a negative duration, a renewal that ends sooner) |
| BlockSpacing.NoReturnSpaces | server/ws/agent.py:72-84 | the forward half, for one run in any modes and roles |
| BlockSpacing.ReturnIsObservable | server/tasks/expiry.py:14-26 | a run with two blocks too close for every stamp that does |
| BlockSpacing.AutoBlocksAreSpaced | server/ws/agent.py:72-84 | under one clock two automatic blocks of an address are at least the block duration apart |
| BlockSpacing.BlockOutlastsDuration | server/ws/agent.py:468-472 | under one clock a block's row expires no sooner than due, or is gone only past that time |
| BlockSpacing.LateBlocksAreSpaced | server/ws/agent.py:230-238 | with validated stamps blocks are at least the block duration less 86399 s apart |
| BlockSpacing.LateBlocksAttained | server/ws/agent.py:230-238 | and a run in which they are no further apart |
| Escalation.ReviewsAreSpaced | server/ws/agent.py:131-144 | whatever the clocks, until the first block each recorded review of identical events is stamped past the dedup window of all before it |
| Escalation.RetentionKeepsSpacing | server/tasks/retention.py:8-35 | deleting old events does not disturb that spacing |
| Escalation.EscalationTakesTime | server/security/responder.py:121-139 | for identical events in acting modes, the first escalation block comes (threshold - 2) gaps, less the lateness, after the oldest event it counts |
| Escalation.NeverEscalates | server/security/responder.py:121-139 | if that delay exceeds the escalation window and the lateness, no such run escalates |
| Escalation.VolleyEscalates | server/ws/agent.py:355-472 | otherwise a run of identical events escalates, as early as the lateness allows |
| Escalation.BarrageEscalates | server/ws/agent.py:131-144 | two alternating descriptions escalate at any threshold within one instant |
| Escalation.ObserveEscalates | server/ws/agent.py:131-144 | identical events do too while the mode alternates between auto-defend and observe |
| Escalation.NegativeWindowNeverEscalates | server/ws/agent.py:61-70 | with an escalation window negative beyond the lateness no medium events escalate, whatever their descriptions and modes |
| Escalation.EscalationPossibleIff | server/ws/agent.py:61-108 | for any settings, descriptions, modes and lateness: the events can be escalated if and only if blocking is on, auto-defend is among the modes, and for thresholds from 2 the window and the lateness hold the dedup delay, which is zero with a second description or observe mode |
| Escalation.ServerEscalationIff | server/ws/agent.py:230-238 | under the server's clocks the same with a lateness of 86700 s |
| Escalation.ShippedWindows | server/nullius.yaml:53-56 | with blocking on and the shipped windows: thresholds up to 4 without late stamps, up to 293 with them, any with a second description or observe mode |
| Escalation.ZeroDedupIsFiveMinutes | server/ws/agent.py:86 | a dedup window of zero is taken for 300 s |
| AgentBuffer.PushAllKeepsLast | agent/buffer/ring.go:27-42 | any pushes leave the last `capacity` messages |
| AgentBuffer.RingBuffer.Push | agent/buffer/ring.go:28-42 | the ring holds the last `capacity` messages pushed since the last drain |
| AgentBuffer.RingBuffer.DrainAll | agent/buffer/ring.go:46-59 | returns them oldest first and empties the ring |
| AgentBuffer.RingBuffer.constructor | agent/buffer/ring.go:17-25 | a new ring of positive capacity is empty |
| Delivery.Client.Send | agent/ws/client.go:256-277 | an offline or failed send is buffered, a successful one written, only failure is reported, and it is a run of the interleaved protocol |
| Delivery.Client.FlushBuffer | agent/ws/client.go:154-167 | a drain failing at any point leaves written followed by buffered equal to what it was, and is a run of the interleaved protocol |
| Delivery.Client.Connect | agent/ws/client.go:108-167 | an accepted handshake connects and drains, a refused one changes no message |
| DeliveryProtocol.SendIsRun | agent/ws/client.go:256-277 | the steps of a send that nothing interrupts, and where they end |
| DeliveryProtocol.FlushIsRun | agent/ws/client.go:154-167 | the steps of a drain that nothing interrupts write up to the failure and put the rest back |
| DeliveryProtocol.StepKeepsLedger | agent/ws/client.go:154-277 | every step of sends and drain keeps the ledger |
| DeliveryProtocol.LedgerHolds | agent/ws/client.go:154-277 | after any interleaving each message is written, buffered, held by the drain, in a send or evicted as often as accepted |
| DeliveryProtocol.QuiescentLedger | agent/ws/client.go:154-277 | with nothing running it is written, buffered or evicted |
| DeliveryProtocol.NoLossWithinCapacity | agent/buffer/ring.go:36-40 | no interleaving evicts anything while no more messages were accepted than the ring holds |
| CommandLimiter.Limiter.CanExecuteCommand | agent/ws/client.go:27-42 | admission and bucket after one call |
| CommandLimiter.TokensStayInRange | agent/ws/client.go:32-40 | tokens stay in 0..10 |
| CommandLimiter.StretchBound | agent/ws/client.go:16-42 | any stretch of calls admits at most ten plus one per full tenth of a second it spans |
| CommandLimiter.FullAgainIff | agent/ws/client.go:31-40 | the bucket is full again exactly after a tenth of a second per missing token, and admits exactly with a token left or after a tenth of a second |
| CommandLimiter.BurstAfterSilence | agent/ws/client.go:27-42 | after a second of silence a rapid burst gets its first ten calls admitted |
| CommandLimiter.PacedCallsAdmitted | agent/ws/client.go:27-42 | calls a tenth of a second apart are all admitted, even from an empty bucket |
| CommandLimiter.RefillProportionalIff | agent/ws/client.go:31-36 | granted tokens and lost nanoseconds add up to the elapsed time; nothing is lost exactly when all gaps are whole, no whole token exactly when the lost fractions stay below one |
| CommandLimiter.RapidCallsStarve | agent/ws/client.go:31-36 | calls under a tenth of a second apart admit exactly the tokens at hand |
| Deployment.Node.ReleasePrimaryLock | server/deployment.py:25-37 | the node's own lock is given up, nobody else's |
| Deployment.Node.AcquirePrimaryLock | server/deployment.py:89-114 | succeeds exactly when the lock is free; a failure leaves owner and metadata alone |
| Deployment.Node.InitDeploymentRole | server/deployment.py:117-128 | an unknown role is refused, a standby holds no lock, a primary is initialised exactly when nobody else owns the lock |
| Deployment.Node.InspectPrimaryLock | server/deployment.py:53-86 | reports lock and owner, counts the node's own hold, and leaves the owner as it was |
| Failover.AtMostOnePrimary | deploy/nullius-promote-standby.sh:41-123 | over every interleaving, forced promotions included, at most one primary is initialised, it owns the lock and the metadata names its node |
| Failover.RefusedExactlyWhen | server/deployment.py:94-101 | a primary start is refused exactly when another live process owns the lock, a probe included |
| Failover.PromotionPassesIff | deploy/nullius-promote-standby.sh:82-92 | a promotion gets past its probe exactly when it is forced or nobody owns the lock |
| Failover.ReachablePromotionPassesIff | deploy/nullius-promote-standby.sh:82-92 | the same in every reachable world |
| Failover.LockKeepsRoles | deploy/nullius-promote-standby.sh:82-118 | while one process keeps the lock, no unforced step rewrites a role except for promotions underway |
| Failover.ForceIsDeliberate | deploy/nullius-failover-orchestrator.sh:138 | only an operator forces a promotion, no orchestrator does |
| Failover.UnforcedRunsRespectTheLock | deploy/nullius-promote-standby.sh:82-118 | in any run without a forced promotion, a kept lock keeps the role of every node that has no promotion past its probe |
| Failover.RestartStopsTheApi | deploy/nullius-promote-standby.sh:122-124 | a promotion stops the API of its own node and no other |
| Failover.StartIsRun | server/deployment.py:89-128 | the steps of a start that nothing interrupts: a standby passes, a primary takes a free lock and is refused a held one |
| Failover.StartNode | server/deployment.py:117-128 | initialising a fresh node does to the lock file what that run does to the protocol's lock and metadata |
| Failover.ProbeCanRefuseStart | server/deployment.py:67-77 | a run in which a mere probe turns a start away |
| Failover.PromotionsCanRace | deploy/nullius-promote-standby.sh:41-123 | a run in which two unforced promotions pass their probes and one node ends as primary |
| Orchestrator.FailoverOrchestrator.RunCheck | deploy/nullius-failover-orchestrator.sh:76-139 | verdict and persisted counters after one check |
| Orchestrator.CounterIsStreak | deploy/nullius-failover-orchestrator.sh:104-113 | the counter is the number of failed checks since the last healthy one, or since the first check |
| Orchestrator.PromotionNeedsStreak | deploy/nullius-failover-orchestrator.sh:111-138 | every attempt ends a whole streak of at least the threshold failed checks since the last healthy one, on a free lock |
| Orchestrator.PromotesIff | deploy/nullius-failover-orchestrator.sh:104-138 | a check promotes exactly when it ends a streak of at least the threshold failures, on a free lock, with the cooloff since every attempt over |
| Orchestrator.LastSeen | deploy/nullius-failover-orchestrator.sh:104-113 | success and failure are dated by the last check of their kind |
| Orchestrator.AttemptsAreSpaced | deploy/nullius-failover-orchestrator.sh:119-137 | two attempts are at least max(60, cooloff) seconds apart |
| Orchestrator.AttemptsPerPeriod | deploy/nullius-failover-orchestrator.sh:119-137 | a period makes at most one attempt plus one per full cooloff |
| Risk.GroupRecentEvents | server/api/risk.py:50-68 | the loop over the dictionary computes `Grouped` |
| Risk.GroupsSummarise | server/api/risk.py:50-68 | one group per type and address, with its number of events and worst severity |
| Risk.RepeatsAreSoft | server/api/risk.py:71-75 | equal events weigh their severity, and one point per repetition up to four |
| Risk.SeveritiesRanked | server/api/risk.py:14-20 | the known severities are strictly ranked above everything unknown |
| Risk.CalculateRiskScore | server/api/risk.py:78-140 | the score is the sum of the listed positive factors, capped at 100; which factors are listed, and the level of every score |
| Risk.ScoreOrderFree | server/api/risk.py:128-134 | any order of the recent events gives the same score, in 0..100 |
| Risk.ScoreGrowsWithEvents | server/api/risk.py:50-75 | one more event at any position never lowers the score |
| Risk.ScoreGrowsWithFailure | server/api/risk.py:104-114 | a stopped service that fails never lowers the score |
| Risk.ScoreGrowsWithSeverity | server/api/risk.py:66-75 | a worse severity of any recent event never lowers the score |
| Risk.ScoreGrowsWithAge | server/api/risk.py:116-126 | older metrics never lower the score, and missing ones least of all |
| Risk.StaleMetricsCost | server/api/risk.py:116-126 | metrics cost nothing for a minute, 10 points up to five minutes, 20 after that or when missing |
| Risk.OutagesCost | server/api/risk.py:94-102 | an outage of the API, the agent or the database costs 25 points each, below the cap |
| Risk.ServicesCost | server/api/risk.py:104-114 | failed services cost 10 each up to 30, else important stopped ones 3 each up to 10 |
| Risk.ServicesAddUp | server/api/risk.py:33-47 | both counts add up service by service |
| Risk.EventsCost | server/api/risk.py:128-132 | recent events cost what their groups weigh, up to 25 |
| Risk.SuffixIsIgnored | server/api/risk.py:32-46 | a unit's suffix does not matter to the list of allowed services |

## Left out

- WebSocket and HTTP handling, SQLite and its writer queue, systemd, iptables, procfs, nginx, the
  notification integrations and the web interface: queued writes are applied before the next step.
- Regular expressions, Isolation Forest, TF-IDF and LinearSVC: their results are inputs.
- Binary floating-point rounding in scores and weights.
- Row order in the builder: rows out of time order are modelled, but the subsequence and cascade results
  are stated for time-ordered rows, which the trainer's query returns.
- BaselineTheorems.ExcludedAreGroups: a negative maintenance window, whose intervals are inverted, and the count on the
  fallback and poisoned exits, which is that of the kept best.
- BaselineSelection.SelectedAreFarther: with a buffer of a million times the event's weight or more, six digits may tie
  neighbouring seconds, and the earlier row wins.
- The trainer's own status, which compares with the caller's sample minimum, not the adjusted one.
- The routing of log lines to detectors, and the stateless pattern detectors.
- Detector.AttemptTable.Record: the three timestamp lists and the port list are one type of hit list,
  with port 0 where no port is read.
- Failover.StartNode: a second initialisation in one process, which first gives up its own lock, is in the class only.
- Operator blocks and unblocks: with them automatic blocks need not be spaced, because a permanent
  block can be replaced by a timed one after the cooldown.
- ResponseServer.Server.ExpireBlockedIps: selection and deletion are one step; the source queues the
  deletion, so a block renewed in between could be lost.
- A missing security configuration, and surrounding blanks in addresses, labels and service names.
- Deployment.Node.InitDeploymentRole: the role text and node name arrive stripped, the role in lower case.
- The order of delivery across sends and drain: a fresh send may overtake buffered messages. The final
  drain on disconnect, which drops the rest after an error.
- AgentBuffer.RingBuffer.Push: messages are values, so the private copy the source makes is implicit.
- Partial socket writes: a write either succeeds or delivers nothing.
- Lock files on file systems without advisory locks, lock paths that differ between nodes, locks
  inherited by child processes, and removal of the lock file by hand.
- Failover.AtMostOnePrimary: backup, its verification, dry runs and the health check after a promotion
  can only end a promotion early, which a crash step covers.
- Orchestrator.FailoverOrchestrator.RunCheck: an unreadable state file, which resets the counters and
  with them the cooloff.
- Incident grouping, log filters, notification dedup and quiet hours, which repeat the grouping and
  pruning arguments.
