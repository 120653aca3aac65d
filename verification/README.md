# FiberScope: a verified model

FiberScope imports optical time-domain reflectometer traces, filters them, detects events, compares the
events of two traces, and leads the comparison through review. This project models the parts that carry
the promises of the backend and proves them with Dafny 4.11.

## What is modelled

**Signal pipeline** (`Denoise`, `Distance`, `Detection`). Truncated-window median filter, noise floor,
derivative peaks, peak merging, classification, distance conversion, and the rejection of events beyond the
end of the route. The methods keep the loops and the in-place sort of the source and are proved equal to
functions. What each function yields is also stated without it: on samples and their positions (`FilteredExactly`,
`NoiseFloorExactly`, `PeaksExact`), in metres (`SampleDistanceExactly`), and for whole events (`DetectedMeaning`).

**Comparison** (`Comparison`, `MatchingQuality`, `DifferenceLaws`, `EstimateDeterminism`,
`OrderIndependence`, `BaselineOrder`). Greedy one-to-one matching, the differences, the unstable sort, and the
fold that picks the primary difference. The sort is specified as some ordered permutation, so every statement
about its output holds for all of them. Matching and choice have descriptions of their own, without loop or
fold, each with one solution (`GreedyExactly`, `PrimaryUnique`).

**Case lifecycle** (`CaseLifecycle`, `CaseCommits`, `CaseInvariants`, `CaseRuns`, `CaseLease`, `CaseService`).
A state machine with one case row, its audit log, a clock, and any number of `Analyze` calls in flight. A
transaction is one atomic step; between two transactions of a call anything may happen, and a call may stop for
ever. `CaseService` holds the classes that change row and log in place; each method is proved to be the step of
the same name, and `CaseCommits` says of each step when it commits and what it then writes. A reading of the
clock may lie in the past by the time its transaction runs.

**Trace store** (`TraceStore`, `TraceInvariants`, `StoreRuns`, `StoreCommits`, `StoreLog`, `TraceService`).
Tables of routes, traces and markers; each import, detection and review reads first, query by query, and commits
later. The latest detection of a trace and the call that opened an analyzing period are history variables: the
program does not store them.

**End to end** (`EventLoading`, `EndToEnd`, `MarkerTies`, `StepTrace`). Store and case side by side. An analysis
loads its two event lists at two different moments, and re-detections and reviews may commit in between.
`MarkerTies` reaches markers at one distance by a run of the store on the small trace of `StepTrace`.

**Rate limiter** (`RateLimiter`, `RateBounds`). Keyed fixed windows with a lazy sweep, compared with a
specification that has one key and no sweep.

**Redaction** (`Redaction`, `RedactionWalk`). Scrubbing of JSON documents, as a function on trees and as the
walk that rewrites maps on the heap.

`Numbers`, `Counting`, `Sorting`, `RequestID` and `Wrappers` are shared.

## Conventions

- `float64` is `real`; `math.Round` is modelled, the rounding of intermediate results is not. Sample values
  lie in [-200, 100] where `Import` has admitted them.
- The sentinel `math.MaxFloat64` of the inner matching scan is "no match yet". The two differ only for
  distances that differ by that number.
- The ranges that request validation enforces (a conclusion of 10 to 2000 characters, a reviewed distance that
  is not negative) are taken as given. Error results say which guard failed, not the wording.
- `sort.Float64s` is modelled as an insertion sort in place; only its contract is used.
- `Confirm` reads the case before its transaction only to choose between error messages, so the step has no
  separate read.

## Where code and documentation differ

The model follows the code.

- The repository's README.md (line 112) asks for odd filter windows; the code widens even ones by one
  (`EvenWindowWidened`).
- Its line 114 asks for first differences above the threshold; the code accepts equality (`PeaksExact`).
- Its line 116 promises nearest one-to-one matching. The code is greedy in the order of the baseline: every
  event gets its nearest candidate exactly if no two events have the same one (`AllNearestExactly`). That is also
  exactly when the order of the baseline cannot matter (`OrderFreeExactly`). The matching can be half the maximum
  and no less (`MatchHalfOptimal`, `MatchHalfOptimalTight`), and it is the maximum when no two events have the
  same nearest candidate (`DistinctMatchMaximum`) or when the events of either list are more than twice the
  tolerance apart (`SpreadMatchMaximum`, `SpreadCurrentMaximum`).
- gb-522.md (line 26) asks for a deterministic pipeline. The unstable sort does no harm: all its outputs have
  the same estimate (`EstimateDeterministic`). Ties among the events that the database returns do. Report and
  estimate are independent of their order exactly if no matched event shares its distance with another event of
  its own list (`OneReportExactly`); distinct distances within each trace suffice
  (`DistinctDistancesDetermineReport`). A re-detection that reports an event where a reviewed marker lies makes
  such a tie (`DetectionTiesExactly`), and `LoadOrderMatters` reaches a table whose two loads have uncertainties
  of 8 and of 1 metre.
- gb-522.md (line 29) lets only reviewers confirm; the code, like the repository's README.md (line 118), also
  lets administrators (`ConfirmExactly`).
- gb-522.md (line 13) asks for human revision beside the algorithm's own values. Those values are kept
  (`ReviewedForever`). But a review that names no distance writes back the one it read, so it can undo a revision
  committed in between (`UnnamedDistanceExactly`, `RevisionLost`).
- The lease protects a running analysis by time only, since saving checks the status and not the version.
  `LeaseFencing` states the timing it needs, `LateSaveSteals` shows what happens without it.

## Model

| member | source | states |
|---|---|---|
| `Numbers.RoundHalfAwayExactly` | backend/internal/algorithm/detect.go:129 | `math.Round` yields n exactly on the unit interval around n, whose end nearer to zero belongs to it |
| `Numbers.Round3Nearest` | backend/internal/algorithm/detect.go:129 | `round` yields the nearest number of thousandths, halves away from zero |
| `Numbers.Round2Nearest` | backend/internal/algorithm/distance.go:22 | a distance is rounded to the nearest number of hundredths, halves away from zero |
| `Numbers.Round3Within` | backend/internal/algorithm/detect.go:129 | three-decimal rounding never leaves an interval whose end points have three decimals |
| `Sorting.SortFloats` | backend/internal/algorithm/denoise.go:29 | the in-place sort leaves an ordered permutation |
| `Sorting.SortedUnique` | backend/internal/algorithm/denoise.go:29 | over the reals an ordered permutation is unique, so the sort contract fixes the result |
| `Sorting.OrderStatistic` | backend/internal/algorithm/denoise.go:30-35 | position k of a sorted bucket is at most x exactly when more than k samples are |
| `Denoise.MedianInPlace` | backend/internal/algorithm/denoise.go:28-35 | sorting a bucket in place and taking its middle yields the median of what the bucket held, even lengths averaged |
| `Denoise.MovingMedian` | backend/internal/algorithm/denoise.go:8-38 | the loop over truncated windows returns the filter specification for windows of 1 to 31 on at least three samples, and otherwise the error of the first guard that fails |
| `Denoise.MedianExactly` | backend/internal/algorithm/denoise.go:30-35 | the median averages the two samples in the middle, which coincide for an odd number |
| `Denoise.FilteredExactly` | backend/internal/algorithm/denoise.go:15-36 | position by position: the filter averages the middle of the samples no further than half a window away, on both sides, as far as the trace reaches |
| `Denoise.FilterLocal` | backend/internal/algorithm/denoise.go:20-28 | samples further away than half a window do not matter |
| `Denoise.FilterMirrored` | backend/internal/algorithm/denoise.go:20-36 | the mirrored trace is filtered to the mirrored filtered trace, both cut ends included |
| `Denoise.MedianRobust` | backend/internal/algorithm/denoise.go:28-35 | fewer than half the samples outside an interval cannot move the median out of it |
| `Denoise.MedianBreaksDownAtHalf` | backend/internal/algorithm/denoise.go:28-35 | the bound is sharp: half the samples at or above any level drag the median at least half way to it |
| `Denoise.MedianMonotone` | backend/internal/algorithm/denoise.go:28-35 | raising samples never lowers the median |
| `Denoise.MedianPermutation` | backend/internal/algorithm/denoise.go:28-35 | the median does not depend on the order of the bucket |
| `Denoise.FilterRobust` | backend/internal/algorithm/denoise.go:15-36 | breakdown bound at every position: outliers at fewer than half of the positions no further than half a window away, truncated edges and even numbers included |
| `Denoise.FilterMonotone` | backend/internal/algorithm/denoise.go:15-36 | pointwise larger traces have pointwise larger filtered traces |
| `Denoise.FilterWithin` | backend/internal/algorithm/denoise.go:15-36 | the filter never leaves the range of the samples |
| `Denoise.FilterWindowOne` | backend/internal/algorithm/denoise.go:15-36 | window 1 is the identity |
| `Denoise.EvenWindowWidened` | backend/internal/algorithm/denoise.go:15-18 | an even window gives what the next odd window gives |
| `Denoise.FilterShift` | backend/internal/algorithm/denoise.go:15-36 | raising every sample by c raises every filtered sample by c |
| `Denoise.FilterKeepsOrder` | backend/internal/algorithm/denoise.go:15-36 | a non-decreasing trace stays non-decreasing, across truncated edges too |
| `Distance.RawDistanceLinear` | backend/internal/algorithm/distance.go:20-21 | before rounding the distance is the index times a positive constant |
| `Distance.MetresPerSampleMeaning` | backend/internal/algorithm/distance.go:8-21 | a sample is half of what light covers in one interval, at 0.299792458 metres a nanosecond over the refractive index |
| `Distance.SampleDistanceExactly` | backend/internal/algorithm/distance.go:10-23 | an index from 0 on, a positive interval and a refractive index of 1.3 to 1.7 are converted, to the number of hundredths of a metre nearest to where the sample lies; otherwise the first guard that fails decides the error |
| `Distance.LiesAtOnce` | backend/internal/algorithm/distance.go:20-22 | no other distance meets that description |
| `Distance.SampleDistanceMonotone` | backend/internal/algorithm/distance.go:10-23 | later samples are never nearer and never negative, rounding included |
| `Detection.EstimateNoiseFloor` | backend/internal/algorithm/detect.go:26-38 | the noise floor is the median of the tail; fewer than 16 samples are refused |
| `Detection.NoiseFloorExactly` | backend/internal/algorithm/detect.go:30-37 | the noise floor averages the two middle samples from position 4n/5 on |
| `Detection.NoiseFloorRobust` | backend/internal/algorithm/detect.go:30-37 | outliers at fewer than half of the positions from 4n/5 on cannot move the noise floor out of an interval |
| `Detection.NoiseFloorWithin` | backend/internal/algorithm/detect.go:30-37 | the noise floor lies in the range of the samples |
| `Detection.DerivativePeaks` | backend/internal/algorithm/detect.go:40-55 | the loop returns, in trace order, a peak for every step between neighbouring samples that reaches the threshold, with its size and sign |
| `Detection.PeaksExact` | backend/internal/algorithm/detect.go:48-53 | a peak is reported exactly at the positions whose first difference reaches the threshold, in trace order |
| `Detection.MergePeaks` | backend/internal/algorithm/detect.go:57-77 | the loop returns the merged peaks, or refuses a window below one |
| `Detection.MergedGroups` | backend/internal/algorithm/detect.go:64-76 | merging splits the peaks into contiguous groups and keeps the first strongest peak of each |
| `Detection.GroupingUnique` | backend/internal/algorithm/detect.go:64-76 | that reference description has one solution: whatever satisfies it is the merged list |
| `Detection.MergedSeparated` | backend/internal/algorithm/detect.go:64-76 | merged peaks are more than the window apart, come from the input and keep its order |
| `Detection.MergedIdempotent` | backend/internal/algorithm/detect.go:64-76 | merging twice is merging once |
| `Detection.MergedCount` | backend/internal/algorithm/detect.go:47-76 | a trace of n samples yields k merged peaks with (k-1)*(window+1) <= n-2 |
| `Detection.ClassifyPeak` | backend/internal/algorithm/detect.go:79-98 | the guard-by-guard overwriting computes the classification specification |
| `Detection.ClassifiedMeaning` | backend/internal/algorithm/detect.go:79-98 | loss is the drop of a falling step and zero for a rising one, reflectance the lower sample over the noise floor, confidence a half plus a tenth of the step in thresholds up to 0.99; the type is exactly determined by the signed step in units of the threshold, except in the last three samples |
| `Detection.ConfidenceBounds` | backend/internal/algorithm/detect.go:96-97 | a peak at or above the threshold has confidence in [0.6, 0.99] |
| `Detection.ClassifiedInRange` | backend/internal/algorithm/detect.go:79-98 | admitted samples give loss in [0, 300], reflectance in [-300, 300], confidence in [0.6, 0.99] |
| `Detection.PlacePeaks` | backend/internal/algorithm/detect.go:113-126 | the placing loop keeps, counts or fails on each peak as the specification says |
| `Detection.Detect` | backend/internal/algorithm/detect.go:100-127 | the stages in sequence return the detection specification, errors in source order |
| `Detection.DetectSucceedsExactly` | backend/internal/algorithm/detect.go:100-127 | detection succeeds exactly on 16 samples, positive threshold and merge window, and valid sampling if any step reaches the threshold; otherwise the first guard that fails decides the error |
| `Detection.DetectCutsSuffix` | backend/internal/algorithm/detect.go:113-126 | rejection cuts exactly a suffix of the merged peaks; kept plus rejected is their number; kept distances are non-decreasing within the route |
| `Detection.LongerRouteExtends` | backend/internal/algorithm/detect.go:119-122 | a longer route fails on the same inputs and only appends events |
| `Detection.DetectInRange` | backend/internal/algorithm/detect.go:100-127 | every event of an admitted trace is in range and on the route, whatever the parameters |
| `Detection.DetectedMeaning` | backend/internal/algorithm/detect.go:100-127 | every event describes a step of the trace that reaches the threshold, in loss, reflectance, type and confidence, and lies where that step does, to the nearest hundredth of a metre |
| `Detection.DetectShiftInvariant` | backend/internal/algorithm/detect.go:100-127 | adding a constant to every sample changes nothing that detection reports |
| `Detection.PipelineShiftInvariant` | backend/internal/service/event_service.go:53-65 | the same through the filter: reports depend on the shape of the raw trace only |
| `Comparison.FindNearest` | backend/internal/algorithm/compare.go:33-43 | the inner scan returns the first of the unused candidates closest in metres, within tolerance, or -1 if all unused ones are further away than the tolerance |
| `Comparison.CompareBases` | backend/internal/algorithm/compare.go:30-56 | the outer loop uses exactly the greedy matching and collects its entries in order |
| `Comparison.CompareBaseline` | backend/internal/algorithm/compare.go:23-71 | errors for non-positive parameters; otherwise a permutation of what was collected, by distance and then by the name of the kind |
| `Comparison.SortDifferences` | backend/internal/algorithm/compare.go:64-69 | an ordered permutation by distance, then kind; ties are left open |
| `Comparison.PrimaryDifference` | backend/internal/algorithm/compare.go:73-84 | the loop returns distance and uncertainty of the primary difference: the first loss increase that nothing later surpasses, or without one the first such difference that no loss increase follows; none exactly for no differences |
| `Comparison.EstimateExactly` | backend/internal/algorithm/compare.go:73-84 | the same of the fold specification |
| `Comparison.PrimaryUnique` | backend/internal/algorithm/compare.go:77-82 | that description, which does not fold, has one solution |
| `Comparison.NearestExact` | backend/internal/algorithm/compare.go:33-43 | the same of the specification, stated on the differences of the distances |
| `Comparison.NearestUnique` | backend/internal/algorithm/compare.go:33-43 | nothing else meets that description |
| `Comparison.GreedyExactly` | backend/internal/algorithm/compare.go:30-49 | a matching in which every event in turn has its nearest candidate of those left over is the matching of the comparison, and no other is |
| `MatchingQuality.MatchValid` | backend/internal/algorithm/compare.go:30-49 | the matching is one-to-one and within tolerance |
| `MatchingQuality.MatchNearest` | backend/internal/algorithm/compare.go:32-49 | no candidate untaken by earlier events is closer than the one an event got |
| `MatchingQuality.NearestUnlessTaken` | backend/internal/algorithm/compare.go:32-49 | step by step: an event gets its overall nearest candidate exactly if no earlier event took it |
| `MatchingQuality.AllNearestExactly` | backend/internal/algorithm/compare.go:30-56 | every event gets its overall nearest candidate in tolerance exactly if no two events have the same one |
| `MatchingQuality.MatchMaximal` | backend/internal/algorithm/compare.go:32-63 | no disappeared event and new event lie within tolerance of each other |
| `MatchingQuality.UsedSize` | backend/internal/algorithm/compare.go:49 | as many candidates are used as there are pairs |
| `MatchingQuality.MatchHalfOptimal` | backend/internal/algorithm/compare.go:30-56 | any other one-to-one matching within tolerance has at most twice as many pairs |
| `MatchingQuality.MatchHalfOptimalTight` | backend/internal/algorithm/compare.go:30-56 | the factor two is attained on lists sorted by distance |
| `MatchingQuality.SpreadMatchLocal` | backend/internal/algorithm/compare.go:32-49 | baseline events more than twice the tolerance apart each get their own nearest candidate |
| `MatchingQuality.DistinctMatchMaximum` | backend/internal/algorithm/compare.go:30-56 | if no two events have the same nearest candidate, the matching has maximum size |
| `MatchingQuality.SpreadMatchMaximum` | backend/internal/algorithm/compare.go:30-56 | so it has for baseline events more than twice the tolerance apart |
| `MatchingQuality.SpreadCurrentMaximum` | backend/internal/algorithm/compare.go:30-56 | and also for current events more than twice the tolerance apart |
| `MatchingQuality.DistinctOrderIndependent` | backend/internal/algorithm/compare.go:30-63 | if no two events have the same nearest candidate, every order of the baseline collects the same differences |
| `MatchingQuality.SpreadOrderIndependent` | backend/internal/algorithm/compare.go:30-70 | in particular for baseline events more than twice the tolerance apart, on the sorted output |
| `BaselineOrder.OrderFreeExactly` | backend/internal/algorithm/compare.go:30-63 | for given distances every order of the baseline has the same report, whatever ids, losses and confidences, exactly if no two baseline events have the same nearest candidate in tolerance |
| `BaselineOrder.BaselineOrderMatters` | backend/internal/algorithm/compare.go:32-49 | wherever two have, two orders of one baseline have different reports |
| `MatchingQuality.OneForTwo` | backend/internal/algorithm/compare.go:32-63 | one event and two candidates at one distance: the second candidate is reported as new |
| `MatchingQuality.SelfMatch` | backend/internal/algorithm/compare.go:32-49 | compared with itself a list matches every event with itself, repeated distances included |
| `MatchingQuality.SelfComparisonEmpty` | backend/internal/algorithm/compare.go:30-70 | comparing a list with itself reports nothing |
| `DifferenceLaws.ComparisonAccounts` | backend/internal/algorithm/compare.go:30-70 | disappeared plus matched is the baseline, new plus matched the current list, loss increases are at most the matched pairs |
| `DifferenceLaws.ComparisonReports` | backend/internal/algorithm/compare.go:44-63 | each identifier is reported disappeared or new as often as it belongs to an unpaired event |
| `DifferenceLaws.ReportedExactly` | backend/internal/algorithm/compare.go:44-63 | a difference is reported exactly when it describes, field by field, an unmatched event, a pair whose loss rose by the threshold, or an unmatched candidate |
| `DifferenceLaws.HigherThresholdReportsLess` | backend/internal/algorithm/compare.go:51-55 | raising the loss threshold removes loss increases only |
| `DifferenceLaws.PrimaryChoice` | backend/internal/algorithm/compare.go:77-82 | the choice is a difference at least as confident as the last loss increase and all after it; another kind only after the last loss increase |
| `DifferenceLaws.PrimaryIsLoss` | backend/internal/algorithm/compare.go:77-82 | a loss increase is chosen exactly if there is one and nothing after the last one is surer than the choice made there |
| `DifferenceLaws.PrimaryGrows` | backend/internal/algorithm/compare.go:77-82 | past the last loss increase the choice changes only by gaining confidence |
| `DifferenceLaws.PrimarySingleKind` | backend/internal/algorithm/compare.go:77-82 | with one kind present the choice is the first of maximal confidence |
| `DifferenceLaws.PrimaryMostConfidentExactly` | backend/internal/algorithm/compare.go:77-82 | the choice is the most confident difference exactly if top confidence is reached by a loss increase or after the last loss increase |
| `DifferenceLaws.PrimaryNotMostConfident` | backend/internal/algorithm/compare.go:77-82 | so it is not for any surer difference of another kind followed by a loss increase |
| `DifferenceLaws.ComparisonConfident` | backend/internal/algorithm/compare.go:46-62 | differences of events with confidence in [0.6, 0.99] have confidence in [0.54, 0.99] |
| `DifferenceLaws.EstimateRange` | backend/internal/algorithm/compare.go:73-84 | their estimate exists exactly if there are differences, and its uncertainty lies in [1, 9.2] |
| `EstimateDeterminism.TiedMovesUp` | backend/internal/algorithm/compare.go:77-82 | a difference may be looked at before tied ones that precede it |
| `EstimateDeterminism.EstimateDeterministic` | backend/internal/algorithm/compare.go:64-84 | the sort is unstable, yet every output it may give has the same estimate |
| `EstimateDeterminism.OutputsTied` | backend/internal/algorithm/compare.go:64-69 | all possible outputs agree on distance and kind at every position |
| `EstimateDeterminism.EstimateOfReport` | backend/internal/algorithm/compare.go:73-84 | equal multisets of differences, each sorted, have the same estimate |
| `OrderIndependence.MatchFromPlaces` | backend/internal/algorithm/compare.go:32-49 | which event is matched with which depends on the two lists of distances only |
| `OrderIndependence.AloneReportSame` | backend/internal/algorithm/compare.go:30-63 | if no matched event shares its distance with another event of its list, the report is the same for every order of ties |
| `OrderIndependence.OneReportExactly` | backend/internal/algorithm/compare.go:30-84 | for given distances neither the report nor the estimate ever depends on the order of ties, whatever ids, losses and confidences, exactly under that condition |
| `OrderIndependence.TiesEstimateTwice` | backend/internal/algorithm/compare.go:30-84 | wherever it fails, in the baseline or in the current list, two orders of ties have different estimates |
| `CaseService.CaseStore.constructor` | backend/internal/repository/case_repository.go:14 | the repository over given contents, empty or not |
| `CaseService.CaseStore.CreateCase` | backend/internal/repository/case_repository.go:16-21 | stores the inserted row |
| `CaseService.CaseStore.Transition` | backend/internal/repository/case_repository.go:53-64 | updates the row exactly if version and status match, and leaves it alone otherwise |
| `CaseService.CaseStore.SaveAnalysis` | backend/internal/repository/case_repository.go:66-77 | updates the row exactly if it is analyzing, whatever its version |
| `CaseService.CaseStore.RecoverStaleAnalysis` | backend/internal/repository/case_repository.go:81-89 | resets the row exactly if it is analyzing and was last touched before the cutoff |
| `CaseService.CaseStore.CreateAudit` | backend/internal/repository/audit_repository.go:14-22 | appends one entry, or refuses a blank request id and appends nothing |
| `CaseService.CaseStore.Finish` | backend/internal/service/case_service.go:211-216 | a transaction without its audit entry leaves row and log as they were |
| `CaseService.CompareEvents` | backend/internal/service/case_service.go:174-194 | fails exactly on a load error, an empty list or a non-positive parameter; otherwise a comparison |
| `CaseService.CaseService.constructor` | backend/internal/service/case_service.go:18-22 | the service over a given store, no call in flight |
| `CaseService.CaseService.Wait` | backend/internal/service/case_service.go:97 | time passing is the machine step of the same name |
| `CaseService.CaseService.CreateCase` | backend/internal/service/case_service.go:24-57 | `Create` is the machine step, defaults for zero parameters included |
| `CaseService.CaseService.AnalyzeRead` | backend/internal/service/case_service.go:85-118 | the first read and its status checks are the machine step |
| `CaseService.CaseService.AnalyzeRecover` | backend/internal/service/case_service.go:93-105 | the recovery transaction is the machine step |
| `CaseService.CaseService.AnalyzeReload` | backend/internal/service/case_service.go:106-118 | the reload after a recovery is the machine step |
| `CaseService.CaseService.AnalyzeStart` | backend/internal/service/case_service.go:119-128 | the start transaction is the machine step, stamped with the time its update was built |
| `CaseService.CaseService.AnalyzeCompare` | backend/internal/service/case_service.go:129-144 | comparing under request, stored or default parameters is the machine step |
| `CaseService.CaseService.AnalyzeSave` | backend/internal/service/case_service.go:145-170 | both ways of saving are the machine step |
| `CaseService.CaseService.AnalyzeCrash` | backend/internal/service/case_service.go:85-172 | a call that stops for ever leaves row and log alone |
| `CaseService.CaseService.ConfirmCase` | backend/internal/service/case_service.go:196-221 | `Confirm` is the machine step |
| `CaseService.CaseService.CloseCase` | backend/internal/service/case_service.go:223-242 | `Close` is the machine step |
| `CaseInvariants.StepCommitsOnce` | backend/internal/service/case_service.go:85-242 | every step leaves row and log alone, or commits one transition along the status table with one entry and one version |
| `CaseInvariants.RunKeepsInv` | backend/internal/service/case_service.go:24-242 | the invariant holds along every interleaving |
| `CaseInvariants.ReplayConserves` | backend/internal/constants/case.go:13-26 | a log that replays along the status table balances: starts are failures plus recoveries plus completions plus one if open |
| `CaseInvariants.ReachableCase` | backend/internal/repository/case_repository.go:53-89 | reachable: one entry per version, the log replays to the stored status and balances, the columns agree with the status, and stored parameters are never zero |
| `CaseInvariants.VersionParity` | backend/internal/repository/case_repository.go:53-89 | the parity of the version is a function of the status |
| `CaseRuns.CommittedVersions` | backend/internal/repository/case_repository.go:53-89 | committed rows carry consecutive versions in every run |
| `CaseRuns.VersionsFromOne` | backend/internal/service/case_service.go:46 | from an empty database these are 1, 2, 3, ... |
| `CaseRuns.LastCommitted` | backend/internal/repository/case_repository.go:53-89 | the stored row is the last one committed |
| `CaseRuns.AuditsAppendOnly` | backend/internal/repository/audit_repository.go:14-22 | the log only grows |
| `CaseRuns.SingleWinner` | backend/internal/repository/case_repository.go:53-64 | of any number of requests carrying one version at most one commits |
| `CaseRuns.ResultsFrozen` | backend/internal/repository/case_repository.go:66-77 | once an analysis is stored no late call changes differences or parameters, and the case never moves back |
| `CaseRuns.ClosedForever` | backend/internal/service/case_service.go:113-115 | a closed case and its log never change again |
| `CaseRuns.ConclusionFrozen` | backend/internal/service/case_service.go:211-237 | conclusion, reviewer and confirmed estimate survive closing |
| `CaseRuns.EnteredOnce` | backend/internal/constants/case.go:13-19 | completion, confirmation and closing happen at most once, in that order |
| `CaseCommits.CreateExactly` | backend/internal/service/case_service.go:24-57 | a case is created exactly from two different traces that belong to the route, as a draft with the requested parameters, or 25 m and 0.5 dB |
| `CaseCommits.BeginExactly` | backend/internal/service/case_service.go:85-118 | a call goes on exactly if it finds a draft or an analysis it may try to recover |
| `CaseCommits.RecoverExactly` | backend/internal/repository/case_repository.go:81-89 | an analysis is recovered exactly if it was last touched more than ten minutes before the time read; status, message, version and time stamp change |
| `CaseCommits.ReloadExactly` | backend/internal/service/case_service.go:106-118 | after a recovery the call goes on exactly if it finds a draft |
| `CaseCommits.StartExactly` | backend/internal/service/case_service.go:119-128 | an analysis starts exactly on the draft, and the version of it, that was read |
| `CaseCommits.SaveExactly` | backend/internal/service/case_service.go:145-170 | a success is saved exactly while the case is being analyzed: differences, parameters chosen from the request and the case as read, estimate of the primary difference, and nothing else |
| `CaseCommits.SaveFailureExactly` | backend/internal/service/case_service.go:145-152 | so is a failure, as a draft with its message |
| `CaseCommits.ConfirmExactly` | backend/internal/service/case_service.go:196-216 | a confirmation commits exactly for a reviewer or administrator with a valid request on the awaited version of a pending case, and writes the requested conclusion and estimate and nothing else |
| `CaseCommits.CloseExactly` | backend/internal/service/case_service.go:223-237 | closing commits exactly on the awaited version of a confirmed case, and stamps the time that was read |
| `CaseCommits.StoredParameters` | backend/internal/service/case_service.go:38-46 | in every run the stored parameters are those of the request that created the case; once there is a report, those that some request to analyze it asked for, one by one falling back on the former |
| `CaseInvariants.StoredEstimateExactly` | backend/internal/service/case_service.go:156-161 | pending review: the stored distance and uncertainty are those of the primary difference of the stored differences |
| `CaseLifecycle.TransitionsExactly` | backend/internal/constants/case.go:13-26 | the five edges of the status table |
| `CaseLifecycle.EffectiveExactly` | backend/internal/service/case_service.go:129-143 | a non-zero requested parameter wins over a non-zero stored one, and that over 25 m or 0.5 dB, for each parameter on its own |
| `CaseService.ChooseParameters` | backend/internal/service/case_service.go:129-143 | the cascade of zero tests does the same |
| `CaseLease.SaveBelongs` | backend/internal/repository/case_repository.go:66-77 | the saving call opened the current period exactly if nothing committed since its start; it commits exactly if the case is analyzing |
| `CaseLease.LeaseFencing` | backend/internal/service/case_service.go:93-170 | if every save is within ten minutes of the time stamp of its own start, a timely save commits and belongs to the call that opened the period |
| `CaseLease.RecoverySparesTheLiving` | backend/internal/service/case_service.go:93-105 | recovery never takes the period of a call younger than ten minutes, timely run or not |
| `CaseLease.StaleCaseRestarts` | backend/internal/service/case_service.go:93-128 | a case whose worker died can be taken over after the timeout |
| `CaseLease.LateSaveLocksOut` | backend/internal/repository/case_repository.go:66-77 | a save by a call that lost its period is stored, and the period owner is then refused |
| `CaseLease.LateSaveSteals` | backend/internal/service/case_service.go:93-170 | without the timing hypothesis fencing fails: a concrete run for all callers and requests |
| `TraceService.PrepareImport` | backend/internal/service/trace_service.go:25-68 | validation, defaults, filter, noise and coverage check decide as specified, first failing guard first |
| `TraceInvariants.ImportAcceptsExactly` | backend/internal/service/trace_service.go:25-68 | the exact condition under which an import is accepted |
| `TraceInvariants.ImportRefusedFirst` | backend/internal/service/trace_service.go:26-42 | too many samples, then the first sample outside the range, then an unknown route refuse an import |
| `TraceInvariants.CoversExactly` | backend/internal/service/trace_service.go:61-67 | coverage is asked of the distance to which the last sample converts |
| `TraceService.PrepareDetection` | backend/internal/service/event_service.go:31-65 | defaults and the three algorithm calls produce the specified detection or none; each requested parameter wins over the stored one, and that over 5, 0.8 dB and 3 |
| `StoreCommits.DetectionExactly` | backend/internal/service/event_service.go:31-65 | a detection goes through exactly on 16 samples and admissible chosen parameters, and, if a step of the filtered trace reaches the threshold, valid sampling; it yields filter, noise floor and events under those parameters |
| `StoreCommits.DetectionWrites` | backend/internal/service/event_service.go:19-87 | whatever is committed meanwhile, a detection writes what it computed from the trace as it read it, its parameters included, replaces the markers of that trace, and logs one entry |
| `StoreCommits.ImportWrites` | backend/internal/service/trace_service.go:44-77 | whatever is committed meanwhile, an import adds the trace it was sent, defaults for parameters that were not, and logs one entry |
| `TraceService.BuildMarkers` | backend/internal/service/event_service.go:66-69 | one unreviewed marker per event, in order, algorithm columns set from the event |
| `TraceService.TraceService.constructor` | backend/internal/service/trace_service.go:16-23 | the service over given tables, no call in flight |
| `TraceService.TraceService.SaveRoute` | backend/internal/model/fiber_route.go:9-10 | routes outside the ranges the table enforces are refused |
| `TraceService.TraceService.BeginImport` | backend/internal/service/trace_service.go:25-71 | the read half of `Import` is the machine step |
| `TraceService.TraceService.BeginDetect` | backend/internal/service/event_service.go:19-26 | the first read of `Detect`, the trace, is the machine step |
| `TraceService.TraceService.ContinueDetect` | backend/internal/service/event_service.go:27-70 | the second read, the route, and the computation are the machine step |
| `TraceService.TraceService.BeginReview` | backend/internal/service/event_service.go:98-108 | the first read of `Review`, the marker, is the machine step |
| `TraceService.TraceService.ReadReviewTrace` | backend/internal/service/event_service.go:109-112 | the second read, its trace, is the machine step |
| `TraceService.TraceService.ReadReviewRoute` | backend/internal/service/event_service.go:113-129 | the third read, the route, and the check against its length are the machine step |
| `TraceService.TraceService.CreateTrace` | backend/internal/repository/trace_repository.go:15-20 | stores the trace under a fresh id |
| `TraceService.TraceService.UpdateProcessing` | backend/internal/repository/trace_repository.go:55-64 | rewrites the derived columns of an existing trace and nothing else |
| `TraceService.TraceService.ReplaceForTrace` | backend/internal/repository/event_repository.go:14-25 | deletes the unreviewed markers of the trace, then inserts the new ones under fresh ids |
| `TraceService.TraceService.StoreReview` | backend/internal/repository/event_repository.go:71-80 | writes the human columns of an existing marker and nothing else |
| `TraceService.TraceService.FinishTransaction` | backend/internal/repository/audit_repository.go:14-22 | an accepted audit entry, or all tables back to what they were |
| `TraceService.TraceService.CommitCall` | backend/internal/service/event_service.go:71-82 | the transaction of each kind of call is the machine step |
| `TraceService.TraceService.AbandonCall` | backend/internal/service/event_service.go:19-87 | a call that never commits changes no table |
| `TraceInvariants.ReplaceExact` | backend/internal/repository/event_repository.go:14-25 | the markers table after replacement, entry by entry: what is inserted, what survives, what goes |
| `TraceInvariants.StepKeepsStore` | backend/internal/service/event_service.go:19-140 | every step keeps derived data in agreement, with any commit between two reads of one call |
| `TraceInvariants.RunKeepsStore` | backend/internal/service/event_service.go:19-140 | so does every interleaving of imports, re-detections and reviews |
| `TraceInvariants.DerivedDataAgrees` | backend/internal/service/trace_service.go:53-77 | reachable: processed samples are the filtered raw samples under the stored window, the noise floor is theirs, all in range |
| `TraceInvariants.LatestDetectionReplays` | backend/internal/service/event_service.go:56-82 | re-running detection on what is stored, with the route last read, gives the algorithm columns of the markers it inserted, reviewed since or not; unreviewed markers are among them |
| `TraceInvariants.UndetectedHasNone` | backend/internal/repository/event_repository.go:14-25 | a trace that was never detected has no markers |
| `TraceInvariants.StoredMarkersInRange` | backend/internal/service/event_service.go:66-69 | every stored marker, reviewed or not, is in range |
| `TraceInvariants.RawImmutable` | backend/internal/repository/trace_repository.go:55-64 | raw samples, route and interval of a trace never change |
| `TraceInvariants.ReviewedForever` | backend/internal/repository/event_repository.go:14-17 | a reviewed marker survives every re-detection and keeps what the algorithm first said |
| `StoreRuns.ReviewWrites` | backend/internal/service/event_service.go:102-140 | whatever is committed meanwhile, a review writes the requested type, note and reviewer and the distance it names, or else the one it read, and logs one entry; nothing else changes |
| `StoreRuns.ReviewRefusedExactly` | backend/internal/service/event_service.go:113-123 | a review is refused exactly if that distance exceeds the length of the route as read |
| `StoreRuns.UnnamedDistanceExactly` | backend/internal/service/event_service.go:102-132 | a review that names no distance stores the distance it read; it leaves the stored one alone exactly if that is still the same |
| `StoreRuns.RevisionLost` | backend/internal/service/event_service.go:102-132 | so for every marker and admissible distance there is a run in which a committed revision is undone by a review that named none |
| `StoreRuns.DetectCallRuns` | backend/internal/service/event_service.go:19-87 | an undisturbed detection commits what it computes from the trace and route of the moment |
| `StoreRuns.ReviewCallRuns` | backend/internal/service/event_service.go:98-140 | an undisturbed review commits the marker it wants to store |
| `StoreLog.LogAgrees` | backend/internal/repository/audit_repository.go:14-22 | reachable: one import entry per trace number, a trace was detected exactly if a detection of it is logged, a marker is reviewed exactly if a review of it is logged, and every entry has a request id |
| `RequestID.BlankExactly` | backend/internal/repository/audit_repository.go:15 | an id counts as missing exactly if trimming its white space leaves nothing |
| `RequestID.SpacesExactly` | backend/internal/repository/audit_repository.go:15 | white space is the 25 characters that Unicode calls so |
| `EventLoading.ForTrace` | backend/internal/repository/event_repository.go:63-69 | the markers of the trace, each once, by distance |
| `EventLoading.LoadedSame` | backend/internal/repository/event_repository.go:63-69 | two loads of one table hold the same events and show the same distance at every position |
| `EventLoading.AnyOrderLoaded` | backend/internal/repository/event_repository.go:63-69 | and every arrangement that the sort by distance cannot tell apart may be loaded |
| `EventLoading.LoadsDetermineReport` | backend/internal/service/case_service.go:174-194 | if no matched event shares its distance with another of its own trace, the tables determine report and estimate |
| `EventLoading.DistinctDistancesDetermineReport` | backend/internal/service/case_service.go:174-194 | in particular if the markers of each trace lie at distinct distances |
| `MarkerTies.DetectionTiesExactly` | backend/internal/repository/event_repository.go:14-25 | a committed detection leaves distinct distances on its trace exactly if its events and the reviewed markers have them and no event is reported where a reviewed marker lies |
| `MarkerTies.TieRunReaches` | backend/internal/service/event_service.go:19-140 | importing, detecting, confirming and detecting again reaches a table with two markers of one trace at one distance |
| `MarkerTies.LoadOrderMatters` | backend/internal/service/case_service.go:174-194 | of that reachable table two possible loads have different reports, and uncertainties of 8 and of 1 metre |
| `EventLoading.LoadedInRange` | backend/internal/service/case_service.go:186-192 | loaded events of a sound table have confidence and loss in range |
| `EndToEnd.JointProjects` | backend/internal/service/case_service.go:174-194 | a run of the joint machine is a run of the store and a run of the case |
| `EndToEnd.ReportSupported` | backend/internal/service/case_service.go:119-167 | a stored report was saved by one call that, between its start and that save, loaded first the baseline and then the current markers the store then held; it compares the two, both non-empty, under the stored parameters, which are chosen from the request and the case as that call read it |
| `EndToEnd.UncertaintyInRange` | backend/internal/service/case_service.go:156-161 | pending review: an estimate exactly if there are differences, uncertainty in [1, 9.2], confidences in [0.54, 0.99] |
| `EndToEnd.StoredEstimateDetermined` | backend/internal/service/case_service.go:156-161 | the stored estimate is determined by the loaded lists and the stored parameters, whatever the sort does with ties |
| `EndToEnd.StoredReportDetermined` | backend/internal/service/case_service.go:144-161 | and, if no matched event shared its distance, by the tables at the two moments: loading and comparing again gives the stored report and estimate |
| `EndToEnd.CaseTracesBelong` | backend/internal/service/case_service.go:24-37 | both traces of a case exist, differ and lie on its route, for ever |
| `RateLimiter.RateLimiter.constructor` | backend/internal/middleware/middleware.go:94-96 | an empty table, last swept now |
| `RateLimiter.RateLimiter.Allow` | backend/internal/middleware/middleware.go:98-119 | decision and new table are those of the specification |
| `RateLimiter.KeyTransparent` | backend/internal/middleware/middleware.go:101-118 | for non-decreasing times the decisions for a key are those of a limiter that sees that key only, from any table that represents it |
| `RateLimiter.FreshKeyTransparent` | backend/internal/middleware/middleware.go:94-118 | in particular from a new limiter |
| `RateLimiter.SweepInvisible` | backend/internal/middleware/middleware.go:101-108 | for non-decreasing times every decision is that of a limiter that never sweeps |
| `RateLimiter.SweepExactly` | backend/internal/middleware/middleware.go:101-108 | a call drops another key exactly if its window has ended and the last sweep is more than a window ago |
| `RateBounds.IntervalBound` | backend/internal/middleware/middleware.go:98-119 | in any interval as long as the window a key gets at most 2*limit-1 admissions, none for a limit below one |
| `RateBounds.IntervalBoundTight` | backend/internal/middleware/middleware.go:98-119 | for every positive limit, window and key some run reaches that number |
| `RateBounds.WindowBound` | backend/internal/middleware/middleware.go:109-118 | what a stored visitor counts is all the key was admitted since its window opened, and at most the limit |
| `RateBounds.DenialMeansFull` | backend/internal/middleware/middleware.go:109-115 | with a positive limit a refusal means exactly limit admissions since a moment at most one window ago |
| `Redaction.SensitiveInside` | backend/internal/service/route_service.go:165-173 | every key that contains a sensitive key is sensitive |
| `Redaction.SensitiveExactly` | backend/internal/service/route_service.go:165-173 | a key is sensitive exactly if some part of it spells one of the nine words, letter by letter in either case and with dash, blank or underscore between words |
| `Redaction.SensitiveSpelling` | backend/internal/service/route_service.go:165-173 | case, and dash, blank or underscore, make no difference |
| `Redaction.VisibleKept` | backend/internal/service/route_service.go:174-190 | along keys that are not sensitive, keys, lengths and scalars are unchanged at every depth |
| `Redaction.HiddenRedacted` | backend/internal/service/route_service.go:174-190 | a path that meets a sensitive key ends at the marker there and leads nowhere beyond |
| `Redaction.FixedWhenClean` | backend/internal/service/route_service.go:174-190 | the walk changes a document exactly when some sensitive key does not hold the marker |
| `Redaction.ScrubIdempotent` | backend/internal/service/route_service.go:174-190 | walking twice is walking once |
| `Redaction.SnapshotReveals` | backend/internal/service/route_service.go:163-192 | two documents scrub alike exactly if they agree along every path without sensitive keys |
| `RedactionWalk.ScrubSnapshot` | backend/internal/service/route_service.go:163-192 | the walk in place leaves the scrubbed document, shared objects included, and only puts markers under sensitive keys |
| `RedactionWalk.Walk` | backend/internal/service/route_service.go:174-190 | the same from a document that is already partly redacted |
| `RedactionWalk.WalkNode` | backend/internal/service/route_service.go:176-184 | the loop over the keys of one object, in any order |
| `RedactionWalk.WalkList` | backend/internal/service/route_service.go:185-189 | the loop over the elements of one array |
| `RedactionWalk.PartlyStays` | backend/internal/service/route_service.go:174-190 | redacting elsewhere keeps a document the same up to redaction |

## Left out

- `MovingAverage` and `DistanceUncertainty`: no service calls them.
- IEEE 754 rounding, NaN and infinities: arithmetic is over the reals; `Import` refuses NaN and infinities.
- The retry duration that `Allow` returns: it reads the wall clock again.
- RateBounds.IntervalBound: for non-decreasing times only; concurrent requests may reach the lock with slightly reordered clock readings.
- CaseLease.LeaseFencing: under its timing hypothesis; without it the statement is false.
- Comparison.SortDifferences: promises nothing about ties, as the library sort does not, and returns a new sequence where the source rearranges a slice.
- TraceInvariants.LatestDetectionReplays: uses the route as read at that detection; a later route update may move the end of the route.
- EndToEnd.UncertaintyInRange: covers estimates written by an analysis; a confirming reviewer enters an estimate of their own.
- EventLoading.ForTrace: the order of equal distances is left open, as the query leaves it.
- Several cases at once: every update names one id, so one row is modelled; other cases would share nothing but the audit table.
- CaseService.CaseStore.CreateAudit: keeps action, actor and request id; actor name, snapshots, time stamp and route id of the row are not modelled.
- TraceService.TraceService.SaveRoute: keeps length and refractive index; other columns and the audit row of a route change are not modelled.
- CaseService.CaseStore.Transition: takes its time stamp as an argument; only the stamp of a start matters and may lie before the commit, other updates are stamped at their commit.
- Wavelength, pulse width, capture time and uploader of a trace, and the review time of a marker: stored and never computed with.
- Gaps that a rolled-back insert leaves in automatic ids: ids are consecutive here; only their freshness is used.
- `RouteService.SetBaseline` and the refusals of `Create` and `Update`: a route change is one step that stores any valid route.
- Database failures other than the modelled guards: they end a call like a crash.
- Listing, pagination and filters: they read only, and their order is not total.
- HTTP routing, validation tags, authentication, logging, JSON encoding and the web frontend.
- Unicode lower-casing beyond the characters with an ASCII lower-case form: the sensitive words are ASCII.
