# Verification of prxref's evaluation, description and reporting logic

This project models the parts of prxref whose documentation promises something for every input, and
proves those promises. Each module follows one part of the program:

- `Grading`, `CreditAssignment`, `CreditRenaming`, `MatchCase`, `MatchMaximum`, `MatchOrder`, `InputOrder`: the
  deterministic grading tier of the eval scorer. Human labels are credited by AI findings through a capacitated
  augmenting-path search over in-place slots. The search is proved to give a maximum assignment, with the set
  of units seen by failed searches as the certificate. What the input order can change is settled exactly, by
  a simulation that renames units one way and by labels that fill a whole ranking the other way.
- `JudgeTier`: the second tier. The judge counts the same credit units, and the cap holds over both tiers.
- `Scoring`, `RunScore`, `RunCounts`: the metrics over graded cases, of one case and of a run. They conserve
  counts and credit, and every number of them counts labels or findings. `CaseScore` joins the two tiers to them.
- `CampaignUnits`, `Campaign`, `CampaignJoins`, `CampaignRunner`: the resumable campaign. `Campaign` is a state
  machine whose shards interleave freely and which may crash after any step and be resumed from the disk; its
  theorems are about all runs. `CampaignJoins` is about joining the shards, also after a resumption with another number
  of jobs. `CampaignRunner` is the pass as an object that owns its directories; its loop makes a run of the
  machine.
- `Markers`, `Description`, `DescriptionRoundTrip`, `MarkerRemoval`: composing a pull request description around
  a generated text, which is cleaned of markers first, and taking it apart again.
- `CandidateWalk`: the paged walk over merged pull requests that stops early.
- `MakeWalk`, `CiWiring`: following a Makefile goal, and reading runner files only when they can matter.
- `Folds`: least-loaded assignment of cases to folds, and the training cases of a fold.
- `FollowupMerge`: the greedy confirmation of sub-floor questions by a re-run.
- `DefaultBranch`: the default-branch check with its bounded read cache.
- `Annotations`: workflow-command annotation lines.
- `Prelude`, `Sorting`: shared helpers; `Sorting.Sort` is a stable insertion sort and stands for `sorted`.

What the code does step by step is a method, or a class where the program has an object, proved against
specification functions; the properties are lemmas about those functions and preserved invariants. What such a
function computes is also said without it: which places a label may be credited at, when a unit is good, what
stands in a split original, what a run counts. The main theorems are stated in those words.

Text heuristics are parameters, and the theorems hold for every choice of them: the `must_match` test and
the token overlap of the grading tier, stripping and lower-casing of severities (`fold`), the line and
runner-entry scanners of the CI check, the compatibility patterns and surface tokens of the default-branch
check, the title, token and name comparisons of `confirms`, and the hash that orders fold groups. The disk
is a map from cases to what lies in their directories; the reviewing model, the judge, the forge and the
file reader are functions or arbitrary outcomes. Credits are counted in exact halves and precision in reals.

## Where the code and its documentation differ

- `match_case` says grades never depend on input order. Two findings that rank alike are told apart by input
  order alone: the first one given is credited. With one that has no line and one with line -1 the credited
  line changes (`InputOrder.MissingLineShows`); with two that differ in severity alone the credited finding
  changes (`InputOrder.SeverityShows`), and with it the severity agreement (`CaseScore.OrderFlipsAgreement`).
  When the promise holds is exact: `InputOrder.CreditedFindingIgnoresOrderIff` for grades with the finding they
  credit, `InputOrder.CreditedLineIgnoresOrderIff` for grades with their line.
- The two tiers count the same units only while no finding has an empty `drop_reason`: the deterministic tier
  tests for null, the judge for truth (`JudgeTier.TiersAgreeIff` is exact). A label the judge credits at such a
  finding makes the scorer refuse the case (`CaseScore.CaseIsAcceptedIff`).
- `_finalize_unit` says an `error` unit already scores as missed. A unit with an error file beside a record, or a
  record that is no object, does not; `CampaignUnits.FinalizedIsMissedIff` is exact, and the machine shows a
  run never writes such a unit.
- `_validate` does not compare the number of case jobs on resume, and shard directories are named by fold and
  index alone. A case can then stand in two of them and the join refuses. It does not exactly when, in every
  fold, the first run had a job for every case or the second number of jobs divides the first
  (`CampaignJoins.ResumedPassJoinsIff`; `CampaignRunner.ResumeWithOtherJobs` reaches the failure).
- `compose_description` says splitting gives the original back. That holds exactly for an original that is empty,
  or not blank and not ended by a carriage return, with a generated text whose sanitised form has no close
  marker at the start of a line (`DescriptionRoundTrip.OriginalSurvivesIff`), which one pass of marker removal
  does not rule out (`DescriptionRoundTrip.OnePassCanLeaveAMarker`).
- `review_description` says a body with no generated block comes back unchanged. A body that holds a stored
  original without one loses the markers; `DescriptionRoundTrip.UnchangedIffNoSections` is exact.
- The diagonal of the confusion table is not quite the severity agreement: a severity that is missing and one that
  reads "(none)" share a row and do not agree. `RunCounts.DiagonalIsAgreementIff` says when the two are equal,
  `RunCounts.NoneAtMissingLooksAgreed` shows they can differ.

## Model

| member | source | states |
|---|---|---|
| `CreditAssignment.AugmentGains` | src/prxref/eval_metrics.py:227-240 | a successful search credits exactly one human more, un-credits nobody, empties no unit and keeps every unit within the cap and every credit on a preference |
| `CreditAssignment.AugmentFails` | src/prxref/eval_metrics.py:227-240 | a failed search leaves the slots as they were, and what it saw is full and closed: its holders and the failed human prefer nothing outside it |
| `CreditAssignment.DeadBlocks` | src/prxref/eval_metrics.py:227-240 | a human whose preferences lie in such a closed full set can never be credited by a search |
| `CreditAssignment.DeadStays` | src/prxref/eval_metrics.py:227-240 | later searches never touch or open a closed full set |
| `CreditAssignment.AssignmentIsMaximum` | src/prxref/eval_metrics.py:224-244 | no assignment of the humans to units they prefer, two per unit at most, credits more humans than the run does |
| `CreditAssignment.FailedHumanIsHopeless` | src/prxref/eval_metrics.py:242-243 | a human left without credit would fail again if tried at the end of the run, and no assignment credits it together with everyone credited before it, so one try each is enough |
| `CreditAssignment.CreditedIsDecidedInTurn` | src/prxref/eval_metrics.py:242-244 | who is credited is settled in turn: credited humans are exactly those whose own search succeeded |
| `CreditAssignment.PlacementIsMaximumMatching` | src/prxref/eval_metrics.py:244 | the returned map reads the slots as a function, respects preferences and the cap, and is of maximum size |
| `CreditAssignment.Assigner.Search` | src/prxref/eval_metrics.py:227-240 | the in-place search over the shared slots and seen set returns and leaves exactly what the recursive specification says |
| `CreditAssignment.Assigner.MoveHolder` | src/prxref/eval_metrics.py:235-239 | moving one holder off a full unit, in place |
| `CreditAssignment.Assigner.Assign` | src/prxref/eval_metrics.py:224-244 | running every human's search on the mutable slots gives the specified slots, hence a maximum assignment |
| `CreditRenaming.AugmentRenamed` | src/prxref/eval_metrics.py:227-240 | searching commutes with renaming units and humans |
| `CreditRenaming.PlacementRenamed` | src/prxref/eval_metrics.py:224-244 | so does the whole assignment: renamed instances credit corresponding humans at corresponding units |
| `Grading.CreditLocationsMembers` | src/prxref/eval_metrics.py:157-189 | the credit locations of a finding are its own place and exactly the places its entries name, without repetition |
| `Grading.CollectLocations` | src/prxref/eval_metrics.py:172-189 | the collecting loop gives those locations in order |
| `Grading.CollectUnits` | src/prxref/eval_metrics.py:192-199 | the loop numbers the locations of the active findings in order |
| `Grading.UnitsAreOrdered` | src/prxref/eval_metrics.py:192-199 | units are listed by finding and then by location |
| `Grading.UnitsArePlaces` | src/prxref/eval_metrics.py:157-199 | every credit unit is a place of an active finding, its own or one its entries name |
| `Grading.PlacesAreUnits` | src/prxref/eval_metrics.py:157-199 | and every place of an active finding is a credit unit |
| `MatchCase.RankingRanksPlaces` | src/prxref/eval_metrics.py:285-304 | a human's ranking holds exactly the places of active findings in its file, near enough or without a line asked for, whose title and body pass its test; the nearest line goes first, then the most shared tokens, then content, and what is equal in all of these stays in input order |
| `MatchCase.TryOrderMembers` | src/prxref/eval_metrics.py:275 | the order humans are tried in is a permutation of them |
| `MatchCase.TryOrderSorted` | src/prxref/eval_metrics.py:220-221 | no human is tried behind one that it comes before by file, then line, a missing one counting as 0, then id |
| `MatchCase.RankOne` | src/prxref/eval_metrics.py:277-304 | the ranking loop, with its memo of text tests, computes that ranking: exactly the places the label may be credited at, better ones first |
| `MatchCase.Match` | src/prxref/eval_metrics.py:247-319 | the whole grading run returns one grade per human that has a test, in input order; a full one names an active finding that passes the test, at a place in the label's file and near enough, and every other is none |
| `MatchCase.FullGradesAreMatches` | src/prxref/eval_metrics.py:252-258 | the same of the grades as the later theorems speak of them |
| `MatchMaximum.MatchIsMaximum` | src/prxref/eval_metrics.py:264-268 | no crediting of labels at places they may be credited at, two labels a place at most, gives more full grades than the deterministic tier |
| `MatchMaximum.GradesAreLegal` | src/prxref/eval_metrics.py:305-319 | the grades of the tier are such a crediting, with a label for each full grade |
| `MatchMaximum.AloneTakesBest` | src/prxref/eval_metrics.py:267-270 | a label alone in having a test is credited at a place that no other it may be credited at beats, by line, shared tokens or content, and gets none only when there is no such place |
| `MatchOrder.MatchGradesLookAlike` | src/prxref/eval_metrics.py:269-304 | the grades depend on the labels as a set, and on the findings only through the order of the units that rank alike: with the same units in each class, in the same order, every label shows the same |
| `InputOrder.DifferentClassesShow` | src/prxref/eval_metrics.py:277-304 | wherever units that rank alike stand in another order, some set of file-level labels shows it |
| `InputOrder.OrderNeverShowsIff` | src/prxref/eval_metrics.py:269-272 | no order of labels and findings ever shows, whatever the labels, exactly when for any two findings and any ranking class their units can be swapped unnoticed |
| `InputOrder.CreditedFindingIgnoresOrderIff` | src/prxref/eval_metrics.py:269-275 | grade, credited line and credited finding never depend on input order exactly when no two different active findings have locations that rank alike |
| `InputOrder.CreditedLineIgnoresOrderIff` | src/prxref/eval_metrics.py:269-275 | grade and credited line never depend on input order exactly when active findings of the same text have the same locations wherever they have locations that rank alike |
| `InputOrder.MissingLineShows` | src/prxref/eval_metrics.py:296-297 | without that condition the promise fails: a pair of findings, one without a line and one with line -1, whose order changes the credited line |
| `InputOrder.SeverityShows` | src/prxref/eval_metrics.py:295-302 | and a pair of findings that differ in severity alone, whose order changes the credited finding |
| `JudgeTier.TiersCountTheSameUnits` | src/prxref/evals.py:771-799 | the judge's n-th reference stands for the n-th credit unit of the deterministic tier |
| `JudgeTier.TiersDifferByEmptyDrops` | src/prxref/eval_judge.py:365-373 | in general the judge numbers one row more for each finding with an empty drop reason |
| `JudgeTier.TiersAgreeIff` | src/prxref/eval_judge.py:365-373 | the two tiers agree exactly when no finding has an empty drop reason |
| `JudgeTier.JudgeGradeNamesUnit` | src/prxref/evals.py:802-824 | a credited judge grade names the unit its reference numbers, and no other unit |
| `JudgeTier.CollectJudgeRows` | src/prxref/evals.py:771-799 | the expanding loop builds the judge's rows and their origins |
| `JudgeTier.CapIsExact` | src/prxref/evals.py:827-849 | a label the judge credited keeps its grade exactly while fewer than two credits on the same finding, file and line count before it: those of labels with a test, of fuller judged ones and of as full ones earlier among the labels; else it ends with none |
| `JudgeTier.FirstClaimsFit` | src/prxref/evals.py:839-849 | on each unit the claims kept are the first that still fit beside the deterministic tier's credits |
| `JudgeTier.SettledCredits` | src/prxref/evals.py:839-849 | after settling, the credits of both tiers together keep the cap on every unit |
| `JudgeTier.CapKeepsOthers` | src/prxref/evals.py:827-849 | grades of labels with a test, and uncredited ones, are left as they were |
| `JudgeTier.MatchTierUnderCap` | src/prxref/eval_metrics.py:230-231 | the deterministic tier alone keeps the cap on every unit key |
| `JudgeTier.GradeCaseKeepsCap` | src/prxref/evals.py:664-710 | whatever the judge says, a graded case keeps the cap over both tiers and the first tier's grades |
| `JudgeTier.CreditsNameUnits` | src/prxref/evals.py:664-710 | every credited grade of a case names a credit unit of an active finding |
| `JudgeTier.SettledOrSame` | src/prxref/evals.py:839-849 | a judged label ends with the judge's own grade or with none |
| `JudgeTier.JudgedLabelIs` | src/prxref/evals.py:664-710 | while no drop reason is empty, a label without a test ends with none when the judge was not asked, a judge error when it failed, and else with what the reply says of it at the numbered unit, or none |
| `JudgeTier.TestedLabelIs` | src/prxref/evals.py:664-710 | a label with a test ends with a grade of the first tier: full at a place it may be credited at, or none |
| `JudgeTier.CapGrades` | src/prxref/evals.py:827-849 | the loop over the usage counter computes the capped grades in place |
| `Scoring.RecallBlock` | src/prxref/eval_metrics.py:369-377 | the counting loop gives the counts and credit of the entries |
| `Scoring.RecallIsAFraction` | src/prxref/eval_metrics.py:376-377 | recall is undefined exactly when every entry is a judge error, else between 0 and 1 |
| `Scoring.RecallIs` | src/prxref/eval_metrics.py:376-377 | recall times the entries that are no judge errors is the credit |
| `Scoring.Grouped` | src/prxref/eval_metrics.py:451-453 | one block per label, labels sorted |
| `Scoring.PartitionSumsToHeadline` | src/prxref/eval_metrics.py:507-510 | the blocks of any partition sum to the headline, counts and credit |
| `Scoring.AgreementBlock` | src/prxref/eval_metrics.py:456-474 | the cells of the confusion table are the counts they name, total the compared entries, and its diagonal counts the pairs of one name |
| `Scoring.CheckGrades` | src/prxref/eval_metrics.py:333-366 | grades are accepted exactly when they cover each label once and credit only active findings |
| `Scoring.ScoreCase` | src/prxref/eval_metrics.py:380-448 | a case is scored exactly when its grades are valid, into the row of its labels, sorted by id |
| `Scoring.RowConserves` | src/prxref/eval_metrics.py:430-440 | credited plus unmatched findings are the active ones, the block counts every label, agreement is compared exactly on the credited ones, and the precision pass grades exactly the unmatched |
| `Scoring.UnitsAndCreditsCoverActive` | src/prxref/eval_precision.py:136-151 | the findings to grade and the credited ones split the active findings |
| `Scoring.RatesAreOrdered` | src/prxref/eval_precision.py:517-529 | precision is undefined exactly when nothing counts, and otherwise 0 <= strict <= lenient <= 1 |
| `Scoring.RatesAre` | src/prxref/eval_precision.py:517-529 | strict precision is the matched and the valid, lenient also the nits, out of the matched, valid, nit, invalid and duplicate |
| `Scoring.CountVerdicts` | src/prxref/eval_precision.py:508-514 | the loop over a case's verdicts counts them, and without any every unit is a judge error |
| `Scoring.Summarize` | src/prxref/eval_precision.py:532-539 | the summary adds the blocks up |
| `RunScore.Measure` | src/prxref/eval_metrics.py:531-553 | every table of the metrics is a sum over the rows, compared and agreed among them, and the blocks of both partitions and of the cases sum to the headline |
| `RunScore.ScoreCases` | src/prxref/eval_metrics.py:497-553 | the run is scored exactly when every case has valid grades and no two cases share an id, into one row per case, by id, and metrics that sum them |
| `RunScore.RunConserves` | src/prxref/evals.py:545-563 | the findings the precision pass grades and the ones it fails on are the unmatched ones of the metrics, and with the matched ones they are all active findings |
| `RunCounts.MetricsCountLabels` | src/prxref/eval_metrics.py:497-553 | every block of the metrics counts labels by grade; compared is the credited labels and agreed those whose severity, folded and with minor read as warning, is that of the finding credited; each cell of the confusion table counts its pair; the diagonal is agreed and the labels where one severity is missing and the other reads (none) |
| `RunCounts.DiagonalIsAgreementIff` | src/prxref/eval_metrics.py:456-474 | agreed is the diagonal of the table exactly when there is no such label |
| `RunCounts.NoneAtMissingLooksAgreed` | src/prxref/eval_metrics.py:466-467 | and not otherwise: a label of severity (none) credited at a finding without one stands on the diagonal and does not agree |
| `RunCounts.NoneAtMissingIsValid` | src/prxref/eval_metrics.py:333-366 | and the grades of such a case are accepted |
| `RunCounts.MetricsCountFindings` | src/prxref/eval_metrics.py:430-440 | the findings of the metrics are the active ones, and the unmatched those no credit names |
| `RunCounts.PrecisionCounts` | src/prxref/eval_precision.py:492-539 | the summary counts each verdict as often as it was given, the matched findings, and the unmatched ones as graded or, where the pass failed, as judge errors |
| `RunCounts.RowCountsFindings` | src/prxref/eval_metrics.py:430-440 | a row counts the active findings of its case and those no credit names |
| `RunCounts.RowTells` | src/prxref/eval_metrics.py:405-429 | a row has one entry per label, by id, that tells of the label, its grade and, when credited, the finding credited |
| `RunCounts.RowsInOrder` | src/prxref/eval_metrics.py:519-530 | a run has one row per case, by case id |
| `CaseScore.CaseIsAcceptedIff` | src/prxref/evals.py:664-710 | the scorer accepts the grades of both tiers exactly when no label ends credited at a finding dropped for an empty reason |
| `CaseScore.NoEmptyDropIsAccepted` | src/prxref/evals.py:664-710 | so it accepts them whatever the judge replies when no drop reason is empty |
| `CaseScore.OrderFlipsAgreement` | src/prxref/eval_metrics.py:405-416 | the order of two findings that differ in severity alone decides whether the label's severity agrees |
| `CampaignUnits.UnitStateIs` | src/prxref/eval_units.py:83-110 | a unit is ok exactly when it has no error file, a record of a review without error and no sign of the rate limit in its trace; missing, rate limited and error are exact in the same words |
| `CampaignUnits.ReadCaseIs` | src/prxref/evals.py:617-635 | a unit scores as graded exactly when it has a record of a review without error, as missed exactly when it has one with an error, or an error file and no record |
| `CampaignUnits.RanWellIff` | src/prxref/eval_units.py:83-110 | running a case leaves it ok exactly when it ends with a record, no error and no sign of the rate limit |
| `CampaignUnits.InterruptedResetIsNotOk` | src/prxref/eval_units.py:119-125 | deleting in the given order, an interrupted reset never leaves a unit that reads as ok |
| `CampaignUnits.FinalizeIs` | src/prxref/eval_campaign.py:701-724 | exactly which failing directories lose their record for an error file, all others staying |
| `CampaignUnits.FinalizedIsMissedIff` | src/prxref/eval_campaign.py:701-724 | exactly which failing units score as missed once finalised |
| `CampaignUnits.FinalizedScores` | src/prxref/eval_campaign.py:701-724 | on the directories a run writes, a failing unit is made to score as missed and an ok one is graded |
| `CampaignUnits.ShardOfPosition` | src/prxref/eval_units.py:68-80 | dealing round-robin puts the case at position p in shard p mod n at place p div n |
| `CampaignUnits.ShardOnlyOfPosition` | src/prxref/eval_units.py:68-80 | and nowhere else |
| `CampaignUnits.ShardSizes` | src/prxref/eval_units.py:68-80 | no shard is empty and sizes differ by at most one |
| `CampaignUnits.EveryCaseHasOneShard` | src/prxref/eval_campaign.py:584-591 | over all folds, every case has exactly one owning shard |
| `CampaignUnits.LabelsAreUnique` | src/prxref/eval_campaign.py:484-485 | no two shards share a label |
| `CampaignUnits.MergeRuns` | src/prxref/eval_units.py:128-188 | joining succeeds exactly when every case is held by one source, and yields the cases in dataset order as held |
| `Campaign.StepKeeps` | src/prxref/eval_campaign.py:612-659 | every step of the pass, whatever the interleaving of shards and wherever it crashes, keeps the campaign invariant |
| `Campaign.RunKeepsInv` | src/prxref/eval_campaign.py:612-659 | so every reachable state satisfies it |
| `Campaign.OkUntouched` | src/prxref/eval_campaign.py:622-632 | no step writes to or executes a unit with a good record, no error file and no sign of the rate limit |
| `Campaign.OkForever` | src/prxref/eval_campaign.py:622-632 | such a unit keeps its files through every later step, crash and resumption and is never executed again |
| `Campaign.AttemptsAreBounded` | src/prxref/eval_campaign.py:619-629 | one process executes no case more than max_attempts times |
| `Campaign.AttemptRunsExactlyTheFailing` | src/prxref/eval_campaign.py:620-642 | an attempt executes exactly the cases that were not good as it began in the shards it runs to their end, and skips only shards where all were |
| `Campaign.TodoIs` | src/prxref/eval_campaign.py:661-663 | an attempt runs exactly the shards without run.json or with a unit that is not good in that sense |
| `Campaign.GivesUpOnlyAtTheLimit` | src/prxref/eval_campaign.py:619-646 | a unit that is not good is finalised only once max_attempts attempts are used up |
| `Campaign.GradedUnitRanWell` | src/prxref/eval_campaign.py:612-659 | in a finished pass a unit that reads as graded was good when the process started or its last execution ended with a record, no error and no sign of the rate limit |
| `Campaign.OthersStay` | src/prxref/eval_campaign.py:612-659 | no step of a pass touches the directory of a case its shard does not own |
| `CampaignJoins.FinishedPassJoinsIff` | src/prxref/eval_campaign.py:643-659 | a finished pass is joined exactly when no shard directory held a stranger's case as the process started; ok units read as graded, the others as missed |
| `CampaignJoins.MergePass` | src/prxref/eval_campaign.py:726-735 | shard, run, finalise and merge together yield the dataset in order, each case graded or missed |
| `CampaignJoins.ResumedPassJoinsIff` | src/prxref/eval_campaign.py:399-404 | a pass finished with one number of case jobs and resumed with another is joined exactly when in every fold the first run had a job for every case or the second number divides the first |
| `CampaignJoins.OneFoldDealtSafely` | src/prxref/eval_campaign.py:584-591 | for an arm that mines nothing that condition is on the size of the dataset |
| `CampaignRunner.ResumeWithOtherJobs` | src/prxref/eval_campaign.py:612-735 | the failure is reached: two passes that run without a fault, the second on what the first left, are refused by the join exactly when that condition fails |
| `CampaignRunner.Runner.CheckUnits` | src/prxref/eval_campaign.py:665-672 | the classification loop gives the state of every unit |
| `CampaignRunner.Runner.FindTodo` | src/prxref/eval_campaign.py:661-663 | the shards to run are exactly those without run.json or with a failing unit |
| `CampaignRunner.Runner.Reset` | src/prxref/eval_units.py:113-125 | a reset leaves a unit empty and every other one as it was, one deletion a step |
| `CampaignRunner.Runner.ResetFailing` | src/prxref/eval_campaign.py:628-632 | the loops reset every failing unit of the shards to run and nothing else, as machine steps |
| `CampaignRunner.Runner.RunCase` | src/prxref/evals.py:268-318 | a resumed case runs, and leaves what its run ends with, unless it already has a record or an error; then nothing is written |
| `CampaignRunner.Runner.RunShards` | src/prxref/eval_campaign.py:633-637 | the shards to run run side by side, in any interleaving of their cases, until each has ended |
| `CampaignRunner.Runner.Attempt` | src/prxref/eval_campaign.py:625-642 | one attempt: reset, run, refuse on exit code 2, classify again |
| `CampaignRunner.Runner.FinalizeFailing` | src/prxref/eval_campaign.py:643-646 | every unit still failing is finalised |
| `CampaignRunner.Runner.RunUnits` | src/prxref/eval_campaign.py:612-659 | however the world behaves, the loop makes a run of the campaign machine that ends finished or refused, and finished with every run.json when no case and no shard fails |
| `CampaignRunner.Runner.RunPass` | src/prxref/eval_campaign.py:612-659 | hence good units keep their files, executions are bounded, a complete pass leaves every unit good or missed, and what reads as graded was good from the start or left so by its last execution |
| `Description.SplitIs` | src/prxref/describe.py:190-249 | the original is the stripped text before, between and behind the sections and the stored original as it is unless blank, in document order with one blank line between neighbours and nothing else; edited is set exactly when something visible stands around the sections, and the other fields are the block's |
| `Description.NoHumanTextIsLost` | src/prxref/describe.py:185-249 | what was written outside the generated block and the markers stands in the split original verbatim and in document order, stripped save for the stored original, and nothing else visible does |
| `Description.HumanTextKeepsAll` | src/prxref/describe.py:233-249 | the human text keeps every visible character of the pieces outside the sections and of the stored original, in document order |
| `Description.CutCovers` | src/prxref/describe.py:201-231 | a body is its human pieces, its generated text and marker text, in order: nothing else is lost |
| `Description.EmptyWritesIffNoHumanText` | src/prxref/describe.py:267-292 | mode empty allows a write exactly when nothing visible stands outside the generated block and the markers |
| `Description.DecisionIs` | src/prxref/describe.py:267-292 | the decision and its reason for every mode: off never writes, force always does, empty only when nothing visible is human, and any other mode is refused |
| `DescriptionRoundTrip.ComposeIs` | src/prxref/describe.py:154-182 | a composed body line by line: the open marker with head and time, the cleaned text, the close marker, and the section of an original that is not blank; a head that is empty or holds white space is refused |
| `MarkerRemoval.MarkersAreFound` | src/prxref/describe.py:111 | what is matched is exactly a comment that opens, around an optional slash, on prxref: and a section name as a whole word, up to the first end of a comment |
| `MarkerRemoval.SanitizeIs` | src/prxref/describe.py:150-151 | cleaning leaves what stands outside the markers, in order, without white space around it |
| `MarkerRemoval.MarkersAreSettled` | src/prxref/describe.py:150-151 | and which markers go is settled by the text: those that do not start inside one before |
| `DescriptionRoundTrip.LastCloseIsFinal` | src/prxref/describe.py:222-231 | the last close found is the one written at the end, even when the original holds markers or details markup |
| `DescriptionRoundTrip.SplitUndoesBody` | src/prxref/describe.py:154-249 | splitting a composed body gives back the generated text, the pinned head and time and the original, up to a blank original and one final carriage return |
| `DescriptionRoundTrip.GeneratedSurvivesIff` | src/prxref/describe.py:209-214 | the generated text survives exactly when its sanitised form holds no close marker at the start of a line |
| `DescriptionRoundTrip.OriginalSurvivesIff` | src/prxref/describe.py:162-163 | the original comes back verbatim exactly when it is empty, or not blank and not ended by a carriage return, and the sanitised text holds no close marker at the start of a line |
| `DescriptionRoundTrip.RegeneratingDoesNotNest` | src/prxref/describe.py:165-167 | composing again from the split original writes the body a first composition would |
| `DescriptionRoundTrip.EmptyModeAfterCompose` | src/prxref/describe.py:283-292 | a body that is only a generated block may be overwritten, one that stores an original may not |
| `DescriptionRoundTrip.UnchangedIffNoSections` | src/prxref/describe.py:252-259 | a body comes back unchanged exactly when it has neither a generated block nor a stored original |
| `DescriptionRoundTrip.TrailingReturnIsLost` | src/prxref/describe.py:108-111 | every original that is not blank and ends in a carriage return loses it, and nothing else |
| `DescriptionRoundTrip.OnePassCanLeaveAMarker` | src/prxref/describe.py:150-151 | one pass of marker removal can leave a close marker: a concrete text |
| `CandidateWalk.KeepWanted` | src/prxref/eval_mine.py:341-346 | the loop over a page appends its wanted pull requests in order |
| `CandidateWalk.StopLosesNothing` | src/prxref/eval_mine.py:348-353 | once the walk may stop, by either break, the pages left cannot change the result |
| `CandidateWalk.StopsIff` | src/prxref/eval_mine.py:348-353 | the walk may end after a page with update times exactly when all of them are before the cutoff, or enough are held that were all merged after one of them |
| `CandidateWalk.NewestAreNewest` | src/prxref/eval_mine.py:341-360 | the result is merged, qualifying pull requests of the listing, not merged before the cutoff, newest first; what is left out of those was merged no later than any of it and only because enough are held |
| `CandidateWalk.SameTimesKeepOrder` | src/prxref/eval_mine.py:347 | equal merge times keep their listing order |
| `CandidateWalk.CandidatePulls` | src/prxref/eval_mine.py:323-360 | the walk returns the newest of the pages read and stops at the first page that may end it; on a listing ordered by update time that is what reading every page gives; it is refused exactly when the feed breaks before showing anything |
| `MakeWalk.MakeRecipes` | src/prxref/ci_wiring.py:790-839 | reading the lines with the open rule at hand gives each target the commands and prerequisites of every rule that names it, in file order, and the default goal |
| `MakeWalk.MakefileIs` | src/prxref/ci_wiring.py:790-839 | a target has exactly the commands some line gives it, inline or under a rule that names it, and needs exactly the names some rule gives it; the default goal is the first target that may be one |
| `MakeWalk.WalkIsExact` | src/prxref/ci_wiring.py:876-900 | on every graph, cycles included, the walk visits exactly the targets reachable from the goal, each once, and notes each one's recipe |
| `MakeWalk.Follow` | src/prxref/ci_wiring.py:892-900 | the worklist loop ends and computes that walk |
| `CiWiring.WiredIsMonotone` | src/prxref/ci_wiring.py:926-972 | a direct invocation stays one whatever the runner files say |
| `CiWiring.NoHopsNoDifference` | src/prxref/ci_wiring.py:959-972 | without runner entries on CI lines, runner files change nothing |
| `CiWiring.LazyReadIsExact` | src/prxref/ci_wiring.py:1098-1110 | leaving the runner files unread when they cannot matter changes no finding and no word of one |
| `CiWiring.ReadOnce.Read` | src/prxref/ci_wiring.py:1067-1075 | each path is asked of the source at most once, and the answer is the source's |
| `CiWiring.ReadRunners` | src/prxref/ci_wiring.py:983-1014 | the runner files read are the first listed and readable Makefile and the package file, each only when an entry needs it |
| `CiWiring.ConfigPathsMembers` | src/prxref/ci_wiring.py:645-661 | the CI files are exactly the listed paths the globs select, or without a listing the globs without a wildcard that are no exclusion, sorted and each once |
| `CiWiring.ListingOrderDoesNotMatter` | src/prxref/ci_wiring.py:656-661 | the order and the repetitions of the listing change nothing |
| `CiWiring.WiredIff` | src/prxref/ci_wiring.py:903-972 | a candidate counts as wired exactly when a command line of a CI file names it, or runs an entry that is it, reaches it, or runs a command that names or runs it |
| `CiWiring.RunnerTextIs` | src/prxref/ci_wiring.py:983-1014 | exactly the files that the entries call for, that are listed and can be read, are read, of the Makefile names the first |
| `CiWiring.FindingsAre` | src/prxref/ci_wiring.py:1098-1186 | nothing without a candidate, one finding about all of them when no CI file can be read, and else one, in order, for each candidate no command line runs, which tells the CI files read and the runner files with the entries they were read for |
| `CiWiring.CiWiringFindings` | src/prxref/ci_wiring.py:1022-1186 | the run reports what always reading the runner files would report, asks no path twice, whether for candidates, CI files or runner files, and reads at most twelve CI files and none without a candidate |
| `Folds.LoadsAreBalanced` | src/prxref/eval_rules_mine.py:84-88 | any two loads differ by at most the largest group, after every group placed |
| `Folds.NoFoldIsEmpty` | src/prxref/eval_rules_mine.py:87-88 | with at least as many groups as folds, no fold is empty |
| `Folds.SinglesGoRoundRobin` | src/prxref/eval_rules_mine.py:86 | single-case groups are dealt in turn |
| `Folds.AssignFolds` | src/prxref/eval_rules_mine.py:76-106 | a repeated id or a bad number of folds is refused, else every case gets the fold its group was placed in |
| `Folds.SameGroupIff` | src/prxref/eval_rules_mine.py:72-73 | cases are grouped exactly when they have one pull request, or are one case without any |
| `Folds.GroupsAreCounted` | src/prxref/eval_rules_mine.py:90-98 | the number of groups is that of cases with no earlier one of their group |
| `Folds.GroupsStayTogether` | src/prxref/eval_rules_mine.py:79-80 | two cases of one pull request share a fold |
| `Folds.FoldsAreBalanced` | src/prxref/eval_rules_mine.py:84-88 | no fold of cases is empty, and the numbers of cases in two folds differ by at most the largest group |
| `Folds.SingleCasesRoundRobin` | src/prxref/eval_rules_mine.py:86 | when every group has one case the fold is the place in the hash order modulo k |
| `Folds.InputOrderDoesNotMatter` | src/prxref/eval_rules_mine.py:86-87 | the same cases get the same folds in any input order |
| `Folds.TrainingSharesNoGroup` | src/prxref/eval_rules_mine.py:109-117 | the training cases of a fold are all the others and share no pull request with it |
| `FollowupMerge.PickIsBest` | src/prxref/followup_merge.py:131-150 | each question takes the best confirming finding that earlier ones left: highest confidence, lowest index |
| `FollowupMerge.UsedOnce` | src/prxref/followup_merge.py:115-117 | a re-run finding confirms at most one question |
| `FollowupMerge.NothingLeftToConfirm` | src/prxref/followup_merge.py:131-147 | no question stays unconfirmed while a finding that confirms it is unused |
| `FollowupMerge.MergeSettles` | src/prxref/followup_merge.py:104-154 | one that is no question stays; a question becomes the surest re-run finding that may confirm it and no earlier one took, or is kept and marked with its confidence and the floor when there is none |
| `FollowupMerge.AtLeastHalf` | src/prxref/followup_merge.py:104-154 | the merge confirms at least half of what any assignment could |
| `FollowupMerge.HalfIsTight` | src/prxref/followup_merge.py:104-154 | and half is exact: a concrete merge that confirms one of two |
| `FollowupMerge.MergeFollowup` | src/prxref/followup_merge.py:104-154 | length and order are kept, every finding is settled in that way, and the counts conserve |
| `DefaultBranch.CacheIsExact` | src/prxref/default_branch.py:190-241 | with no more distinct paths than the limit, the cached run is the unlimited check of each finding |
| `DefaultBranch.ReadPathIs` | src/prxref/default_branch.py:106-121 | a file is read at the old path of the first renaming to its path, and else at its path |
| `DefaultBranch.ReadIff` | src/prxref/default_branch.py:199-211 | exactly the first max_paths distinct paths of findings that may be lowered are read |
| `DefaultBranch.CheckIs` | src/prxref/default_branch.py:190-241 | a finding that may be lowered is lowered with its note when the file is gone or holds none of its tokens, keeps its severity with a note when it holds one, and stays when nothing is known; all others stay |
| `DefaultBranch.OverLimitIsUnknown` | src/prxref/default_branch.py:201-211 | over the limit a finding whose path was not read is left as it is |
| `DefaultBranch.TallyConserves` | src/prxref/default_branch.py:209-241 | checked and unknown are the candidates, checked is lowered and present |
| `DefaultBranch.NothingDropped` | src/prxref/default_branch.py:165-167 | nothing is dropped, and only the severity and the end of the body can change |
| `DefaultBranch.CheckFindings` | src/prxref/default_branch.py:190-241 | one result per finding in order, each as just said, and the paths read are the first max_paths distinct ones, each once |
| `DefaultBranch.ApplyCheck` | src/prxref/default_branch.py:151-241 | without a known default branch, or when the pull request targets it, nothing is read or changed |
| `Annotations.DataIsPerCharacter` | src/prxref/ci_fallback.py:196-197 | the chained replaces are one per-character map |
| `Annotations.PropertyIsPerCharacter` | src/prxref/ci_fallback.py:200-201 | also with the two further replaces of property values |
| `Annotations.DecodeUndoesEscape` | src/prxref/ci_fallback.py:196-201 | percent-decoding undoes both escapes |
| `Annotations.AnnotationReadsBack` | src/prxref/ci_fallback.py:69-94 | every annotation is one line that reads back to its command, properties and message |
| `Annotations.LinesAreUnique` | src/prxref/ci_fallback.py:69-94 | no two different findings share a line |
| `Annotations.AnnotationSays` | src/prxref/ci_fallback.py:69-94 | an annotation reads back as error, warning or notice by severity, the file when there is one, the line when positive, the title, and the body as message |
| `Annotations.ShownBySeverity` | src/prxref/ci_fallback.py:192-193 | what is shown are given findings, errors first, then warnings, then the rest |
| `Annotations.NothingSevereIsLeftOut` | src/prxref/ci_fallback.py:79-82 | what is left out is no more severe than anything shown, and only because fifty are shown |
| `Annotations.SeverityKeepsOrder` | src/prxref/ci_fallback.py:192-193 | within errors, warnings and the rest the order given is kept |
| `Annotations.GitHubAnnotations` | src/prxref/ci_fallback.py:69-94 | the loop renders the shown findings in that order |

## Left out

- CandidateWalk.CandidatePulls: merge times are compared as times, where the program sorts the time stamps as strings of one format; its caller asks for at least one pull request.
- CampaignRunner.Runner.Reset: a unit's `diff.patch`, which a reset deletes as well, is not modelled; nothing that is modelled reads it.
- CiWiring.ReadOnce.Read: the source either gives a text or a miss; a read that raises, which the runner reader counts as a miss, is not modelled.
- Scoring.ScoreCase: the verdict, the method, the failed chunks, the elapsed time and the costs of a row are not modelled; no count depends on them.
- DescriptionRoundTrip.SplitUndoesBody: the time stamp is the written token; parsing it back to a date is not modelled.
- Duck typing of findings and labels: values that are not of the expected type, and their defaults, are not modelled.
- An invalid regular expression in `must_match`, which is refused with an error before any grade.
- Digits and word characters inside the description markers are taken as ASCII; white space is not.
- The waiting between rate-limited attempts, the progress file, the version check of `run.json` and the log.
- Rules mining, prompts, replies and caches of the judge and the precision pass; only what they hand to the grades is modelled.
- Costs and elapsed times in the metrics, which are sums that absorb a missing value.
- How a diff names the files to look into for CI candidates and how candidates are recognised in their texts: a list of paths and a function of the texts read. The fallback to the built-in CI globs; the globs given are the effective ones.
- The Azure and GitLab renderings: Azure's escape does not escape `%`, so no decoding property holds of it.
- The hunk walkers and the search-API walk of the miner, configuration, command line, dashboard and forge calls.
