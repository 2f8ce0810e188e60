# Verification of the fingerprint pipeline

A Dafny model of four parts of the repository, with proofs: the Redis Streams job protocol and its
worker, the temporal matcher, the alignment algorithms of the prototype, and the submission path with its
job codec. `dafny verify dfyconfig.toml` checks everything.

## What is modelled

**Job protocol.** `Protocol` holds Redis as one value (stream, read position, pending list, retry ZSET,
state hashes, result hashes, results stream, match index), the five Lua scripts as functions on it, and a
state machine in which any number of workers produce, claim, reclaim, finalise, promote and crash in any
order. A worker may also die right after a delivery or a takeover, before its `mark_claimed`. A pending entry
may be reclaimed at any moment, so no theorem depends on a clock.
`ProtocolInvariant` proves one inductive invariant job by job; `ProtocolTheorems` draws the results from
it; `Outcome` is the client's view. `Worker` is the imperative form: a server holding raw string entries
and raw retry payloads, the scripts as methods that write one structure after the other, and the worker's
methods. Its `Valid` says that the raw structures encode a state *reachable* in `Protocol`; since every method
keeps `Valid`, the theorems hold between any two calls.

The hypotheses, all of which the code needs, are guards of the state machine:

1. A job id is produced once (`Protocol.Enabled`, step `Produce`).
2. A malformed entry does not carry the id of a well-formed job, because `mark_rejected` is not fenced. `Admission`
   proves these two of any number of submitters running beside the workers: each append is a `Produce` step that is
   enabled. It assumes that no marker expires and that an enqueue that fails has appended nothing.
3. A claim is one step. `SplitClaim` removes this: the delivery or takeover, the read and the write of the attempt are
   separate steps, any number of workers may be between them on one job, and any of them may die there. The code
   checks nothing before its write. A run is a run of the one-step protocol as long as every write finds what its
   worker read still on record and its entry still pending. Both parts are needed: the attempts given out are
   distinct exactly while the first holds, and given the first, the invariant survives a write exactly if the
   second holds. For each part a run of the code breaks it. The second is a hazard the code comments do not mention:
   when a worker finalises its claim after its entry was taken over and before the new worker's `mark_claimed`, that
   write takes the settled outcome back, and the job is reported as pending although it is in no place, until the new
   worker finalises it a second time, and for ever if that worker dies.
4. A claim is finalised at most once, as `process_claim` does. `SecondCommitAnnouncesAgain` shows what
   happens otherwise.

**Temporal matcher.** `Matcher` models `match_segments` over an arbitrary real similarity matrix: hits, most
frequent offset, tolerance filter, best hit per candidate in a dict, sorting, run splitting, first longest
run, report. The two loops are methods proved equal to recursive functions, about which `MatcherTheorems`
proves the properties.

**Alignment algorithms.** `WarpingPaths` and `Dtw` (banded time warping: tables, backtracking, range), `Popcount`,
`HashSimilarity` and `HashDigits` (word-parallel bit counting, the batched hash similarity against its scalar form,
and both against the digits of the hashes), `SlidingWindow` (coverage plus a tenth of the average), `EnergyXcorr`
(normalised correlation with running sums), `DinoRuns` (frame runs and their choice). Arithmetic is exact; `Numbers`
holds what they share.

**Submission and codec.** `Jobs` and `Text` (stream fields, including Python's `int` on ASCII text, which `Numerals`
pins down against a table of the digits), `Idempotency` (canonical payload under an abstract hash), `Submission`
(validation, backpressure, marker, enqueue; one submitter, imperatively) and `Admission` (many submitters interleaved
with the whole job protocol).

## Where the code and its documentation differ

The model follows the code in each case, and a lemma gives the exact extent.

- The hash matrix is documented to give empty hashes a similarity of 0.0 (old/matcher/sequence_alignment.py:42-43).
  Two empty hashes give 1.0, and an empty one beside another gives 0.0 only if the other has every bit set
  (`HashSimilarity.EmptyHashes`, `HashSimilarity.AgreeExactlyWhen`).
- The sliding window is documented to rank by coverage first (old/matcher/sequence_alignment.py:102-103, 121). With m
  candidate segments and threshold t in (0, 1] that holds for all similarities if and only if
  (m - 1) * max(t, 1 - t) <= 10, so at the threshold 0.80 up to m = 13 (`SlidingWindow.CoverageFirstExactly`).
- `max_index_gap` is documented in target-segment units (matching/config.py:75-81); the code tests the gap between
  candidate segments. Target gaps are at most maxGap plus twice the tolerance (`MatcherTheorems.GapBounds`), every
  configuration has an input that attains that (`MatcherTheorems.WidestGap`), and so the documented bound holds for
  all inputs exactly when the tolerance is 0 (`MatcherTheorems.GapsAsDocumentedExactly`).
- The comment on the correlation says that the clip is needed because the peak can exceed 1; in exact arithmetic it
  cannot (`EnergyXcorr.NormalisedInUnit`). The docstring expects the same content at the right offset to score 0.70 to
  1.00. With E the candidate's energy, m its length and d the difference of the two mean loudnesses, the square of the
  score is E / (E + m * d * d), so 0.70 is reached exactly while 49 * m * d * d <= 51 * E
  (`EnergyXcorr.ExcerptScoreExactly`, `EnergyXcorr.SeventyPercent`); `EnergyXcorr.ExcerptBelowSeventy` is an excerpt
  whose best score over all lags is 0.6.
- The outstanding-work limit bounds what submitters admit, not what is outstanding: a promoted retry is appended
  without a check and waits outside the figure before. With N submitters and p promotions the figure is at most
  limit + N - 1 + p, which is attained, so the limit is passed by no more than the other submitters exactly while
  nothing has been promoted (`Admission.WithinSubmittersExactly`).
- The time-warping alignments report a start index and an offset, and a note for a missing path. The start is always
  0, the end always the last target segment, and the failure branches are dead (`Dtw.AlignSegmentsDtw`).
- Candidate validation accepts techniques that are empty or hold a comma, which the worker then rejects or reads
  differently (`Submission.AdmittedReachesWorker`).
- A run of frames that would qualify is overlooked when a longer run exists that does not
  (`DinoRuns.QualifiesExactly`, `DinoRuns.LongerRunHidesAGoodOne`).

## Model

| member | source | states |
|---|---|---|
| `ProtocolTheorems.TokenConservation` | worker/fingerprint_worker.py:121-239 | In every reachable state a produced job is in exactly one place: undelivered on the stream, in the pending list, in the retry ZSET, or settled; nothing is lost or duplicated |
| `ProtocolInvariant.StepKeeps` | worker/fingerprint_worker.py:316-390 | Every step by any worker, stale finalises and reclaims included, keeps the per-job invariant for all jobs at once |
| `ProtocolTheorems.OutcomeTracksToken` | integration/outcome.py:58-156 | The reported outcome is terminal exactly when the job has no entry queued, pending or delayed |
| `ProtocolTheorems.TerminalIsAbsorbing` | integration/outcome.py:86-156 | Once terminal, the outcome is the same after every continuation of the run, and the whole view is unchanged for a produced job |
| `ProtocolTheorems.OutcomeMeans` | integration/outcome.py:86-156 | In every reachable state each reported outcome means what it says of Redis: a match is reported exactly for the ids that the match index lists under some target and version, no match for a stored negative decision, and likewise for the other four |
| `ProtocolTheorems.OutcomeWhileHeld` | integration/outcome.py:89-95 | While a current claim is held the job is reported pending, with the attempt and the worker of that very claim |
| `ProtocolTheorems.OutcomeOfFinalise` | worker/fingerprint_worker.py:521-559 | The whole view a client gets once the current claim has ended in each of the possible ways: a match is reported as a match, no match as no match and a processing failure as a permanent error, with the stored fields, and nothing of an earlier attempt |
| `ProtocolTheorems.FinaliseRecords` | worker/fingerprint_worker.py:121-216 | What the finalise of a current claim leaves on record (status, times, attempt, worker, the due time of a retry), and that it moves no other entry, retry or result |
| `ProtocolTheorems.RejectionIsReported` | worker/fingerprint_worker.py:336-342 | A malformed entry, new or reclaimed, is acknowledged and reported as skipped under its key |
| `ProtocolTheorems.FinaliseFenced` | worker/fingerprint_worker.py:121-216 | A finalise takes effect exactly when its claim holds the attempt on record, and then releases the pending entry; otherwise all of Redis is unchanged |
| `ProtocolTheorems.ClaimsAreOrdered` | worker/fingerprint_worker.py:349-352 | Along every run, the later of two claims on a job holds the strictly larger attempt |
| `ProtocolTheorems.LostClaimWritesNothing` | worker/fingerprint_worker.py:114-120 | A worker overtaken by a later claim writes nothing at all, however late it finalises and whatever it concluded |
| `ProtocolTheorems.CommitAgreement` | worker/fingerprint_worker.py:187-216 | A job has a result hash exactly when it has exactly one announcing event and a completed status, all with the same attempt and decision, and it is in the match index of its target and version, scored with the completion time, exactly when the stored decision is a match |
| `ProtocolTheorems.Accounting` | worker/fingerprint_worker.py:349-390 | Exact balance over every run: attempts, together with hand-overs that ended before a claim, are deliveries plus lease losses, and every step on a job is paid for by its entries, attempts, such hand-overs and open claims |
| `ProtocolTheorems.WorkIsBounded` | worker/fingerprint_worker.py:462-519 | At most max_attempts - 1 retries and max_attempts entries, at most max_attempts + r attempts after r lease losses, at most 3 * max_attempts + 2 * r steps: finitely many lease losses mean finitely much work |
| `ProtocolTheorems.EveryJobCanFinish` | worker/fingerprint_worker.py:521-605 | From every reachable state every produced job can be brought to a terminal outcome: none is stuck |
| `ProtocolTheorems.SecondCommitAnnouncesAgain` | worker/fingerprint_worker.py:187-216 | Committing a current claim twice announces it twice, since the scripts compare the attempt only |
| `SplitClaim.SplitRefines` | worker/fingerprint_worker.py:323-390 | Every run with delivery or takeover, attempt read and attempt write as separate calls, workers dying between them, and only sound writes is a run of the protocol that leads to the same system |
| `SplitClaim.SplitIsReachable` | worker/fingerprint_worker.py:323-390 | At every moment of such a run, whatever claims are half done, the system is a reachable one of the protocol, so all of the theorems apply to it |
| `SplitClaim.DistinctExactly` | worker/fingerprint_worker.py:349-352 | In every run of the unguarded calls, the claims given out on a job hold distinct attempts if and only if every write on it found what it had read still on record |
| `SplitClaim.WriteKeepsExactly` | worker/fingerprint_worker.py:344-389 | Of a write on record, the protocol's invariant survives if and only if its entry is still pending |
| `SplitClaim.SoundExactly` | worker/fingerprint_worker.py:344-389 | After a sound run the next write is sound if and only if its attempt is new and the invariant survives it |
| `SplitClaim.QuietWindowIsSound` | worker/fingerprint_worker.py:323-390 | A worker whose job is neither claimed by another nor finalised between its read and its write makes a sound write, whatever else happens |
| `SplitClaim.FinaliseInsideWindow` | worker/fingerprint_worker.py:354-390 | A current finalise with any verdict, while another worker has a window open on the job, acknowledges that window's entry; a write that follows breaks the invariant, reports the job as pending and, if it was settled, leaves it in no place |
| `SplitClaim.GoneForGood` | worker/fingerprint_worker.py:354-390 | An acknowledged entry never becomes pending again, so such a window never becomes sound again |
| `SplitClaim.FirstDeliveryNeedsNoGuard` | worker/fingerprint_worker.py:323-345 | While a pending job is not claimed, as after a first delivery, no held claim of it is current, so a finalise can come in between only after a takeover |
| `SplitClaim.SharedWindowSharesAttempt` | worker/fingerprint_worker.py:349-352 | A run from the start in which two workers take the same entry and both read before either writes: both hold attempt 1, both claims are current, and two results are announced |
| `SplitClaim.FinaliseInsideTakeoverIsUndone` | worker/fingerprint_worker.py:354-390 | For every verdict, a run from the start in which the holder finalises between a takeover and its mark_claimed: the invariant breaks and a settled outcome is taken back with the job in no place |
| `Worker.Server.CompleteScript` | worker/fingerprint_worker.py:121-129 | The script's writes on the raw structures are one finalising step, done exactly when the claim is current |
| `Worker.Server.ScheduleRetryScript` | worker/fingerprint_worker.py:140-150 | Likewise for a retry, keyed in the ZSET by the printed job |
| `Worker.Server.FailScript` | worker/fingerprint_worker.py:157-165 | Likewise for a permanent failure |
| `Worker.Server.CommitResultScript` | worker/fingerprint_worker.py:187-216 | Likewise for result hash, state hash, results stream and match index together |
| `Worker.Server.PromoteScript` | worker/fingerprint_worker.py:227-239 | A member still in the ZSET moves to the end of the stream, where it parses as the very job that was delayed; a member that is gone is not promoted again |
| `Worker.HeldClaim` | worker/fingerprint_worker.py:316-352 | A claim held in a valid state has a positive attempt and a job that parses back from what it prints |
| `Worker.Consumer.ClaimOne` | worker/fingerprint_worker.py:316-347 | Takes the next entry in one claim step, rejecting a malformed one at once; does nothing when there is none |
| `Worker.Consumer.TakeOver` | worker/fingerprint_worker.py:366-389 | The writes for one entry of a batch that was handed over at once are one reclaim step |
| `Worker.Consumer.ReclaimStale` | worker/fingerprint_worker.py:354-390 | The whole batch, handed over before any attempt is written, amounts to one reclaim step after the other; each entry is answered by a held claim of its job exactly if it is well formed |
| `Worker.Consumer.Ack` | worker/fingerprint_worker.py:392-408 | A rejected entry is only acknowledged; a claim completes exactly when it is current |
| `Worker.Consumer.HandleTransientFailure` | worker/fingerprint_worker.py:450-492 | While attempts are left a current claim stands in the ZSET under its printed job, due after the base delay times 2 to the power of the earlier attempts or the cap, whichever is less; otherwise it fails with the exhaustion reason; one finalising step either way |
| `Worker.Consumer.ProcessClaim` | worker/fingerprint_worker.py:521-559 | Whatever a handler did, exactly one finalising step follows; the ZSET gains the retry with that due time after a transient failure with attempts left, and is unchanged otherwise |
| `Worker.Server.DueRetries` | worker/fingerprint_worker.py:512-514 | The due members, earliest first, no due member left out unless the batch is full of earlier ones |
| `Worker.Consumer.PromoteDueRetries` | worker/fingerprint_worker.py:501-519 | Distinct due members, ordered by due time, up to the batch size and none passed over, leave the ZSET and join the stream in that order; every other retry stays |
| `Worker.BackoffGrows` | worker/fingerprint_worker.py:450-453 | The first delay is the smaller of base and cap, and each further one the smaller of twice the last and the cap; so delays never shrink |
| `Jobs.RoundTrip` | work_queue/jobs.py:66-125 | A job survives printing and parsing if and only if it is well formed (fields present, techniques non-empty and comma-free, at least one attempt) |
| `Jobs.ParsePrintParse` | work_queue/jobs.py:66-125 | Whatever a worker accepted re-enters the stream as the same job when retried |
| `Jobs.PrintInjective` | worker/fingerprint_worker.py:483-487 | Two accepted jobs share a retry payload only if they are the same job |
| `Jobs.ParseAccepts` | work_queue/jobs.py:81-125 | Exactly which entries are accepted: all required fields given, schema version absent, empty or 1, at least one attempt, techniques not commas only |
| `Jobs.ParsedFields` | work_queue/jobs.py:110-125 | Every field of an accepted job is the entry's own field, the techniques are the parts between its commas without the empty ones |
| `Jobs.ParseNamesMissing` | work_queue/jobs.py:83-85 | An entry with a required field missing or empty is refused for that, with all such fields named |
| `Jobs.ParseRefuses` | work_queue/jobs.py:87-112 | Which error a complete entry gets, in the order in which the code looks |
| `Text.ParseDecimal` | work_queue/jobs.py:103-117 | Reading a printed integer gives it back, negative ones included |
| `Text.SplitJoin` | work_queue/jobs.py:76-119 | Splitting undoes joining when no part holds the separator |
| `Text.JoinSplit` | work_queue/jobs.py:110-110 | And joining undoes splitting on every text |
| `Numerals.DigitsValueExactly` | work_queue/jobs.py:87-108 | Digits in a base are read exactly when underscores stand singly between them, and then as their positional value |
| `Numerals.SpellingIsRead` | old/fingerprint/segment_fingerprint.py:88-92 | With blanks around it, a sign and, in base 16, a prefix, a numeral is read as the positional value of its digits under its sign |
| `Numerals.ReadIsSpelled` | old/fingerprint/segment_fingerprint.py:88-92 | And every text that is read is spelled like that |
| `Idempotency.SortedKeeps` | integration/idempotency.py:42-53 | Sorting the techniques gives a sorted permutation of them |
| `Idempotency.SameIdIff` | integration/idempotency.py:42-53 | Under a hash that does not collide, ids agree exactly when url, target, version and the multiset of techniques do |
| `Submission.JobIdIff` | integration/idempotency.py:42-53 | Two candidates get the same job id if and only if they name the same url, target id and target version and the same techniques in any order |
| `Submission.Submitter.Submit` | integration/submission.py:90-144 | Each outcome exactly under its condition; an admitted candidate is suppressed if and only if a candidate that asks for the same work was enqueued before; only an enqueued submission leaves a marker or an entry behind, and it is the printed job at the end of its own stream |
| `Submission.SubmittedEntry` | integration/submission.py:124-135 | The entry appended holds the candidate's fields, each under its name |
| `Submission.Submitter.ClaimSubmissionMarker` | integration/submission.py:146-154 | True for the first caller only |
| `Admission.AppendIsProduce` | integration/submission.py:123-144 | Every append by a submitter is a Produce step that the protocol allows: its id is not on the stream yet, as a job or as a malformed entry |
| `Admission.AppendedOnceAndBounded` | integration/submission.py:90-154 | In any interleaving of any submitters and any work, a job id is appended at most once, the system stays a reachable one of the protocol, and lag plus pending is at most the limit plus the other submitters plus the retries promoted |
| `Admission.SuppressedExactly` | integration/submission.py:121-154 | In any interleaving, a candidate past the backpressure check is turned away as a duplicate if and only if its job has been appended or another submitter is about to append it |
| `Admission.FailureIsForgotten` | integration/submission.py:135-142 | After an enqueue that fails, the id is neither marked nor appended nor held, so the same candidate can be submitted again |
| `Admission.OutstandingCounts` | integration/backpressure.py:62-84 | The outstanding work is the number of entries that are undelivered or pending |
| `Admission.OutstandingIsReported` | integration/backpressure.py:76-84 | And it is what count_outstanding makes of the group's record |
| `Admission.WorkAdds` | worker/fingerprint_worker.py:227-239 | Of all the workers' steps only a promotion adds outstanding work |
| `Admission.BoundIsAttained` | integration/backpressure.py:72-84 | For every number of submitters, limit and number of promotions a run attains the bound: retries wait outside the figure while the limit is filled and overshot, and come back on top |
| `Admission.WithinSubmittersExactly` | integration/submission.py:105-121 | The limit is passed by no more than the other submitters, over all runs, if and only if nothing has been promoted |
| `Submission.OutstandingOfGroup` | integration/backpressure.py:62-84 | The figure is lag plus pending of the worker group's own record, unknown when the lag is |
| `Submission.OutstandingOfNone` | integration/backpressure.py:76-84 | And 0 when the stream has no such group |
| `Submission.AllowedSchemes` | integration/candidate.py:42-122 | The urls let through are those that begin with http:// or https:// in any case |
| `Submission.ValidationIsExact` | integration/candidate.py:110-132 | Of candidates with plain techniques, those with an allowed url pass validation if and only if they reach the worker as submitted |
| `Submission.AdmittedReachesWorker` | integration/candidate.py:111-132 | A validated candidate reaches the worker as submitted if and only if no technique is empty or holds a comma |
| `Submission.EmptyTechniqueIsRejectedLater` | integration/candidate.py:111-132 | Every valid candidate, its techniques replaced by one empty one, still validates, and the worker rejects its entry |
| `Matcher.ValidateSegments` | matching/matcher.py:60-80 | The first malformed segment is reported, dimension before order |
| `MatcherTheorems.ValidateFinds` | matching/matcher.py:60-80 | Validation passes exactly the lists of one dimension whose indices strictly increase |
| `MatcherTheorems.FirstProblem` | matching/matcher.py:65-80 | The problem named is that of the first segment that spoils the list |
| `Matcher.SelectBest` | matching/matcher.py:193-199 | The dict loop followed by sorting gives the candidate-ordered list that keeps the first best hit of each candidate |
| `Matcher.ExtractRuns` | matching/matcher.py:201-213 | The loop gives the run decomposition of the ordered list |
| `Matcher.MatchSegments` | matching/matcher.py:113-255 | The whole procedure computes the specified result on every input, errors and empty results included |
| `MatcherTheorems.OtherwiseEmptyOrRefused` | matching/matcher.py:144-168 | Without hits an input is refused exactly when both sides are non-empty and one is malformed or the dimensions differ, with the error of the first such check; otherwise the report is the empty one |
| `MatcherTheorems.NoStageIsEmpty` | matching/matcher.py:166-215 | With hits and a tolerance of at least 0 no later stage is empty; with a negative tolerance the maximum over no runs raises |
| `MatcherTheorems.OneHit` | matching/matcher.py:166-181 | A concrete input that meets the hypotheses of the results below together, so none of them is vacuous |
| `MatcherTheorems.OneMatch` | matching/matcher.py:215-255 | And its report: a match of that one pair |
| `Matcher.HitsAre` | matching/matcher.py:166-181 | The hits are exactly the pairs at or above the threshold |
| `Matcher.DominantIsMostFrequent` | matching/matcher.py:183-184 | The offset chosen is that of a hit, none is more frequent, and none as frequent is met before it |
| `Matcher.SelectedAre` | matching/matcher.py:193-197 | A hit is selected if and only if it is the best of its candidate and the first of those |
| `MatcherTheorems.SelectedIsBest` | matching/matcher.py:187-199 | Every consistent hit is beaten by the selected one of its candidate, or ties with it and has no earlier target |
| `Matcher.RunsPartition` | matching/matcher.py:201-213 | The runs put together are the list, each run is linked throughout, and no two neighbours could be merged |
| `Matcher.RunsBreak` | matching/matcher.py:204-211 | A run goes on exactly while the candidate gap is at most max_index_gap and the target does not go back |
| `Matcher.NoLongerStretch` | matching/matcher.py:201-215 | No linked stretch of the list, wherever it lies, is longer than the run chosen |
| `MatcherTheorems.RunExtraction` | matching/matcher.py:166-217 | The reported pairs are a longest linked stretch of the best hits, strictly increasing in the candidate, true hits within tolerance of an offset no other beats |
| `MatcherTheorems.ReportBounds` | matching/matcher.py:183-219 | The mean is never below the threshold, so the decision is the count alone; the count is at most the candidate segments and at most (2 * tolerance + 1) times the target segments; spans on the two sides differ by at most twice the tolerance |
| `MatcherTheorems.ReportedMean` | matching/matcher.py:215-217 | The score is the mean similarity of the reported pairs |
| `MatcherTheorems.GapBounds` | matching/matcher.py:205-211 | Neighbouring pairs are at most max_index_gap candidates apart, and at most twice the tolerance more on the target side |
| `MatcherTheorems.WidestGap` | matching/matcher.py:205-211 | For every configuration an input whose report attains that target gap |
| `MatcherTheorems.GapsAsDocumentedExactly` | matching/config.py:75-81 | Target gaps stay within max_index_gap on all inputs, as documented, if and only if the tolerance is 0 |
| `MatcherTheorems.ReportedTimes` | matching/matcher.py:221-255 | The dictionary look-ups at minimal and maximal indices are the segments of the first and last pair; offset and duration follow from their times |
| `MatcherTheorems.OneDiagonal` | matching/matcher.py:174-255 | If all hits share one offset and no candidate gap is too wide, every hit is reported: dropped segments do not matter |
| `MatcherTheorems.ExactExcerpt` | matching/matcher.py:174-255 | An excerpt of n consecutive segments hitting on one diagonal is reported whole, and matches exactly when n reaches the minimum |
| `MatcherTheorems.ExcerptIsLocated` | matching/matcher.py:227-251 | With uniformly timed segments its temporal offset is the index offset times the duration |
| `WarpingPaths.TableIsLowerBound` | old/matcher/sequence_alignment.py:287-306 | No warping path in the band, to any cell, costs less than the table entry |
| `WarpingPaths.TableIsAttained` | old/matcher/sequence_alignment.py:287-306 | Some warping path in the band costs exactly the table entry |
| `WarpingPaths.CheapestIsMostSimilar` | old/matcher/sequence_alignment.py:296-297 | The cheapest paths are exactly those that fall least short of full similarity, pair by pair |
| `WarpingPaths.EqualSequences` | old/matcher/sequence_alignment.py:296-350 | Whatever the band, two sequences that agree fully pair by pair have mean similarity 1 along every most similar path |
| `WarpingPaths.TiesGoUpThenLeft` | old/matcher/sequence_alignment.py:298-306 | Of equal predecessors the one above is taken, then the one to the left |
| `WarpingPaths.InBandIsFinite` | old/matcher/sequence_alignment.py:156-158 | Every cell inside the band is reachable, whatever the costs |
| `WarpingPaths.PathLength` | old/matcher/sequence_alignment.py:319-331 | A path to the last cell has between max(n, m) and n + m - 1 cells |
| `WarpingPaths.PathCovers` | old/matcher/sequence_alignment.py:319-346 | It visits every segment of both sides |
| `Dtw.FillTable` | old/matcher/sequence_alignment.py:287-306 | The nested loops fill both arrays with the recurrence's values and predecessors, in band and out |
| `Dtw.Backtrack` | old/matcher/sequence_alignment.py:319-331 | The loop ends at the origin and returns a warping path that costs the table's last entry |
| `Dtw.AlignSegmentsDtw` | old/matcher/sequence_alignment.py:265-356 | The path falls least short of full similarity among all in the band, and the similarity reported is the mean similarity along it, 1 for sequences that agree fully; both failure branches are dead; the range is always the whole target and the offset zero |
| `Dtw.ResolveBand` | old/matcher/sequence_alignment.py:156-158 | The half width reaches the last cell, and is the given share of the longer side to within a half unless the difference in length is more |
| `Dtw.AlignmentShape` | old/matcher/sequence_alignment.py:434-501 | With similarities in [0, 1] so is their mean along a path, the clip is the identity, and length and coverage of both sides are as a full alignment must have them |
| `Dtw.WiderBandIsNoWorse` | old/matcher/sequence_alignment.py:156-158 | A wider band never makes the cheapest alignment more expensive |
| `Popcount.PopCount32IsBitCount` | old/matcher/sequence_alignment.py:18-24 | The word-parallel form with its wrap-around counts the one bits of every 32-bit word |
| `Popcount.PopCount64IsBitCount` | old/matcher/sequence_alignment.py:27-33 | And of every 64-bit word |
| `HashSimilarity.FindWidth` | old/matcher/sequence_alignment.py:49-54 | The width is that of the first hash that is not empty, 64 if there is none |
| `HashSimilarity.ToInts` | old/matcher/sequence_alignment.py:68-77 | Every hash is read as specified, unreadable ones as 0 |
| `HashSimilarity.HashSimilarityMatrix` | old/matcher/sequence_alignment.py:36-91 | Every entry of the batch, wide hashes included, is the specified entry for its two hashes |
| `HashSimilarity.EntryIsScalar` | old/matcher/sequence_alignment.py:79-91 | For readable hashes of the batch's length, and always beyond 64 bits, the entry is the scalar similarity |
| `HashSimilarity.UniformBatch` | old/matcher/sequence_alignment.py:36-91 | In a batch of readable hashes of one length the matrix is the scalar similarity throughout |
| `HashSimilarity.AgreeExactlyWhen` | old/matcher/sequence_alignment.py:68-91 | Exactly when the two forms agree, for every pair of strings: ill-sized, empty, unreadable and signed ones included |
| `HashSimilarity.EmptyHashes` | old/matcher/sequence_alignment.py:42-43 | Two empty hashes have similarity 1 and not the documented 0; beside a hash h the entry is 0 if and only if h has every bit set |
| `HashSimilarity.ScalarCountsBits` | old/fingerprint/segment_fingerprint.py:85-96 | The scalar similarity of two readable numerals of one length, signed or not, is their share of agreeing bits, never negative before the cut at 0, and 1 only for the same number |
| `Numerals.DigitTable` | old/fingerprint/segment_fingerprint.py:88-92 | Each of the sixteen hex digits, small or capital, stands for its place in the written-out table |
| `HashDigits.WrittenIsRead` | old/fingerprint/segment_fingerprint.py:88-92 | A hash written with those digits is read as their positional value in base 16 |
| `HashDigits.SimilarityByDigit` | old/fingerprint/segment_fingerprint.py:85-96 | For hashes written with those digits, scalar form and matrix entry are 1 minus the share of the bits in which they differ, counted digit by digit from the table |
| `HashDigits.XorIntBit` | old/fingerprint/segment_fingerprint.py:93-95 | The xor of integers of either sign goes bit by bit over their two's complements |
| `SlidingWindow.NearlyBestCoverage` | old/matcher/sequence_alignment.py:94-125 | The chosen coverage is within 0.1 of that of any window, and no window of equal coverage has a better average |
| `SlidingWindow.ChosenWindow` | old/matcher/sequence_alignment.py:107-125 | The figures returned are the share of the chosen window's similarities that reach the threshold and their mean; no window combines to more and no earlier one to as much |
| `SlidingWindow.CoverageFirst` | old/matcher/sequence_alignment.py:121-125 | For safe lengths and thresholds no window has more coverage than the chosen one |
| `SlidingWindow.ShortCandidates` | old/matcher/sequence_alignment.py:121-125 | Candidates of up to eleven segments are safe at every threshold |
| `SlidingWindow.CoverageLoses` | old/matcher/sequence_alignment.py:121-125 | For every other length and threshold there are similarities for which a window of lower coverage is returned |
| `SlidingWindow.CoverageFirstExactly` | old/matcher/sequence_alignment.py:102-125 | Coverage ranks first for all similarities if and only if there is at most one window or the parameters are safe |
| `EnergyXcorr.PrefixDifference` | old/matcher/sequence_alignment.py:570-571 | The difference of two running sums is the window's sum of squares at every lag, so the cut at 0 does nothing |
| `EnergyXcorr.CauchySchwarz` | old/matcher/sequence_alignment.py:565-575 | The squared dot product never exceeds the product of the energies |
| `EnergyXcorr.NormalisedInUnit` | old/matcher/sequence_alignment.py:549-575 | Every normalised correlation lies in [-1, 1], also where the denominator floor applies |
| `EnergyXcorr.SweepResult` | old/matcher/sequence_alignment.py:549-594 | The reported window is the first that attains the maximum and lies inside the target; the upper clip never applies |
| `EnergyXcorr.NoSweep` | old/matcher/sequence_alignment.py:520-563 | Exactly when there is no sweep, and that nothing is reported then |
| `EnergyXcorr.NormalisedIs` | old/matcher/sequence_alignment.py:565-575 | Without the roots: the square of the correlation is the squared dot product over both energies, with its sign, and under the floor the dot product over the floor |
| `EnergyXcorr.ExcerptLocal` | old/matcher/sequence_alignment.py:549-571 | Under an excerpt the target's energy exceeds the candidate's by the length times the squared difference of the means |
| `EnergyXcorr.ExcerptScore` | old/matcher/sequence_alignment.py:549-575 | An exact excerpt scores positive at its lag, and 1 if and only if its mean loudness is the target's and the floor does not apply |
| `EnergyXcorr.ExcerptScoreExactly` | old/matcher/sequence_alignment.py:549-575 | The exact score of an excerpt and exactly when it reaches a given level, above the denominator floor and under it |
| `EnergyXcorr.SeventyPercent` | old/matcher/sequence_alignment.py:517-519 | The documented 0.70 is reached if and only if 49 times the detuning is at most 51 times the energy |
| `EnergyXcorr.ExcerptBelowSeventy` | old/matcher/sequence_alignment.py:517-519 | A concrete excerpt whose best score over all lags, and so its similarity, is 0.6 |
| `DinoRuns.BuildRuns` | old/matcher/dinov2_matcher.py:70-132 | The runs are exactly the maximal chains of accepted consecutive frames with forward steps of at most max_step, in order, each summarised over all its frames |
| `DinoRuns.RunSteps` | old/matcher/dinov2_matcher.py:113-132 | In a run frames are accepted and step forward by 0 to max_step; the frames beside it do not continue it |
| `DinoRuns.RunOfFrames` | old/matcher/dinov2_matcher.py:83-111 | A run reports the targets of its end frames and the averages over exactly its frames |
| `DinoRuns.AcceptedInRun` | old/matcher/dinov2_matcher.py:113-132 | A frame is accepted if and only if it lies in a run |
| `DinoRuns.InOneRun` | old/matcher/dinov2_matcher.py:113-132 | And in one run only |
| `DinoRuns.ChainFits` | old/matcher/dinov2_matcher.py:113-132 | No chain of frames anywhere is longer than the longest run |
| `DinoRuns.ConsistencyIsOne` | old/matcher/dinov2_matcher.py:92-97 | Every run's temporal consistency is 1, so it never decides between two runs |
| `DinoRuns.BestRun` | old/matcher/dinov2_matcher.py:154-154 | The first run that none is above in length, then cosine, then consistency |
| `DinoRuns.ScoreOfBest` | old/matcher/dinov2_matcher.py:135-170 | The score is the weighted sum of the numbers of the first of the best longest runs, its share of the frames and a full consistency, or of the overall ratio and cosine when there is no run |
| `DinoRuns.QualifiesExactly` | old/matcher/dinov2_matcher.py:227-231 | The final test passes if and only if some run of the greatest length passes it |
| `DinoRuns.LongerRunHidesAGoodOne` | old/matcher/dinov2_matcher.py:188-231 | A concrete input, given by its similarity rows, whose qualifying run is overlooked because of a longer one |

## Left out

- The target registry, its lock and its caches (target/): their source is not part of this model.
- Media download, address checks, ffmpeg and model inference; segment vectors and their similarities are inputs.
- Floating-point rounding: arithmetic is over the reals. Square roots enter as numbers with the given square.
- Clocks and timeouts: idle times, blocking reads, marker and key expiry, latency. Reclaims may happen at any time; the `claimed_at` field of the state hash, which nothing in the protocol reads, is not modelled.
- "Never promoted before due" across concurrent promoters: the scores are read before the script, which does not recheck them. One promoter's selection is proved in `PromoteDueRetries`.
- The two calls that reject a malformed entry are one step; a worker may die before it, not between the two.
- Several priorities: the submitters of `Admission` share one stream.
- Replays of a script by a client that timed out: outside the finalise-once hypothesis.
- Stream trimming: entries stay readable. A trimmed stream's unknown lag is modelled in `CountOutstanding`.
- The printed form of a retry payload is the map of its fields; JSON text is not modelled. The text of a rejection is one constant.
- The job id hash is an arbitrary injective function of the canonical payload; serialisation, SHA-256 and truncation are not modelled.
- Numerals with non-ASCII digits, which Python's int() also accepts.
- A negative numeral assigned to an unsigned array raises OverflowError, as NumPy 2 does; older versions wrap.
- ReadGroup, AutoClaim, MarkClaimed, MarkRejected, Xack: single commands on single structures; they carry no invariant of their own, the methods that call them do.
- Observability, the run loop's order of calls, settings, command line, benchmarks, aggregation across techniques and the SQLite prototype: they would add only easy members.
- The audio feature similarity that fills the time-warping cost matrix: the matrix is an arbitrary input.
