# Verified models of the benchmark harness

These Dafny modules model the parts of the benchmark harness whose correctness is easy to get wrong: the streaming
JSON reader, the write-once files and the resumable, sealed runs, the paired statistics, the allocators, the token
budgets, the analysis artifacts, the answer metrics and the two decision-delta counters.  Floats are exact reals, a
hash is represented by what is hashed, and strings are sequences of Unicode scalar values.

| modules | subject |
|---|---|
| `JsonDecoder`, `StreamReader` | RFC 8259 decoding (plus Python's NaN and Infinity) and the chunked array reader |
| `JsonGrammar`, `JsonExact` | the grammar of RFC 8259 as syntax trees with their meanings; the decoder reads exactly these texts |
| `JsonWriter`, `CanonicalJson`, `JsonCompact` | compact writing and its round trip, sorted keys, equality of canonical texts, and which text it is |
| `WriteOnce`, `SharedPids` | the temporary-file and hard-link protocol as interleaved atomic steps with crashes; exactly which shared pids it survives |
| `SafeNames`, `RunModel`, `RunSafety`, `RunResume`, `RunTemps`, `RunLeftovers`, `RunDirectory`, `RunRequest`, `RunExact` | the resumable run: a machine of atomic steps, what every reachable state satisfies, what a seal protects, convergence, exactly which leftover temporaries disturb it, the imperative code that refines it, and which records a call selects |
| `Holm`, `Bootstrap`, `BootstrapReport`, `Pairing`, `PairingExact` | p-value adjustment, the percentile interval and what it reports, alignment by question |
| `Apportionment`, `Hamilton`, `HamiltonExact`, `StratifiedDraw`, `RoundRobin`, `SampleOrder` | largest-remainder allocation and both stratified samples |
| `PyText`, `Packing`, `History`, `ContextExamples` | whitespace tokens and the greedy newest-first context builders, with their texts on a concrete history |
| `AnalysisArtifact` | the content-addressed analysis directory under concurrent callers |
| `Metrics`, `Answers`, `AnswerTexts` | F1 laws and the answer metrics from text to score |
| `GateD`, `RowAgreement` | the two Gate D counters, their order, and exactly when they agree |
| `Sorting`, `Prelude` | stable sorting and its uniqueness; optional values and a few facts about sequences |

## What the proofs show about the code

- The reader is right for every array of objects at every chunk size.  For bare top-level numbers of more than one
  digit it is wrong at some chunk size, and only for those.  Its last check (trailing malformed JSON) is dead.
- A seal protects five files of a publication, and of the other classes the manifest only.  The summary that a sealed run
  returns is not among them: edited afterwards, it is returned as it is.
- The documented guarantee that the allocation sums to `n` fails when all strata are empty and `n` is positive; that is
  the only case.
- Write-once publication is safe for calls that do not overlap under one pid, and for two calls under one pid however
  they overlap.  With three calls or more (four or more when a temporary of that pid already lies about), not all of
  them without content, some interleaving reports success and leaves a file that is not the payload of that call.
  Runners in containers with process namespaces of their own that share a directory can have equal pids; nothing in
  the harness starts threads.
- A crash inside a write, or between linking the file and removing its temporary, leaves the temporary for good.  A
  later call under the same pid then ends without the complete directory exactly when such a temporary lies where it
  would write: a missing sample or snapshot (unless the id occurs again), a derived file such as the summary, the
  manifest of a new run, or the seal (`RunLeftovers.ConvergesIffPassable`, with `RunLeftovers.LeftSummaryDisturbs` for an
  example).  Each call removes a temporary that it trips over, so the number of calls until a run converges is at most
  the number of temporaries of these pids and one more.
- Sample ids are mapped to file names by replacing runs of unsafe characters.  Two ids that collide make the outcome
  depend on the history and can never be sealed, nor can an id whose file name contains the snapshot marker.
- A call that resumes without sample ids is refused as drift exactly when the first call had none either and the
  dataset repeats, beyond the sample limit, an id that was taken.
- The analysis seal hashes texts with universal newlines, so an edit of line endings alone is not detected.  A crash
  between linking the seal and removing its temporary file leaves a directory that is sealed and never accepted; no
  other history of crashes and concurrent calls does.
- The analysis counts at least as many changed decisions as the runner's Gate D.  On the rows that the runner writes it
  counts more exactly when a row has changed only in token counts, candidate or exclusion counts, source failures or the fields of an
  item other than its id, score and reason.
- An exact match does not imply a token F1 of 1: a match through an alternative answer can score less.

## Model

| member | source | states |
|---|---|---|
| `StreamReader.IterJsonArray` | benchmarks/common/normalization.py:280-317 | the chunked reader yields what the recursive description of its passes says, and never ends in the trailing-data error |
| `StreamReader.DrainBuffer` | benchmarks/common/normalization.py:290-309 | one pass over the buffer decodes every item it holds and stops for the stated reason |
| `StreamReader.DatasetsAreRead` | benchmarks/common/normalization.py:280-317 | for every chunk size of at least 1 and every well-formed array of objects the reader yields exactly the elements of the whole-text decoding, in order, and finishes |
| `StreamReader.StreamAgrees` | benchmarks/common/normalization.py:280-317 | the same for every well-formed array whose bare numbers have a single digit |
| `StreamReader.StreamAgreesIffShort` | benchmarks/common/normalization.py:280-317 | agreement at every chunk size holds exactly for the arrays without a longer bare number |
| `StreamReader.StreamDiffers` | benchmarks/common/normalization.py:298-312 | for any longer bare number there is a chunk size at which the reader yields something else |
| `StreamReader.NeverTrailing` | benchmarks/common/normalization.py:313-317 | the trailing-data check after the loop can never fire |
| `StreamReader.DrainPending` | benchmarks/common/normalization.py:290-309 | a pass over any beginning of the pending elements yields a beginning of them and leaves the others pending |
| `StreamReader.DrainCut` | benchmarks/common/normalization.py:298-309 | a buffer that ends inside a long number makes a pass yield a different number at that place |
| `JsonDecoder.ValueAppend` | benchmarks/common/normalization.py:303-307 | decoding a value that does not end in an open number ignores any text appended behind it |
| `JsonDecoder.ValueCut` | benchmarks/common/normalization.py:303-307 | a value whose text ends inside a beginning of the input is decoded alike from that beginning |
| `JsonDecoder.ObjectPrefixFree` | benchmarks/common/normalization.py:303-307 | no proper beginning of an object's text decodes to anything |
| `JsonDecoder.StringAppend` | benchmarks/common/normalization.py:303-307 | string decoding with escapes and surrogate pairs is stable under appended text |
| `JsonDecoder.MembersCut` | benchmarks/common/normalization.py:303-307 | an object body decoded within a longer text is decoded alike on its own |
| `JsonDecoder.ValueEnd` | benchmarks/common/normalization.py:303-307 | what decoding leaves is an end of the text |
| `CanonicalJson.LoadsCanonical` | benchmarks/common/artifacts.py:151-157 | loading the canonical text of any value gives the value with the keys of every object sorted |
| `CanonicalJson.CanonicalIffSame` | benchmarks/common/artifacts.py:151-157 | two values have the same canonical text exactly when they are equal up to the order of their dictionaries, at every depth |
| `CanonicalJson.StreamCanonical` | benchmarks/common/normalization.py:280-317 | a list of objects in canonical form is streamed back with sorted keys and nothing else changed, at every chunk size |
| `JsonExact.DecodesIffDerived` | benchmarks/common/normalization.py:303-307 | a value is decoded off the front of a text exactly when the grammar of RFC 8259, with Python's three constants, derives that text from it: short escapes, four hexadecimal digits in either case, surrogate pairs, numbers, white space and nesting |
| `JsonExact.DocumentsAreStreamed` | benchmarks/common/normalization.py:280-317 | every document of the grammar that is an array of objects is streamed item by item with the values the grammar gives them, at every chunk size |
| `JsonExact.LoadsIffDocument` | benchmarks/longmemeval/run.py:400-402 | json.loads accepts exactly the documents of the grammar, with their values |
| `JsonExact.AsciiRead` | benchmarks/common/normalization.py:303-307 | a string written with an escape for every character outside ASCII, a pair of them beyond the basic plane, is read back code point by code point |
| `JsonGrammar.TreeRead` | benchmarks/common/normalization.py:303-307 | every text of the grammar is decoded, to its meaning, whatever follows it |
| `JsonCompact.CanonicalIffCompact` | benchmarks/common/artifacts.py:151-157 | the canonical form is the one text of the value with sorted keys that has no white space between tokens and escapes only what must be escaped |
| `CanonicalJson.CodesAsStrings` | benchmarks/common/artifacts.py:151-157 | the keys are sorted as strings, by code point |
| `Holm.HolmAdjust` | benchmarks/analysis/bootstrap.py:201-221 | the in-place array version computes the step-down maxima in input order, which for non-negative p-values are the closed-testing values |
| `Holm.TakeRunningMax` | benchmarks/analysis/bootstrap.py:215-217 | the in-place pass leaves the running maximum at every rank |
| `Holm.HolmIsClosedTesting` | benchmarks/analysis/bootstrap.py:201-221 | each adjusted value is the largest, over all subfamilies that contain the hypothesis, of the capped size times the smallest p-value |
| `Holm.ClosedTestUnique` | benchmarks/analysis/bootstrap.py:201-221 | the closed-testing value is unique, so ties may be ordered in any way |
| `Holm.DecisionRule` | benchmarks/analysis/report.py:157-161 | adjusted below the level holds exactly for the hypotheses the sequential step-down procedure rejects |
| `Holm.AdjustedMonotone` | benchmarks/analysis/bootstrap.py:201-221 | raising raw p-values lowers no adjusted p-value |
| `Holm.AdjustedReordered` | benchmarks/analysis/bootstrap.py:201-221 | adjustment commutes with permuting the family |
| `Holm.AdjustedAscend` | benchmarks/analysis/bootstrap.py:201-207 | within a family adjusted p-values do not decrease with the raw ones |
| `Holm.EqualRawEqualAdjusted` | benchmarks/analysis/bootstrap.py:201-221 | equal raw p-values get equal adjusted ones |
| `Holm.AdjustedBounds` | benchmarks/analysis/bootstrap.py:201-207 | adjusted p-values lie between the raw one and 1; a family of one is unchanged |
| `Bootstrap.PairedBootstrapCi` | benchmarks/analysis/bootstrap.py:55-116 | the resampling loop with its tail counters yields the percentile interval of the resampled means, or the three argument errors |
| `BootstrapReport.ReportIff` | benchmarks/analysis/bootstrap.py:55-116 | a result is returned exactly for valid arguments, and it is the one whose estimate is the mean, whose ends are the order statistics of the resampled means at the two ranks, and whose p-value counts the resampled means on the side of zero opposite to the estimate: the smaller of 1 and 2 (1 + count) / (n + 1), or 1 for mean 0 |
| `BootstrapReport.AllPositive` | benchmarks/analysis/bootstrap.py:95-98 | when every difference is positive the p-value is 2 / (n + 1) |
| `Bootstrap.IndexRange` | benchmarks/analysis/bootstrap.py:97-100 | both percentile indices are in range and ordered, and the upper one is n-1 minus the lower one |
| `Bootstrap.IntervalCovers` | benchmarks/analysis/bootstrap.py:96-100 | the interval is ordered and at least (1-alpha) of the resampled means lie in it |
| `Bootstrap.IntervalBounds` | benchmarks/analysis/bootstrap.py:55-116 | estimate and both ends lie between any bounds of the differences, and 0 < p <= 1 |
| `Bootstrap.IntervalMirrors` | benchmarks/analysis/bootstrap.py:55-116 | negating the differences negates the estimate, swaps and negates the ends, and keeps the p-value, errors included |
| `Bootstrap.SortNegated` | benchmarks/analysis/bootstrap.py:96-100 | sorting the negated means is the negated reverse of sorting the means |
| `Pairing.RowsById` | benchmarks/analysis/bootstrap.py:145-154 | the dictionary is built exactly when no question repeats |
| `Pairing.PairingAligns` | benchmarks/analysis/bootstrap.py:157-198 | a pairing lists every question of either method once in ascending order with the difference of its two rows |
| `Pairing.PairingSwaps` | benchmarks/analysis/bootstrap.py:157-198 | swapping the methods keeps the questions and negates the differences, and fails exactly when the other fails |
| `Pairing.PairingReordered` | benchmarks/analysis/bootstrap.py:157-198 | permuting the rows of either method changes nothing |
| `Pairing.CompareSwaps` | benchmarks/analysis/bootstrap.py:266-308 | comparing right with left under the same seed gives the mirrored result |
| `Pairing.CompareReordered` | benchmarks/analysis/bootstrap.py:266-308 | permuting the rows of any method changes no comparison |
| `PairingExact.PairingOutcome` | benchmarks/analysis/bootstrap.py:157-198 | a pairing succeeds exactly when no method repeats a question, both have the same questions, at least one, and every row has the metric; else the first of these that fails is reported |
| `PairingExact.CompareEstimates` | benchmarks/analysis/bootstrap.py:266-308 | the estimate is the mean of the left method minus the mean of the right one |
| `PairingExact.CompareOutcome` | benchmarks/analysis/bootstrap.py:266-308 | which of the errors a comparison ends with, the missing left method first |
| `Apportionment.LargestRemainderAllocation` | benchmarks/longmemeval/stratified_sample.py:72-117 | the allocation is the largest-remainder one; it sums to n exactly when the strata are not all empty or n is 0 (the documented sum guarantee fails otherwise) |
| `Apportionment.Strip` | benchmarks/longmemeval/stratified_sample.py:96-106 | the cyclic strip loop ends with counts that sum to n, none negative and none increased, each reduced by its visits |
| `Apportionment.StripExcess` | benchmarks/longmemeval/stratified_sample.py:96-106 | in the overshoot branch larger strata give up seats before smaller ones and equal ones in alphabetical order, turn by turn |
| `Apportionment.FloorsFit` | benchmarks/longmemeval/stratified_sample.py:91-95 | in exact arithmetic the rounded-down shares never exceed n, so the strip loop is not entered |
| `HamiltonExact.HamiltonIff` | benchmarks/longmemeval/stratified_sample.py:91-117 | an allocation is the algorithm's exactly when every exact share is rounded down or up, the sum is n, a larger remainder is rounded up first, and equal remainders in alphabetical order |
| `HamiltonExact.EqualSizes` | benchmarks/longmemeval/stratified_sample.py:108-117 | strata of equal size differ by at most one seat, and the one that comes first alphabetically has it |
| `Hamilton.Quota` | benchmarks/longmemeval/stratified_sample.py:72-117 | every allocation is its exact share rounded down or up |
| `Hamilton.Capacity` | benchmarks/longmemeval/stratified_sample.py:72-117 | no stratum is asked for more than it has while n is at most the total |
| `Hamilton.LargerGetsNoFewer` | benchmarks/longmemeval/stratified_sample.py:72-117 | a strictly larger stratum never gets fewer |
| `Hamilton.OrderIndependent` | benchmarks/longmemeval/stratified_sample.py:108-117 | the allocation does not depend on the dictionary's order |
| `Hamilton.HamiltonUnique` | benchmarks/longmemeval/stratified_sample.py:108-117 | there is exactly one such allocation |
| `Hamilton.LeastSquares` | benchmarks/longmemeval/stratified_sample.py:91-117 | no other integer allocation with the same sum has a smaller sum of squared deviations from the ideals |
| `Hamilton.LeastDeviations` | benchmarks/longmemeval/stratified_sample.py:91-117 | nor a smaller sum of absolute deviations |
| `StratifiedDraw.StratifiedSample` | benchmarks/longmemeval/stratified_sample.py:120-150 | the drawn sample is sorted, holds the allocated number of every shuffled pool, and has min(n, total) questions |
| `StratifiedDraw.SampleOfStratum` | benchmarks/longmemeval/stratified_sample.py:138-149 | of every stratum exactly its first allocated questions are in the sample |
| `StratifiedDraw.SampleDistinct` | benchmarks/longmemeval/stratified_sample.py:138-150 | distinct questions in, distinct questions out |
| `RoundRobin.StratifiedFailureSample` | benchmarks/analysis/taxonomy.py:188-222 | all failures in order when they are at most the target, else exactly the target number, taken in full rounds and the beginning of one more |
| `RoundRobin.FillSample` | benchmarks/analysis/taxonomy.py:206-217 | the loop over the mutable buckets terminates with exactly the target number |
| `RoundRobin.SampleIsFair` | benchmarks/analysis/taxonomy.py:206-217 | for some level every stratum contributes its first level rows, or level+1, or all it has, in question order |
| `RoundRobin.SampleIsEven` | benchmarks/analysis/taxonomy.py:206-217 | two strata differ by more than one row only when the smaller one is used up |
| `SampleOrder.StrataInOrder` | benchmarks/analysis/taxonomy.py:198-217 | the rounds visit the strata in ascending order of their keys |
| `SampleOrder.QuestionsInOrder` | benchmarks/analysis/taxonomy.py:198-217 | each stratum gives its questions in ascending order |
| `SampleOrder.AllInOrder` | benchmarks/analysis/taxonomy.py:198-204 | when all failures are taken they are listed by stratum, then by question |
| `RoundRobin.SampleIsDrawn` | benchmarks/analysis/taxonomy.py:188-222 | the sample is a sub-multiset of the failures |
| `WriteOnce.WriteOnceIsSafe` | benchmarks/common/artifacts.py:93-121 | in every state of every interleaving, crashes and write errors included, in which the pids are exclusive among the calls in progress or no pid is crowded, at most one call has published, and the target is absent or holds that call's complete payload |
| `WriteOnce.TargetIsStable` | benchmarks/common/artifacts.py:93-121 | once there is a target, neither its inode nor its content changes in any later state |
| `WriteOnce.ExistingTargetWins` | benchmarks/common/artifacts.py:93-121 | whatever pids the calls have, a target that existed before is never replaced and no call reports success |
| `WriteOnce.ReturnedCalls` | benchmarks/common/artifacts.py:93-121 | a call that returned published, met an existing target, met a temporary, found its own removed or failed to write; in the first two cases there is a target, and exclusive pids rule out the removal |
| `WriteOnce.DistinctPidsAreExclusive` | benchmarks/common/artifacts.py:96-104 | writers with distinct pids are exclusive however they interleave |
| `SharedPids.SafeIffNotCrowded` | benchmarks/common/artifacts.py:96-104 | from any beginning every state of every interleaving is safe exactly when the target already exists or no pid is crowded: shared by three calls, four where its temporary already lies about, not all of them with nothing to write |
| `SharedPids.CrowdIsUnsafe` | benchmarks/common/artifacts.py:96-104 | from every crowded beginning without a target there is a run in which a call reports success and the target does not hold its payload |
| `SharedPids.PairsAreSafe` | benchmarks/common/artifacts.py:96-104 | at most two calls under each pid are always safe, also at the same time |
| `WriteOnce.TempInjective` | benchmarks/common/artifacts.py:96 | temporary names of different pids differ from each other and from the target |
| `WriteOnce.TempIs` | benchmarks/common/artifacts.py:96 | the name of one temporary, character by character |
| `WriteOnce.Directory.WriteOnce` | benchmarks/common/artifacts.py:93-121 | one call alone publishes exactly when neither target nor temporary exist, and always removes its temporary |
| `SafeNames.SafeIdFixes` | benchmarks/longmemeval/run.py:1406 | an id is its own file stem exactly when all its characters are safe |
| `SafeNames.SafeIdJoin` | benchmarks/longmemeval/run.py:1406 | parts of an id whose border does not cut a run of unsafe characters are replaced on their own |
| `SafeNames.UnsafeRun` | benchmarks/longmemeval/run.py:1406 | a run of unsafe characters of any length becomes one underscore |
| `SafeNames.SafeIff` | benchmarks/longmemeval/run.py:1406 | the safe characters are ASCII letters and digits, period, underscore and hyphen |
| `SafeNames.Collision` | benchmarks/longmemeval/run.py:1289-1296 | two different ids can share a sample file |
| `RunSafety.SealSafety` | benchmarks/common/artifacts.py:512-561 | in every reachable state a seal means that every expected id has exactly one stored result, the summary is that of the stored samples, and load_finalized accepts |
| `RunSafety.LoadsIffIntact` | benchmarks/common/artifacts.py:550-561 | whatever is done to the root files of a sealed run, load_finalized accepts exactly when every required file is there as it was sealed |
| `RunSafety.EditedRunBreaks` | benchmarks/longmemeval/run.py:405-421 | calling an edited sealed run changes nothing: it is refused when the manifest was changed, breaks off without a summary when another required file was, and returns the summary it finds otherwise |
| `RunExact.SealProtects` | benchmarks/common/artifacts.py:550-561 | in a publication the seal protects the manifest, the snapshot and the three evidence files, and nothing else; in the other classes the manifest alone |
| `RunExact.SealsExactly` | benchmarks/common/artifacts.py:435-464 | an uninterrupted call seals exactly when there are ids and questions, none twice, every id has a sample file of its own that does not look like a snapshot, and a publication has a clean tree |
| `RunSafety.SealedIsAdmissible` | benchmarks/common/artifacts.py:461-462 | in every reachable state a sealed publication is clean, and no sealed run has a repeated id or none |
| `RunSafety.SealedForever` | benchmarks/longmemeval/run.py:418-421 | a sealed directory never changes again, whatever is called |
| `RunSafety.SealedReplies` | benchmarks/longmemeval/run.py:418-421 | a sealed run returns its stored summary for its own manifest and refuses any other |
| `RunSafety.SamplesStay` | benchmarks/longmemeval/run.py:479-508 | no per-sample file changes or disappears once it is present, and the manifest stays |
| `RunSafety.OnlySealableSeals` | benchmarks/common/artifacts.py:435-464 | no history seals a run with colliding ids, repeated or missing ids, or a dirty publication tree |
| `RunResume.Converges` | benchmarks/longmemeval/run.py:380-467 | after any crashes, failed samples and resumes a call without failures ends with the directory of one uninterrupted call, file for file, temporaries aside |
| `RunResume.ConvergesIffSeparate` | benchmarks/longmemeval/run.py:1289-1296 | all histories end alike exactly when no file name serves two ids or two kinds |
| `RunTemps.WorldRunRefines` | benchmarks/common/artifacts.py:93-104 | every run in which crashes inside a write, or between linking a file and removing its temporary, leave temporaries and later writes trip over them passes through the same states, in the same order, as a run of the machine without temporaries |
| `RunTemps.WorldReachable` | benchmarks/common/artifacts.py:93-104 | so every state among temporaries is a reachable one, and has all the invariants |
| `RunLeftovers.ConvergesIffPassable` | benchmarks/longmemeval/run.py:380-467 | whatever temporaries were left, one call without failures ends with the directory of one uninterrupted call exactly when the run is sealed, or no temporary of the call's pid lies in the way of the manifest, of a derived file or of the seal, and every missing sample has more occurrences than temporaries in its way |
| `RunLeftovers.ConvergesIffNothingPending` | benchmarks/longmemeval/run.py:380-467 | when no id repeats, that is exactly when no temporary of this pid lies where the call would write |
| `RunLeftovers.LeftSummaryDisturbs` | benchmarks/longmemeval/run.py:929-976 | the temporary of a summary makes a call under the same pid end without the complete directory |
| `RunLeftovers.RepeatGetsPast` | benchmarks/longmemeval/run.py:380-467 | a sample whose id occurs twice gets past one temporary in the same call |
| `RunTemps.ConvergesUnderFreshPid` | benchmarks/longmemeval/run.py:380-467 | under a pid that left no temporary one call without failures ends with the directory of one uninterrupted call and leaves all temporaries in place |
| `RunTemps.ConvergesDespiteTemporaries` | benchmarks/longmemeval/run.py:380-467 | under any pids, reused or not, one of the first calls, as many as there are temporaries of these pids and one more, ends with that directory |
| `RunResume.SealsIffSealable` | benchmarks/longmemeval/run.py:449-456 | an uninterrupted call seals exactly when the ids have clean file names and the manifest is admissible |
| `RunDirectory.Directory.ProcessSample` | benchmarks/longmemeval/run.py:470-641 | the per-sample code, with a failure at either place, is a run of the machine |
| `RunDirectory.Directory.WriteSummary` | benchmarks/longmemeval/run.py:929-1115 | removing and rewriting the per-method files and the root files one after the other is a run of the machine |
| `RunDirectory.Directory.FinalizeRun` | benchmarks/common/artifacts.py:512-548 | the finalize checks and the seal end like the machine's last phase |
| `RunDirectory.Directory.RunExperiment` | benchmarks/longmemeval/run.py:380-467 | every call keeps the directory reachable, and one without faults ends exactly like the machine run to its end |
| `RunRequest.LoadRecords` | benchmarks/longmemeval/run.py:1216-1228 | the loading loop takes the whole dataset, or its first limit records when no ids are given |
| `RunRequest.RestoredCallRefused` | benchmarks/longmemeval/run.py:405-426 | resuming without ids in the directory of an earlier call with the same configuration is refused as drift exactly when that call had no ids either and a later record of the dataset repeats an id it took |
| `RunRequest.RestoredIdsReselect` | benchmarks/longmemeval/run.py:405-409 | ids restored from the manifest select the same records always after an explicit selection, else exactly when no later record repeats an id taken |
| `RunRequest.SelectedById` | benchmarks/longmemeval/run.py:1216-1270 | explicit ids must all occur in the dataset, and then all records with these ids are taken, whatever the limit |
| `RunRequest.FilteredJoin` | benchmarks/longmemeval/run.py:1259-1270 | explicit ids select part by part, so the order of the dataset is kept |
| `RunRequest.SelectedByLimit` | benchmarks/longmemeval/run.py:1216-1228 | without ids the first records are taken, as many as the limit allows |
| `PyText.SpaceIff` | benchmarks/context_baselines.py:451-452 | white space is the list of characters that str.split splits at |
| `PyText.SplitJoin` | benchmarks/context_baselines.py:451-452 | splitting lines joined by white space gives the words of the lines, in order |
| `PyText.LinesAdd` | benchmarks/context_baselines.py:451-452 | the token count is additive over newline joins |
| `PyText.SplitUndoesJoin` | benchmarks/context_baselines.py:345-349 | splitting undoes joining tokens with spaces |
| `Packing.Pack` | benchmarks/context_baselines.py:105-122 | the newest-first loop accepts the greedy choice and truncates the rest, both returned in chronological order |
| `Packing.GreedyIsBest` | benchmarks/context_baselines.py:105-122 | the accepted set is the lexicographically greatest from newest to oldest among all sets that fit, and the only one |
| `Packing.PickedPartition` | benchmarks/context_baselines.py:105-122 | accepted and truncated lines make up the history |
| `Packing.TokensAccounted` | benchmarks/context_baselines.py:105-122 | the tokens of the lines taken and those reported as truncated are all the tokens of the history |
| `Packing.AssembledTokens` | benchmarks/context_baselines.py:122-133 | reported tokens are those of the question plus those of the accepted lines |
| `Packing.ResultFits` | benchmarks/context_baselines.py:93-133 | reported tokens are the prompt's and never exceed the limit |
| `Packing.ResultIsBest` | benchmarks/context_baselines.py:93-133 | the result is the one assembled from any choice that is best |
| `Packing.FitQuestionFits` | benchmarks/context_baselines.py:340-363 | a question too long is cut to its first tokens, and kept plus cut tokens are all of them |
| `Packing.BuildUnlimited` | benchmarks/context_baselines.py:135-152 | the unlimited builder produces the prompt of all lines |
| `Packing.UnlimitedHasAll` | benchmarks/context_baselines.py:135-152 | without a limit every line is in the prompt, nothing is truncated, and the reported tokens are those of the question plus those of the lines |
| `Packing.LimitedIsUnlimited` | benchmarks/context_baselines.py:88-152 | the limited result is the unlimited one exactly when everything fits |
| `Packing.Build` | benchmarks/context_baselines.py:93-133 | the limited builder produces that result |
| `History.HistoryLines` | benchmarks/context_baselines.py:366-380 | the nested loops list one line per turn in the order of time and id |
| `History.SessionSummaryLines` | benchmarks/context_baselines.py:383-407 | one line per session in the order of time and id |
| `History.FullContextBuilder.BuildContext` | benchmarks/context_baselines.py:88-152 | the full-context prompt holds every turn line when unlimited; else it fits its limit and packs the turn lines best |
| `History.SessionSummaryBuilder.BuildContext` | benchmarks/context_baselines.py:163-210 | the session-summary prompt fits its limit and packs the session lines best |
| `History.Chronological` | benchmarks/context_baselines.py:366-375 | sessions, and turns within a session, are listed by time and id, none lost or invented |
| `History.SessionsInOrder` | benchmarks/context_baselines.py:368-373 | of two sessions the earlier listed is not later in time, and at equal times it comes first by id |
| `History.TurnsInOrder` | benchmarks/context_baselines.py:386-394 | the same for the turns of a session, each at its own time where it has one and else at the session's |
| `History.TurnsComplete` | benchmarks/context_baselines.py:366-380 | the listed turns of a session are its turns |
| `Sorting.StringLeqIff` | benchmarks/context_baselines.py:368-373 | strings are ordered as in Python: a beginning comes first, else the first difference decides by code point |
| `ContextExamples.TurnLinesAre` | benchmarks/context_baselines.py:366-380 | the turn lines of a concrete history, character by character |
| `ContextExamples.SummaryLinesAre` | benchmarks/context_baselines.py:383-407 | the session lines of the same history |
| `ContextExamples.PackedPrompt` | benchmarks/context_baselines.py:105-133 | the prompt that packs these lines into eleven tokens, with its truncation report |
| `ContextExamples.CutQuestion` | benchmarks/context_baselines.py:340-363 | the prompt and the report when only one token of the question fits |
| `History.SameTurns` | benchmarks/context_baselines.py:366-407 | turn lines and session lines stand for the same turns in the same order |
| `History.SessionsReordered` | benchmarks/context_baselines.py:366-407 | permuting sessions without ties in time and id changes no line |
| `History.TurnsReordered` | benchmarks/context_baselines.py:366-407 | permuting the turns of a session without ties changes no line |
| `AnalysisArtifact.SameAnalysis` | benchmarks/analysis/finalization.py:259-272 | two analyses have the same id exactly when configuration and seals agree, whatever the order or role of the seals |
| `AnalysisArtifact.SealedOutputs` | benchmarks/analysis/finalization.py:370-436 | in every state of every interleaving a seal vouches for the complete outputs, and loading accepts exactly when the directory holds just these |
| `AnalysisArtifact.FirstCallSeals` | benchmarks/analysis/finalization.py:439-477 | a first call that is left alone writes every output, seals exactly these, removes its temporary and returns |
| `AnalysisArtifact.EmptyAnalysisFails` | benchmarks/analysis/finalization.py:386-389 | with nothing to write the call fails and leaves an empty directory without a seal |
| `AnalysisArtifact.Frozen` | benchmarks/analysis/finalization.py:439-477 | once nobody is building it, an existing directory never changes: a sealed one stays, a partial one is never completed or sealed |
| `AnalysisArtifact.LoadsIffCleaned` | benchmarks/analysis/finalization.py:357-477 | in every run, a sealed directory that nobody is building is accepted exactly when no caller ever crashed between linking the seal and removing its temporary |
| `AnalysisArtifact.LoadsIffNoTemporary` | benchmarks/analysis/finalization.py:357-436 | in every state of every run a sealed directory is accepted exactly when no caller's temporary lies in it |
| `AnalysisArtifact.RepeatCall` | benchmarks/analysis/finalization.py:439-468 | in every reachable state with a directory that nobody is building a call changes nothing; it returns the artifact exactly when it is sealed and no caller crashed before cleaning, and refuses otherwise |
| `AnalysisArtifact.LeftoverIsForever` | benchmarks/analysis/finalization.py:357-367 | after such a crash no later call accepts or repairs the sealed directory |
| `AnalysisArtifact.EditDetected` | benchmarks/analysis/finalization.py:357-436 | loading accepts exactly the edits that keep the file names and every text up to its line endings |
| `AnalysisArtifact.PlainEditDetected` | benchmarks/analysis/finalization.py:401-436 | without carriage returns every edit, addition or deletion is detected |
| `AnalysisArtifact.UniversalJoin` | benchmarks/analysis/finalization.py:357-367 | outputs are read part by part, as long as no CRLF is cut; with LineEnds, every line ending becomes one newline |
| `AnalysisArtifact.LineEndingsPass` | benchmarks/analysis/finalization.py:357-367 | changing a newline to CRLF is not detected |
| `Metrics.TokenF1Laws` | benchmarks/common/metrics.py:97-114 | the score is symmetric, in [0,1], and 1 exactly for equal token multisets |
| `Metrics.ClosedForm` | benchmarks/common/metrics.py:97-114 | unless both lists are empty it is twice the overlap over the number of tokens |
| `Metrics.EvidenceLaws` | benchmarks/common/metrics.py:65-79 | the same laws on evidence sets; swapping swaps precision and recall |
| `Metrics.EvidenceClosedForm` | benchmarks/common/metrics.py:65-79 | evidence F1 is twice the common keys over all keys |
| `Metrics.EvidenceCounts` | benchmarks/common/metrics.py:65-79 | precision counts the common keys among the predicted ones, recall among the gold ones |
| `Metrics.EvidenceEmpty` | benchmarks/common/metrics.py:69-72 | with no evidence on either side all three scores are 1, with none on one side only 0 |
| `AnswerTexts.PunctuationOf` | benchmarks/common/metrics.py:82-94 | each of the ASCII punctuation characters is dropped, every other character stays; with PunctuationJoin for longer texts |
| `AnswerTexts.TokensAreClean` | benchmarks/common/metrics.py:82-94 | no token of any answer has punctuation, is an article or a number word |
| `AnswerTexts.WordsAreKept` | benchmarks/common/metrics.py:82-94 | of an answer made of words exactly the articles are dropped and exactly the number words replaced |
| `AnswerTexts.UnitWords` | benchmarks/common/metrics.py:11-25 | each number word below twenty stands for its numeral; TenWords says it of the tens and the hundred, OnlyNumberWords that there are no others |
| `AnswerTexts.AlternativesAre` | benchmarks/common/metrics.py:53-62 | the alternatives are the non-blank parts between periods without the white space around them, and there are none when only one part is left |
| `Answers.ComputeAnswerMetrics` | benchmarks/common/metrics.py:36-51 | exact match is a direct or an alternative match; F1 is 1 exactly when the two token multisets are equal, in particular after a direct match |
| `Answers.MatchAlternatives` | benchmarks/common/metrics.py:43-62 | the scan of the alternatives finds a match exactly when there is one |
| `Answers.DirectMatch` | benchmarks/common/metrics.py:36-42 | the joined texts agree exactly when the token lists do |
| `Answers.AlternativeScoresLess` | benchmarks/common/metrics.py:43-62 | with the program's own number words an alternative match can have an F1 of two thirds |
| `GateD.RunnerImpliesAnalysis` | benchmarks/experiments/ablation.py:757-777 | a question the runner counts as changed is counted by the analysis |
| `GateD.AnalysisCountsMore` | benchmarks/analysis/ablation.py:53-68 | the converse fails for a change of token counts |
| `RowAgreement.AnalysisIffRunnerOrUnseen` | benchmarks/analysis/ablation.py:108-139 | on the rows that the runner writes the analysis counts a question exactly when the runner counts it or something has changed that the runner does not look at |
| `RowAgreement.CountsAgreeIff` | benchmarks/analysis/ablation.py:121-139 | on such rows the two counts are the same exactly when no compared row has changed only where the runner does not look |
| `RowAgreement.RunnerSees` | benchmarks/experiments/ablation.py:724-777 | on such rows the runner counts no change exactly when every field in its view is the same |
| `GateD.AnalysisCountsAtLeast` | benchmarks/analysis/ablation.py:121-139 | the analysis counts at least as many questions as the runner |
| `GateD.ArmDeltas` | benchmarks/experiments/ablation.py:707-745 | the counting loop, with the exception on malformed rows |
| `GateD.RunnerGate` | benchmarks/experiments/ablation.py:779-789 | the gate passes exactly when no comparison raises and the first arm of every required factor changed a decision |
| `GateD.FactorDelta` | benchmarks/analysis/ablation.py:223-277 | the largest count over a factor's arms is positive exactly when one of them changed a decision |
| `GateD.ActivationIssues` | benchmarks/analysis/ablation.py:280-298 | there are no activation issues exactly when every factor is active |
| `GateD.IssuesAre` | benchmarks/analysis/ablation.py:280-298 | a factor is reported as missing exactly when no arm declares it, and as inactive exactly when it is declared and none of its arms changed a decision |
| `GateD.BooleansAreNumbers` | benchmarks/experiments/ablation.py:724-777 | compared values are equal as in Python, where True is 1, False is 0 and an integer equals its float |
| `GateD.KindsDiffer` | benchmarks/experiments/ablation.py:724-777 | null, numbers, strings, lists and dictionaries are never equal across kinds |
| `GateD.TruthyIff` | benchmarks/experiments/ablation.py:707-745 | a value is falsy exactly when it equals None, zero or an empty string, list or dictionary |
| `GateD.GatesAgree` | benchmarks/analysis/ablation.py:280-298 | a family that passes the runner's gate raises no activation issue |

## Left out

- Extraction, ETEC consolidation, QEMR retrieval, routing, model clients and caches: their sources are not part of this model; a per-sample result is represented by its manifest and id.
- Reports, CSV, SVG, argument parsing, pydantic field validation, subprocess and git calls.
- Rounding of floats: all arithmetic is exact, so the overshoot branch of the allocator is reached only through `Apportionment.Strip`, which is proved for any non-negative counts above n.
- Hash functions: distinct contents are taken to have distinct hashes.
- Random generators: the bootstrap draws from an arbitrary index stream fixed by the seed, and the shuffle is an arbitrary permutation of each pool.
- Malformed arrays, chunk sizes below 1 and Python's limits on recursion and on the digits of an integer; numbers are kept as their text, so `1` and `1.0` are different values, and object members are a list, in which a name may repeat except where `CanonicalJson.CanonicalIffSame` asks for a dictionary; question ids are strings.
- Malformed UTF-8 and lone surrogates in written text: files are sequences of characters.
- `extraction_only` runs and the LoCoMo runner, which repeats the protocol.
- RunResume.Converges: leaves out time stamps and latencies, which differ between runs by design, and temporaries, for which RunLeftovers.ConvergesIffPassable gives the exact condition.
- RunDirectory.Directory.RunExperiment: models failures but not crashes, which only the step machine has.
- The run machine writes each file in one step, as `WriteOnce` justifies for a single runner; `RunTemps` and `RunLeftovers` add the temporaries of crashed writes.
- Case-insensitive file systems, on which further ids collide.
- A stored manifest or seal that another program has damaged; the analysis artifact's edits are covered by AnalysisArtifact.EditDetected.
- Answers.ComputeAnswerMetrics: takes lower-casing and the classification of word characters as given functions, because the Unicode tables are not modelled.
- GateD.RunnerGate: reads rows as a dictionary by question with string ids, has no NaN, and takes arm names to be distinct with the base arm named `base`.
- LoCoMo's own session-summary builder and the vector prompt, which charge tokens before adding labels.
- `Bootstrap.IntervalCovers` speaks of the resampled means only; statistical coverage of the true mean is not a property of the code.
