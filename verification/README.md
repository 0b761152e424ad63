# REDACT: a verified model of its core

REDACT finds personal data in log lines and rewrites it under a policy. It keeps a reversible token map
that many processes share, removes the parts of a line that need no further detection, decides with
calibrated thresholds which findings to trust, feeds itself from a Kafka topic, reloads its policy while
running, and scores detectors against labelled data. This project models those parts in Dafny, in the form
the code has: classes and loops where the code changes things in place, functions where it computes, and
step systems where several processes or deliveries interleave. Everything is stated for all inputs, all
runs or all reachable states.

`dafny verify dfyconfig.toml` checks the whole project.

## Files

| file | models |
|---|---|
| `Spans.dfy` | span deduplication and right-to-left replacement |
| `Tokens.dfy` | the token format, Python's `str.replace`, detokenizing |
| `StoreState.dfy`, `TokenStore.dfy` | the in-memory token store, the file provider and `tokenize` |
| `Wal.dfy`, `FileBackend.dfy` | snapshot and write-ahead log on disk; processes, threads and crashes around them |
| `RedisStore.dfy` | unlocked additive saves of many processes to Redis |
| `StaleLoad.dfy` | what a starting process gets from its two unlocked reads of snapshot and log |
| `Recovery.dfy` | durability and the round trip together, across processes |
| `VaultLease.dfy`, `VaultForward.dfy`, `VaultLate.dfy` | the check-and-set lease and the read-merge-write section of the Vault backend; what its two maps keep, what a crash between them leaves and what a holder beyond its lease destroys |
| `Candidates.dfy` | merging detector hits into candidates |
| `ClopperPearson.dfy`, `Precision.dfy`, `Conformal.dfy`, `Auroc.dfy` | the statistical decision rules |
| `Pccf.dfy` | the object that is fitted in either mode and then decides |
| `Sampling.dfy` | how often the bound and the Bonferroni search err on independent draws from any finite distribution |
| `MonotoneStopping.dfy`, `Coupling.dfy`, `Overlaps.dfy`, `FairCuts.dfy`, `SequenceSearch.dfy` | the same for the fixed-sequence search over quantiles of the pool it tests: stopping rules that more successes never trigger, another way of drawing the pool, and the bound they give together |
| `GroupedDraws.dfy`, `PrecisionMode.dfy` | precision mode: a threshold for each pattern seen, and how often any of them errs |
| `Splice.dfy` | excising ranges from a line and mapping hits back, twice nested |
| `Decimal.dfy`, `Kafka.dfy` | document identifiers and the at-least-once consumer |
| `PolicyReload.dfy` | the policy loader and its hot reload |
| `KeyValue.dfy` | the key=value extractor and the printer it reads back |
| `Matching.dfy`, `GoldEntities.dfy` | the scoring loops and the reading of BIO tags |
| `Luhn.dfy`, `Segment.dfy`, `NameFilter.dfy` | check digits, flattened names, the keyed Bloom filter |
| `Sorting.dfy`, `Counting.dfy`, `Optional.dfy` | shared vocabulary |

## What is taken as given

- Keyed digests are functions into 32 hexadecimal characters that do not collide on the originals in play;
  SHA-256 of policy files does not collide on the file contents in play. The round trips ask of token kinds (the
  lower-cased types) that they contain no "tok_" and no digest; `Tokens.TokenizedKindsArePlain` shows it of the
  shipped ones. Everything else about tokens holds for all kinds.
- Detectors, field extraction, the redaction service, JSON parsing, upper-casing and the character classes of
  the patterns are arbitrary functions; detectors report non-empty spans inside the string they are given.
- Floating-point numbers are exact reals, log space is probability space.
- The file provider's `flock` excludes other writers; a snapshot rename and the removal of the log are atomic;
  each of the two reads of a load sees its file at one moment; an append is complete, or torn by a crash or an error.
  Vault's check-and-set and clock are shared by all processes.
- The date suffixes of index names stay fixed during a Kafka run, and the service's answer is a function of the message.

## Where code and comments disagree

- src/anonymize.py:423-426 says a torn append costs at most that one batch. Without a final line break the next
  batch lands on the same line and is lost with it (`Wal.TornAppendCostsTheNext`); the durability theorem counts
  those losses exactly.
- src/anonymize.py:1177-1183 says a missing policy file falls back to the built-in defaults. The code keeps
  whatever is live: after a check without a file the defaults are live exactly when no valid file was ever found,
  or the last one found was the defaults (`PolicyReload.DefaultsAfterDeletionIff`).
- src/policy_watcher.py:134-206 is meant to bring every valid edit into force. An edit made between start-up's load
  (src/service.py:47) and the watcher's first hash (src/service.py:301) is taken as known without having been
  loaded, and no check that finds it unchanged loads it (`PolicyReload.EditsReachWorkerIff`, `PolicyReload.MissedEditStaysMissed`).
- src/anonymize.py:25-29 calls tokenizing genuinely reversible. A stored token that the input text itself spells
  out outside its spans comes back as its original (`StoreState.RoundTripIff`, `StoreState.LiteralTokenIsRewritten`).
- src/pccf.py:43-50 promises precision with probability 1 - delta from testing thresholds of a fixed grid. The code's
  thresholds are quantiles of the pool under test. The promise holds for those too, on independent draws from any
  distribution (`SequenceSearch.FixedSequenceErrsRarely`).
- src/pccf.py:34-39 promises a recall floor for each exact pattern. With nested masks (src/pccf.py:249-251) a pattern's
  threshold is calibrated on all true candidates that have its layers, and the floor is one for those together: all
  that have exactly the pattern can be lost (`Conformal.NestingLosesAPattern`, `Conformal.EnoughOthers`).
- src/anonymize.py:880-888 says that processes sharing a backend are now safe. A starting process loads without the
  lock, snapshot first and log second (src/anonymize.py:411-441). If a compaction renames and removes
  (src/anonymize.py:522-526) between the two reads, it misses entries acknowledged before it started, and
  detokenizing leaves their tokens in the text (`StaleLoad.CompactionHidesAcknowledged`,
  `StaleLoad.MissesWhatWasFolded`). Without a removal in between, as under the lock, it gets exactly what the files
  hold (`StaleLoad.LoadIsExact`).
- src/anonymize.py:690-700 says two processes that save one original write identical values. The reverse hash never
  conflicts, but the forward values agree exactly when the original was found under the same type
  (`RedisStore.ForwardWritesAgreeIff`).
- src/detect.py:701-707 says a hit falls inside one segment because its start does. A hit across a splice keeps
  its length but not its text; staying inside one segment is exactly the condition (`Splice.RemapIsExact`).
- src/queue_consumer.py:359-363, 456-467 leaves the offset uncommitted when processing fails, so that the message is
  redelivered. A later commit of the same consumer moves past it, whether for a message of that partition or, since
  `commit()` stores every position, of any other (`Kafka.CommitMovesPastFailure`). Committed means processed exactly
  on topics where no message that writes something can be followed by one that commits (`Kafka.CommittedMeansProcessedIff`).

## Model

| member | source | states |
|---|---|---|
| Spans.DedupSpans | src/anonymize.py:256-270 | the loop keeps, in start order, each span that clashes with none kept before |
| Spans.DedupKeepsFirstOfEachClash | src/anonymize.py:256-270 | survivors are input spans in order, pairwise disjoint within a type, and every dropped span overlaps a kept one of its type |
| Spans.DedupIdempotent | src/anonymize.py:256-270 | deduplicating twice changes nothing more |
| Spans.ApplyRightToLeft | src/anonymize.py:273-281 | the editing loop computes the right-to-left edit, each transform seeing its span's text at that moment |
| Spans.RightToLeftAssembles | src/anonymize.py:273-281 | for separated spans in any order the edit equals the left-to-right assembly of untouched gaps and replacements of original slices |
| Spans.SpanOrderIrrelevant | src/anonymize.py:273-281 | the input order of separated spans does not matter |
| Tokens.TokenDeterminesOriginal | src/anonymize.py:1048-1049 | a token has one original although its digest does not cover the type |
| Tokens.TokenizedKindsArePlain | src/anonymize.py:1110 | the kinds tokenized by default cannot be mistaken for a token mark |
| Tokens.Detokenize | src/anonymize.py:1068-1076 | the replacement loop applies each entry of the reverse map in the given order |
| Tokens.ReplaceRestores | src/anonymize.py:1074-1075 | if what the other pieces stand for does not spell the token out, one replacement touches exactly the places where that token was put |
| Tokens.ReplaceAllRestores | src/anonymize.py:1068-1076 | any enumeration of a reverse map of which no token strays outside its own places puts back exactly the listed tokens |
| Tokens.EditThenRestore | src/anonymize.py:1062-1076 | replacing separated spans by genuine stored tokens and detokenizing is the identity on every text that does not spell out a stored token outside the spans it replaces |
| Tokens.StraysIffSpelled | src/anonymize.py:1068-1076 | a token can be replaced in the wrong place exactly if the original text spells it out clear of the spans it replaces |
| Tokens.UnlistedStays | src/anonymize.py:1068-1076 | with all of a text's tokens listed but one, the loop does not give the text back |
| Tokens.HarmSpoils | src/anonymize.py:1068-1076 | with one such token in the store, the order that takes it last does not give the text back |
| StoreState.MintKeepsValid | src/anonymize.py:1044-1054 | minting keeps the reverse map genuine and every earlier entry in both maps |
| StoreState.OwnerExists | src/anonymize.py:1048-1051 | over the originals in play each token, of whatever kind, has one global owner, so processes never disagree on reverse entries |
| StoreState.TokenizeIsLookup | src/anonymize.py:1062-1065 | a tokenizing pass is the edit by the final store's forward map |
| StoreState.DetokenizeUndoesTokenize | src/anonymize.py:1062-1076 | detokenize(tokenize(text)) == text for separated spans, any other stored tokens and any iteration order, when the text spells out no stored token outside its spans |
| StoreState.RoundTripIff | src/anonymize.py:1062-1076 | over all iteration orders the round trip holds if no stored token is spelled out outside its spans, and, unless two different ones are, only if |
| StoreState.SpoilingTokenLast | src/anonymize.py:1068-1076 | an iteration order that fails, built from the one token that is |
| StoreState.LiteralTokenIsRewritten | src/anonymize.py:1068-1076 | the failing input for every token: a store that has minted it and a text that spells it out come back as the original |
| TokenStore.FileStorageProvider.LoadAll | src/anonymize.py:411-441 | loading replays the log over the snapshot, skipping unreadable lines |
| TokenStore.FileStorageProvider.SaveSnapshot | src/anonymize.py:443-475 | replaces the snapshot and leaves the log |
| TokenStore.FileStorageProvider.Compact | src/anonymize.py:508-526 | folds the log into the snapshot without changing what load() returns |
| TokenStore.FileStorageProvider.SaveIncremental | src/anonymize.py:477-500 | an empty batch is a no-op; otherwise load() afterwards is the old state overlaid with the batch |
| TokenStore.TokenStore.GetOrCreateToken | src/anonymize.py:1044-1054 | the store moves exactly as minting does and stays valid, and the token returned is the stored one |
| TokenStore.TokenStore.Resolve | src/anonymize.py:1056-1058 | a valid store resolves every token it handed out to the original it was minted for, and answers nothing but originals whose token was asked for |
| TokenStore.TokenStore.Save | src/anonymize.py:941-975 | debounced saves change nothing but the counter; a real save persists the pending batch and clears it |
| TokenStore.Tokenize | src/anonymize.py:1062-1065 | the loop over a live store performs the tokenizing pass of the specification |
| Wal.ReplayOverlays | src/anonymize.py:430-440 | replay over a base is the base overlaid with the log's own effect, so replaying twice is replaying once |
| Wal.SnapshotOfLoadIsInvisible | src/anonymize.py:508-526 | at each crash point of a compaction load() is what it was before |
| Wal.AppendAdds | src/anonymize.py:496-497 | a complete append on a clean log adds its batch; after a torn one it is swallowed |
| Wal.TornAppendCostsTheNext | src/anonymize.py:423-438 | a torn append takes exactly the following batch with it and no more |
| FileBackend.StepKeepsInv | src/anonymize.py:411-526 | every step of every process and thread, crashes included, keeps the system invariant |
| FileBackend.FoldSteps | src/anonymize.py:508-526 | snapshot rename and log removal leave what is readable unchanged |
| FileBackend.AcknowledgedStaysReadable | src/anonymize.py:890-960 | over any run, whatever a save() acknowledged stays in the two files, read at one moment, for good without torn appends; with them, losses are limited to one complete batch per torn append |
| FileBackend.MemoryIsPendingOrStored | src/anonymize.py:1044-1054 | every entry a process holds is still pending or already in the files |
| FileBackend.OnlyAppendsChangeTheFile | src/anonymize.py:477-526 | no step but an append changes what the two files hold together, and a clean append adds exactly its batch |
| StaleLoad.LoadIsExact | src/anonymize.py:411-441 | a process between whose two reads no log was removed starts with exactly what the files hold at the second |
| StaleLoad.MissesWhatWasFolded | src/anonymize.py:411-441 | otherwise it misses, in each map, exactly the keys that the last compaction put into the snapshot and that are neither in the snapshot nor in the log it read, and has the files' originals for the rest |
| StaleLoad.AcknowledgedIsLoaded | src/anonymize.py:888 | what was acknowledged when a process reads the log is in its own reverse map for the rest of its life, if no log was removed between its reads and no append torn |
| StaleLoad.AcknowledgedIsLoadedIff | src/anonymize.py:888 | whatever was removed in between: an acknowledged token is in its reverse map exactly if one of the two reads showed it, and then with its original |
| StaleLoad.CompactionHidesAcknowledged | src/anonymize.py:411-526 | the failing run for any two originals: no torn append, no crash, a token acknowledged before the process exists, and the process starts with an empty store |
| Recovery.AnyLaterProcessRestores | src/anonymize.py:1062-1076 | a text tokenized in one process, once its tokens are acknowledged, is restored from the store of any process that loads later without a log removed between its reads, at any step of its life, if no append was torn |
| Recovery.RestoresIffRead | src/anonymize.py:1062-1076 | a process that has just loaded and knows all tokens of the text but one gives the text back exactly if that token was in the snapshot or in the log it read |
| RedisStore.StepKeepsInv | src/anonymize.py:666-716 | every load, mint, save and crash keeps the shared maps genuine, linked and complete for what was acknowledged |
| RedisStore.AcknowledgedStays | src/anonymize.py:683-716 | without a lock, what a save acknowledged stays readable for good, each token with its original |
| RedisStore.ReverseWritesCommute | src/anonymize.py:688-700 | in every reachable state the saves of two processes commute on the reverse hash |
| RedisStore.ForwardWritesAgreeIff | src/anonymize.py:690-700 | two processes write the same forward value for an original exactly when they saw it under the same type |
| VaultLease.LeaseStep | src/anonymize.py:190-249 | every step of the lock protocol keeps the lease invariant |
| VaultLease.OneUnexpiredHolder | src/anonymize.py:190-227 | two processes inside the section with running leases are the same process, and the record is its own |
| VaultLease.AtMostOneRunningLease | src/anonymize.py:190-249 | in every state of every run at most one lease is running |
| VaultLease.ReleaseNeverClearsAnother | src/anonymize.py:229-249 | a late release leaves another holder's lease untouched |
| VaultLease.StoreReverseStep | src/anonymize.py:814-816 | a save within its lease keeps every stored reverse entry |
| VaultLease.StoredReverseEntriesStay | src/anonymize.py:1030-1042 | if sections end within their ttl, stored and acknowledged reverse entries are never removed, crashes included |
| VaultLate.LateHolderErases | src/anonymize.py:1030-1042 | without that limit it fails: a run, for any two originals, in which a holder paused beyond its ttl overwrites an acknowledged reverse entry |
| VaultForward.ForwardKeysStay | src/anonymize.py:1030-1042 | if sections end within their ttl, a forward key once stored is stored for good, crashes included |
| VaultForward.VaultIsReversible | src/anonymize.py:814-816 | if sections end within their ttl and none crashes or fails between its two writes, every stored forward entry can be reversed whenever nobody is between them |
| VaultForward.CrashLeavesReversibleIff | src/anonymize.py:814-816 | a crash between the writes leaves a reversible vault exactly if all forward values of the merge were reversible before |
| VaultForward.CrashBetweenWritesOrphans | src/anonymize.py:814-816 | a run, for every original and kind, that ends with a process handing out a token nothing can reverse |
| Candidates.BuildCandidates | src/pccf.py:114-140 | the loop over sorted hits builds the specified candidates |
| Candidates.BuildIsOk | src/pccf.py:114-140 | candidates of one type are disjoint, span exactly their members' hull, score each layer by its minimum, and partition the hits |
| Candidates.TogetherIffChained | src/pccf.py:126-139 | two hits share a candidate exactly when a chain of overlapping hits of their type joins them |
| Candidates.HitOrderIrrelevant | src/pccf.py:122-139 | layer order and hit order change no boundary, no membership and no score |
| ClopperPearson.ChooseIsFactorialRatio | src/pccf.py:174-176 | the binomial coefficient is the factorial ratio the log-gamma terms compute |
| ClopperPearson.UpperTailIsTail | src/pccf.py:166-179 | the summed upper tail, with its special cases, is P(X >= k) |
| ClopperPearson.TailMonotone | src/pccf.py:166-179 | the upper tail grows with p |
| ClopperPearson.LowerBound | src/pccf.py:182-194 | the bisection returns a point with tail at most delta, within (k/n)/2^rounds of every such point |
| ClopperPearson.ClopperPearsonLower | src/pccf.py:182-194 | the bound the source computes, with 60 halvings |
| ClopperPearson.OverreachIsImprobable | src/pccf.py:182-194 | a count whose bound exceeds p has tail at most delta at p |
| ClopperPearson.LowerBoundRarelyOverreaches | src/pccf.py:182-194 | for every n, p and delta the bound exceeds p with binomial probability at most delta |
| Precision.FitPrecisionBonferroni | src/pccf.py:306-313 | the loop returns the search's answer over the sorted grid |
| Precision.BonferroniPicksLoosest | src/pccf.py:306-313 | that answer is the loosest threshold whose bound reaches the target, or none if none does |
| Precision.BonferroniErrsAtOverreach | src/pccf.py:306-313 | it can miss the target only by an overreach at some threshold of the grid |
| Precision.FitPrecision | src/pccf.py:290-304 | the loop over the quantile grid stops at the first failure |
| Precision.GridEndsAtMaximum | src/pccf.py:291-296 | the grid increases strictly, holds only scores seen, and ends with the largest of them |
| Precision.FixedSequenceIsPrefix | src/pccf.py:297-304 | its answer ends the longest run of passing thresholds from the strictest on |
| Precision.FixedSequenceErrsAtFirstBad | src/pccf.py:297-304 | it can miss the target only by an overreach at the first bad threshold |
| Sampling.BoundRarelyOverreaches | src/pccf.py:182-194 | on any number of independent draws from any finite distribution, the bound at a threshold exceeds the true precision of what it keeps with probability at most its level, though the number kept is random |
| Sampling.BonferroniErrsRarely | src/pccf.py:306-313 | on independent draws the Bonferroni search settles on a threshold missing the target with probability at most delta |
| SequenceSearch.FixedSequenceErrsRarely | src/pccf.py:290-304 | on independent draws from any finite distribution, over the quantile grid of the pool it tests, the fixed-sequence search settles on a threshold missing the target with probability at most its level |
| MonotoneStopping.SchemeBound | src/pccf.py:297-304 | growing groups of trials of which only the first to stop is tested pass no more often than one test, if more successes never turn going on into stopping |
| Coupling.ChanceBoundByChoices | src/pccf.py:290-304 | if drawing a cell and then one of its two items reproduces the distribution, the chance of an event is at most the largest it has on fixed cells over the choices alone |
| SequenceSearch.FairCells | src/pccf.py:290-304 | every distribution with a bad score can be drawn by cells whose second item is up to a bad score whenever the first is, and the other way round up to a good one |
| SequenceSearch.MissWins | src/pccf.py:297-304 | on fixed cells a miss of the search is a pass of the scheme |
| PrecisionMode.PatternsErrRarely | src/pccf.py:43-50 | on independent draws of candidates, patterns by any key, either search: the chance that any pattern's own threshold misses the target within its pattern is at most delta |
| GroupedDraws.GroupBound | src/pccf.py:242-255 | what holds for any number of independent draws within a group holds for the group's pool among all draws, whatever else was drawn |
| Conformal.JointScoreIsMaximum | src/pccf.py:143-150 | the joint score is the largest layer score |
| Pccf.PCCF.Fit | src/pccf.py:242-288 | in either mode, grouped by mask, all together, by a caller's key or by nested masks: for each group seen, the coverage quantile of its true scores, or the threshold of either search at delta over the number of groups, or what the small-group rule says, with the recorded statistics; nothing for any other group; without candidates the pooled quantile search is an error |
| Pccf.StatsCountAccepted | src/pccf.py:280-287 | grouped by a key, the recorded number kept is that of the group's calibration candidates that accept() keeps |
| Conformal.LeaveOneOutCoverage | src/pccf.py:153-163 | of N true candidates that count toward one group that borrows no threshold, testing each there against a fit on the others rejects at most floor(alpha N), ties included |
| Conformal.MaskCoverage | src/pccf.py:153-163 | the same for the default grouping by presence mask |
| Conformal.NestingLosesAPattern | src/pccf.py:249-251 | with nested masks, for every alpha and m and enough other candidates, all m true candidates of one exact pattern are rejected when left out |
| Pccf.FittedModelsCover | src/pccf.py:316-320 | the same for the models that fit() leaves, as accept() applies them: at most floor(alpha N) have to meet the group and are not accepted |
| Auroc.AverageRanks | validation/real_data/pccf_feasibility_meddocan.py:242-250 | the moving-index loop gives every element of a tie block the block's average rank |
| Auroc.Auroc | validation/real_data/pccf_feasibility_meddocan.py:239-253 | the result is the share of positive-negative pairs won, ties counting half, and None without pairs |
| Auroc.RankSumIsPairs | validation/real_data/pccf_feasibility_meddocan.py:251-253 | the rank sum of the positives counts the pairs they win |
| Splice.KeptOnto | src/detect.py:674-698 | the index map increases strictly onto exactly the uncovered positions |
| Splice.MergedIsUnion | src/detect.py:674-680 | merging keeps the union of the ranges and leaves them apart |
| Splice.MergeRanges | src/detect.py:674-680 | the sort-and-merge loop computes that merge |
| Splice.SpliceExcising | src/detect.py:770-799 | the splice loop returns the text minus the union of the ranges, with its segments |
| Splice.SegmentsCutIndexMap | src/detect.py:682-698 | the segments are the maximal runs of the index map, each a constant shift |
| Splice.RemapIsExact | src/detect.py:701-714 | a remapped hit keeps its length, stays in the text, and avoids all excised ranges exactly when it lies in one segment, then reading the same text |
| Splice.CrossingHitLosesItsText | src/detect.py:711-714 | a hit across a splice can come back with other text |
| Splice.LocateFinds | src/detect.py:627-632 | a field value is located at an occurrence, and missed only if it does not occur |
| Splice.LocateFields | src/detect.py:621-667 | the cursor loop decides for each field value whether and where to excise |
| Splice.BuildNerCandidate | src/detect.py:375-698 | whole text, skip, or the spliced candidate with its segments, under the code's conditions |
| Splice.ExcisedAreMaskedFields | src/detect.py:624-665 | every excised range is a field value under a pattern hit, extended by exactly the `key=` right before it if there is one |
| Splice.SkipLeavesNoLetters | src/detect.py:666-672 | name recognition is skipped only if every field value with a letter overlaps a pattern hit or does not occur |
| Splice.DetectAllFieldGated | src/detect.py:731-767 | the hits of all layers, those behind the splice mapped back, all inside the text |
| Splice.LocateDeclared | src/detect.py:872-897 | declared fields' spans hold the fields' values under the declared types |
| Splice.DetectAllSchemaAware | src/detect.py:802-918 | declared spans plus the remainder's hits mapped back, all inside the text |
| Splice.DeclaredSpansHoldTheirValues | src/detect.py:890-896 | each declared span reads its field's value |
| Splice.DetectionsAvoidDeclaredSpans | src/detect.py:906-918 | a detection behind the splice is disjoint from every declared span exactly when it lies in one segment |
| Splice.NestedIndexMap | src/detect.py:906-918 | the composed index map of two nested splices increases strictly onto the positions neither removed |
| Splice.HitThroughBothSplices | src/detect.py:906-918 | a hit behind both splices keeps its length inside the text, and keeps its text clear of both exactly when it lies in one segment at each level |
| Kafka.DocIdsDiffer | src/queue_consumer.py:446 | document ids are injective in topic, partition and offset, as strings |
| Kafka.AuditIdsDiffer | src/queue_consumer.py:346 | audit ids are injective in document id and index |
| Kafka.DocumentStore.IndexDocument | src/queue_consumer.py:194-236 | a keyed put overwrites |
| Kafka.ProcessEvent | src/queue_consumer.py:291-350 | one complete call performs exactly its planned puts, quarantine and empty message included |
| Kafka.PutsNeverConflict | src/queue_consumer.py:297-350 | no two puts of the whole topic give one key two documents |
| Kafka.StepKeepsInv | src/queue_consumer.py:431-474 | every step of the consumer group keeps the invariant |
| Kafka.StoreIsNeverWrong | src/queue_consumer.py:431-474 | at no moment does the store hold a document that processing each message once would not |
| Kafka.AnonymizedIndexHoldsRedactedText | src/queue_consumer.py:301-329 | in every reachable state the anonymized index holds only text the service returned, never a message it failed on |
| Kafka.RedeliveryIsInvisible | src/queue_consumer.py:431-474 | once every message was completely processed at least once, the store is that of processing each exactly once |
| Kafka.CommittedMeansAttempted | src/queue_consumer.py:456-467 | below the committed offset everything was handled, and all that never failed was done |
| Kafka.CommittedMeansProcessedIff | src/queue_consumer.py:456-467 | on all runs of a topic only processed messages are committed exactly if no message with a put can be followed by an object or an unparseable value, later in its partition or in another |
| Kafka.CommitMovesPastFailure | src/queue_consumer.py:456-467 | for every such pair of messages a run that commits the first without anything of it stored |
| PolicyReload.LivePolicy.LoadPolicy | src/anonymize.py:1165-1278 | the loader answers as specified for every file and replaces the live sets only by a complete policy |
| PolicyReload.DefaultsAreComplete | src/anonymize.py:1106-1128 | the built-in sets are disjoint and cover the canonical types |
| PolicyReload.PolicyWatcher.CheckNow | src/policy_watcher.py:134-206 | one check changes policy, hash and audit log as the state machine does |
| PolicyReload.OnlyReloadsChange | src/policy_watcher.py:153-191 | a rejected or unchanged check leaves sets and hash alone, and rejection is logged |
| PolicyReload.EveryRun | src/policy_watcher.py:134-206 | over any edits and checks the sets stay disjoint and complete, and reloads form an unbroken hash chain from the first hash to the current one |
| PolicyReload.StaysSynced | src/policy_watcher.py:147-181 | the live policy remains that of the content with the known hash |
| PolicyReload.CheckConverges | src/policy_watcher.py:147-181 | a check that finds a valid file leaves exactly its policy live, whatever came before; otherwise the policy stays |
| PolicyReload.LiveIsLastLoaded | src/policy_watcher.py:134-206 | over any run from a state in step, the live policy is that of the last valid file a check has found |
| PolicyReload.Start | src/service.py:301-313 | start-up loads the policy, refuses an invalid one, and starts the watcher on a second look at the file |
| PolicyReload.EditsReachWorkerIff | src/policy_watcher.py:89-155 | every run shows the last valid file exactly if the file hashed at start-up is absent, invalid or has the policy that was loaded |
| PolicyReload.DefaultsAfterDeletionIff | src/anonymize.py:1206-1216 | on any run, after a check without a file the defaults are live exactly if no valid file was ever found or the last one is the defaults |
| PolicyReload.DefaultsDoNotComeBack | src/anonymize.py:1206-1216 | a run: started without a file, given one and then losing it, the worker stays on the lost file's policy |
| PolicyReload.CanonicalTypesAreTreated | src/anonymize.py:1281-1298 | in every reachable state each canonical type has exactly one treatment |
| KeyValue.ExtractKvPairs | src/fields.py:28-43 | the match loop fills the dictionary as specified, later repeats overwriting in place |
| KeyValue.ExtractedValuesAreClean | src/fields.py:36-42 | no extracted value has a word character right before an '=' |
| KeyValue.LastValueWins | src/fields.py:37-43 | the dictionary has one entry per key, holding the value of the key's last occurrence |
| KeyValue.FlattenWindowsEvent | validation/real_data/inject_and_evaluate.py:201-208 | the flattener prints the non-empty fields in the fixed order |
| KeyValue.RoundTripIff | src/fields.py:28-43 | extraction inverts printing exactly when no value holds an inner key |
| KeyValue.FlattenedEventReadsBack | validation/real_data/inject_and_evaluate.py:201-208 | the same for an event and the field order |
| Matching.MatchSpans | src/evaluate.py:31-47 | the gold-outer loop counts the greedy matching, tp+fn = gold and tp+fp = predictions |
| Matching.EvaluateRecord | validation/piibench/evaluate_piibench.py:258-276 | the prediction-outer loop likewise |
| Matching.GreedyIsMatching | src/evaluate.py:36-44 | the greedy assignment is one-to-one between overlapping spans of one type |
| Matching.GreedyIsHalfOptimal | src/evaluate.py:31-47 | it has at least half the pairs of any matching |
| Matching.GreedyIsOptimalOnTidyLists | src/evaluate.py:31-47 | on sorted, internally disjoint lists no matching has more |
| Matching.BothLoopsPairTheSame | validation/piibench/evaluate_piibench.py:258-276 | the two loop orders pair the same spans, on all lists |
| Matching.HalfIsTight | src/evaluate.py:31-47 | for every n, lists sorted by start with tidy predictions where greedy makes n pairs and a matching has 2n |
| GoldEntities.ExtractGoldEntities | validation/piibench/evaluate_piibench.py:132-157 | the walk returns exactly the maximal one-type runs without an inner "B", in order |
| Luhn.LuhnValid | src/detect.py:108-117 | the loop decides divisibility of the weighted digit sum by ten |
| Luhn.SingleErrorIsCaught | src/detect.py:108-117 | any single wrong digit is caught |
| Luhn.SwapIsCaughtUnlessZeroNine | src/detect.py:108-117 | a swap of neighbours passes exactly if they are equal or are 0 and 9 |
| Luhn.CheckDigitUnique | src/detect.py:108-117 | every prefix has exactly one completing digit |
| Segment.OldSegmentMatch | validation/aho_corasick_layer4_verify.py:34-44 | the split loop finds a split into a first and a last name |
| Segment.SegmentMatch | src/flattened_names.py:116-143 | the occurrence-based search answers the same question for every token and dictionary pair |
| NameFilter.HashedNameFilter.Add | src/employee_name_filter.py:216-220 | exactly the name's positions join the set bits |
| NameFilter.HashedNameFilter.MightContain | src/employee_name_filter.py:222-230 | true exactly when all of the name's bits are among those of the names added |
| NameFilter.HashedNameFilter.Save | src/employee_name_filter.py:245-258 | the file describes exactly the filter's history, which is all that loading asks for |
| NameFilter.HashedNameFilter.Load | src/employee_name_filter.py:260-272 | a file that describes a history comes back as a filter with that history |
| NameFilter.IndexInRange | src/employee_name_filter.py:189-220 | byte and bit indices stay in range for every filter size |
| NameFilter.NoFalseNegatives | src/employee_name_filter.py:222-230 | an added name, up to normalisation, is always found |
| NameFilter.HistoryIrrelevant | src/employee_name_filter.py:216-230 | order and repetition of additions leave no trace in the bits |

## Left out

- The Redis save-lock: the Redis provider always takes the unlocked incremental path. The failover windows of asynchronous replication: the code promises nothing there.
- Threads inside one process are interleaved in `FileBackend` only; `RedisStore` takes each process's save as one step.
- `compact()` called without the lock: only its locked call inside `save_incremental` is modelled.
- Operating-system errors while reading or writing files, other than the torn append; a file that is not UTF-8 is modelled in the policy loader only.
- Conformal.LeaveOneOutCoverage: covers 0 < alpha < 1; outside it the code's order statistic has no coverage to state. A small group that borrows the pooled threshold has no coverage of its own, as src/pccf.py:70-74 says.
- PrecisionMode.PatternsErrRarely: for groups by a key, not for nested masks, where the number of groups depends on a group's own draws. Nothing is said of a small group's borrowed or open threshold, as src/pccf.py:70-74 says, and the draws are independent where the source admits that spans of one document are not.
- StoreState.RoundTripIff: when two different stored tokens are spelled out outside their spans, their damage might cancel in some orders; only the direction towards success is stated then.
- TokenStore.TokenStore.Save: the read-merge-write path after src/anonymize.py:975, for providers without incremental saves, is not in this method; `VaultLease` has that section in the Vault backend's form.
- Candidates are values, not objects that the loop mutates; nothing shares them while they are built.
- Empty and reversed detector spans in `Splice` and empty hits in `Candidates.TogetherIffChained`: detectors report text they found.
- The span callback of the schema-aware path and its swallowed exceptions: a side channel for sampling.
- The service's malformed answers (missing keys) in `Kafka`: like any other raised error, they end in an uncommitted failure.
- Growth of the Kafka topic during a run: the topic stands for everything ever published to it.
- Format-preserving encryption, pseudonymization digests and key handling: abstract functions with nothing further to prove.
- The regular-expression tables, language dictionaries, models, HTTP routes, metrics, schema-trust sampling and corpus generators: data and plumbing.
- `_separator_match` and the token pattern of the flattened-name scan: a reading of two branches settles them.
- The cost-driven parts of the PCCF feasibility harness (rules, counts and plots) beside the rank sum.
