# WorldZK prover core: a verified model

This project models the algorithms and state machines at the core of a zkVM
prover and its SDK, and proves what they promise. One Dafny module stands for
one component of the program. Code that changes state step by step is an
imperative method or a class proved against a specification; concurrent code
is in addition a state machine with one step per lock section or atomic
access, and its properties are proved of every run of any number of tasks.

| module | component |
|---|---|
| Glob, RuleEngine | the greedy wildcard matcher with one backtrack point, conditions and rules, and the guest program they mirror |
| WordCodec, XGBoostFormat, RuleEngineFormat, InputWriters | the risc0 word format, the records in it and the loops that write them |
| XGBoostDecomp, InputDecomposer | split an input, prove the parts, merge the journals |
| Prefetch | the input prefetcher as a class and as an interleaved protocol |
| ProofCacheKeys, ProofCache, ProofCacheRuns | the LRU memory over disk with a time to live, sequentially and interleaved |
| Nonce, JobRunner | the lock-free nonce manager, the retry loops and the job from fetch to submission |
| JobQueue | scoring, admission, displacement and removal |
| Concurrency, FairConcurrency | the two-stage semaphore manager, and the same with waiters served in order |
| NestedDevices, NestedProgress, NestedBatches | when progress is lost as a job draws a second device, and how large a batch is safe |
| Basics, Sums | shared types, and sums and counts over sequences |
| EventWatcher | log parsing, cursor polling and the watch loop |
| SegmentPlanning | the strategy planner against the segment engine's limits |
| HostParser, DecimalText | host extraction against printed URLs; decimal printing with an in-place reversal |

Time is an argument of the operations that read a clock. Hashes, scores, f64 bit
patterns, RPC answers, disk writes and proofs are parameters or nondeterministic
outcomes. Machine integers are written out with their width where it matters
(32-bit journal totals, 64-bit nonces, queue totals and cycle products).

## What turned out not to hold as stated

Each is kept as the code has it, with the exact condition proved.

- The matcher's literal test precedes its star test, so a star byte in the text is consumed literally. The loop is the glob exactly for texts without a star byte (`ExactForText`).
- The script's rule evaluator is documented as the guest's; a rule without conditions is true in the script and false in the guest, and a missing field raises in one and is false in the other (`MirrorsGuest`).
- The prefetcher's byte counter drifts above the true size exactly when an insert replaces a non-empty entry (`CounterExact`, `CounterCanDrift`).
- The memory cleanup drops a proof one comparison earlier than `get` stops serving it, so without a disk a live proof can be dropped at exactly the time to live (`CleanupAgainstServing`).
- The pending count of the nonce manager is exact after a sync if and only if nothing was held or leaked when the sync stored zero (`ExactSinceSync`, `PendingExact`), and a sync on behalf of an attempt holds that attempt; `OwnSyncUnderflows` is a run in which the count wraps below zero. The comment at `prover/src/nonce.rs:137` speaks of decrementing the nonce; the code syncs.
- The comment at `prover/src/queue.rs:193` speaks of the worst job; the heap's peek is the maximum, and that is what a full queue gives up (`Push`).
- Drawing a second device from the same manager can wait for the device already held (`SelfWaitReachable`), always so with one device (`OneDeviceAlwaysWaits`), or two jobs for each other's (`MutualWaitReachable`). Everybody can still finish if and only if no jobs wait in a circle (`ProgressExactly`), and a batch is safe if and only if there are two devices for each of its jobs (`BatchSizeExactly`).
- The watch loop moves its cursor past a window whose logs could not be fetched; those blocks are lost (`WatchComplete`).
- The least int prints as a bare sign (`IntToStr`).

## Model

| member | source | states |
|---|---|---|
| Glob.GlobMatch | scripts/verify-rule-engine.py:28-47 | the two loops return what the scan specification says, terminate, accept only declarative matches, and on text without a star byte accept exactly those |
| Glob.GlobSound | scripts/verify-rule-engine.py:28-47 | for every pattern and text, a true answer is a match of the recursive glob meaning |
| Glob.GlobComplete | scripts/verify-rule-engine.py:28-47 | on text without a star byte, one backtrack point finds every match |
| Glob.ScanSound | scripts/verify-rule-engine.py:31-44 | from any cursor state, acceptance means a match at the cursors or at the remembered star |
| Glob.ScanComplete | scripts/verify-rule-engine.py:31-44 | from any state in which pattern and text advanced in step since the last star, a possible match is found (leftmost-match argument) |
| Glob.SegmentMatches | scripts/verify-rule-engine.py:32-34 | a star-free piece of a pattern matches exactly where it fits byte for byte and the rest matches after it |
| Glob.ExactForText | scripts/verify-rule-engine.py:32-38 | for a given text, the loop decides every pattern correctly if and only if the text has no star byte (the literal test runs before the star test) |
| Glob.ExactForPattern | scripts/verify-rule-engine.py:32-38 | for a given pattern, the loop decides every text correctly if and only if the pattern has no star |
| Glob.GlobMeans | scripts/verify-rule-engine.py:28-47 | a glob by its first byte, with no positions: nothing matches nothing, `*` takes any run, `?` any one byte, any other byte itself |
| Glob.WildcardBytes | scripts/verify-rule-engine.py:32-35 | the two wildcards are the bytes `*` and `?` |
| RuleEngine.GlobConditions | scripts/verify-rule-engine.py:60-69 | on star-free text the globs q, q*, *q and *q* of a wildcard-free q are the equality, prefix, suffix and contains conditions, missing fields included |
| RuleEngine.IntConditionMeans | scripts/verify-rule-engine.py:52-59 | operators 0 to 5 compare the field with the value by ==, !=, >, >=, < and <=, any other is false, and only a missing field raises |
| RuleEngine.StringConditionMeans | scripts/verify-rule-engine.py:60-70 | on every text equality, contains, prefix and suffix hold exactly when the field splits round the value accordingly; a glob on star-free text by its meaning; an unknown condition type is false |
| RuleEngine.RuleMeaning | scripts/verify-rule-engine.py:72-78 | a rule is true exactly when it is empty, all conditions hold (AND), or the first deciding condition holds (OR); it raises exactly when the deciding condition's field is missing |
| RuleEngine.MirrorsGuest | examples/rule-engine/methods/guest/src/main.rs:263-356 | script and guest agree if and only if the rule has conditions and evaluation reaches no missing field |
| WordCodec.EncodeAligned | scripts/generate-test-input.py:27-106 | every encoding is a whole number of 32-bit words |
| WordCodec.DecodeEncode | prover/src/xgboost_decomp.rs:81-98 | decoding an encoded in-range value followed by any bytes gives the value and those bytes |
| WordCodec.EncodeDecode | prover/src/xgboost_decomp.rs:87-98 | whatever is read is the encoding of the value read followed by what is left |
| WordCodec.DecodesExactly | prover/src/xgboost_decomp.rs:81-98 | the decoder accepts exactly the encodings of in-range values, followed by anything |
| WordCodec.RoundTrip | scripts/generate-test-input.py:27-106 | the round trip holds if and only if numbers have their declared width and vectors fewer than 2^32 items |
| WordCodec.UniquelyDecodable | scripts/generate-test-input.py:27-106 | no encoding is a prefix of a different value's: equal streams have equal values and equal remainders |
| WordCodec.LittleEndianRoundTrip | scripts/generate-test-input.py:27-33 | little-endian packing of a number that fits is read back |
| WordCodec.EncodeItemsSnoc | scripts/generate-test-input.py:80-106 | appending one item's bytes is encoding the list with that item appended |
| WordCodec.WordBytes | scripts/generate-test-input.py:27-33 | a word is its four bytes, lowest first |
| WordCodec.NumbersWritten | scripts/generate-test-input.py:27-45 | a byte and a 32-bit number are one masked word, wider numbers two with the low one first, negatives their two's complement |
| WordCodec.ShapesWritten | scripts/generate-test-input.py:56-106 | a vector is its length and its items in order, an array its items alone, a record its parts in order |
| InputWriters.WriteByteArray32 | scripts/generate-test-input.py:56-62 | the loop writes the fixed array's encoding, and fails exactly for a length other than 32 |
| InputWriters.WriteVecU8 | scripts/generate-test-input.py:80-85 | the loop writes the byte vector's encoding |
| InputWriters.WriteVecF64 | scripts/generate-test-input.py:87-92 | the loop writes the encoding of a vector of 64-bit float patterns |
| InputWriters.WriteVecI64 | scripts/generate-test-input.py:94-99 | the loop writes the encoding of a vector of signed 64-bit numbers |
| InputWriters.WriteVecVecU8 | scripts/generate-test-input.py:101-106 | the nested loops write the encoding of a vector of byte vectors |
| InputWriters.WriteRulesInput | scripts/generate-test-input.py:481-511 | the loops write exactly the encoding of the rule-engine input: records, rules and aggregations, in this order |
| InputWriters.WriteXGBoostInput | scripts/generate-test-input.py:592-621 | the loops write exactly the encoding that the decomposer decodes: the model's numbers, trees, samples and threshold, in this order |
| InputWriters.WriteNode | scripts/generate-test-input.py:604-610 | the six fields of a tree node, in this order and of these widths |
| InputWriters.WriteSample | scripts/generate-test-input.py:614-616 | a sample is its id and then its features |
| InputWriters.WriteRecord | scripts/generate-test-input.py:485-488 | a record is its id, then its integer fields, then its strings |
| InputWriters.WriteCondition | scripts/generate-test-input.py:495-500 | the five fields of a condition, in this order and of these widths |
| InputWriters.WriteRule | scripts/generate-test-input.py:492-502 | a rule is its conditions and then how they combine |
| InputWriters.WriteAgg | scripts/generate-test-input.py:506-509 | the three fields of an aggregation, in this order |
| RuleEngineFormat.RulesInputDecodesExactly | scripts/generate-test-input.py:481-511 | bytes decode to a rule-engine input and a rest if and only if they are its encoding followed by that rest and every number and length fits |
| RuleEngineFormat.RulesInputAligned | scripts/generate-test-input.py:481-511 | the encoding of a rule-engine input is whole words |
| XGBoostFormat.InputDecodesExactly | prover/src/xgboost_decomp.rs:87-118 | bytes decode to an XGBoost input if and only if they are whole words starting with its encoding and it fits the format |
| XGBoostFormat.OutputDecodesExactly | prover/src/xgboost_decomp.rs:87-98 | the same for the output journal |
| XGBoostFormat.InputRoundTrip | prover/src/xgboost_decomp.rs:81-98 | an input comes back from its bytes if and only if it fits, and the bytes are whole words |
| XGBoostFormat.OutputRoundTrip | prover/src/xgboost_decomp.rs:81-98 | an output comes back from its bytes if and only if it fits |
| XGBoostFormat.OutputLayout | prover/src/xgboost_decomp.rs:81-85 | the journal's five fields in the order in which they are written |
| XGBoostFormat.PredictionLayout | prover/src/xgboost_decomp.rs:81-85 | a prediction is its id, its score and its flag |
| XGBoostDecomp.Split | prover/src/xgboost_decomp.rs:136-174 | the chunk loop returns the encodings of the sub-jobs, as many as asked for or as there are samples if fewer; undecodable and empty inputs each have their error |
| XGBoostDecomp.CutSamples | prover/src/xgboost_decomp.rs:151-171 | the offset loop cuts exactly the chunks of the even shares |
| XGBoostDecomp.SplitPartitions | prover/src/xgboost_decomp.rs:136-174 | the samples of the sub-jobs, concatenated, are the samples of the input in order |
| XGBoostDecomp.SplitBalanced | prover/src/xgboost_decomp.rs:146-171 | each sub-job has the model and threshold of the input; two sub-jobs differ by at most one sample, and an earlier one is never the smaller |
| XGBoostDecomp.NoChunkEmpty | prover/src/xgboost_decomp.rs:144-150 | with at most as many chunks as samples, no sub-job is empty |
| XGBoostDecomp.MergeJournals | prover/src/xgboost_decomp.rs:176-206 | the merge loop with its 32-bit totals computes the merge of the decoded journals, or the index of the first that does not decode |
| XGBoostDecomp.MergeMeans | prover/src/xgboost_decomp.rs:176-206 | of any journals: totals added in 32 bits, predictions and flagged ids concatenated in order, flagged counted anew, and the first hash that is not zero |
| XGBoostDecomp.GuestCommits | prover/src/xgboost_decomp.rs:176-206 | the journal assumed of the guest: one prediction a sample in order, and the ids of exactly the flagged ones |
| XGBoostDecomp.MergeByGroups | prover/src/xgboost_decomp.rs:176-206 | merging group by group and then the groups is merging everything at once |
| XGBoostDecomp.MergeRuns | prover/src/xgboost_decomp.rs:176-206 | however samples are cut into pieces, merging the runs on the pieces is the run on all samples but for the hash |
| XGBoostDecomp.SplitProveMerge | prover/src/xgboost_decomp.rs:136-206 | for every scoring function and n >= 1, merging the sub-jobs' journals equals the whole journal in all fields but the hash, which is the first sub-job's |
| XGBoostDecomp.SplitProveMergeBytes | prover/src/xgboost_decomp.rs:136-206 | the same end to end over bytes: split, run the guest on each part, merge, decode |
| InputDecomposer.PlanSplit | prover/src/input_decomposer.rs:223-253 | the planned count is between 1 and max(1, min(limit, items)); with an estimate it is the clamped quotient |
| InputDecomposer.ArrivalOrderIsIrrelevant | prover/src/input_decomposer.rs:334-342 | whatever order sub-proofs arrive in, sorting by index puts sub-proof i at place i |
| InputDecomposer.ProveAll | prover/src/input_decomposer.rs:290-340 | succeeds exactly when every part is proved; the results are numbered in order, and a failure names the first part that failed |
| InputDecomposer.ProveParts | prover/src/input_decomposer.rs:290-376 | journal i is that of part i and the merge is of exactly those; otherwise a failed proof or an undecodable journal is to blame |
| InputDecomposer.ProveDecomposed | prover/src/input_decomposer.rs:256-376 | over samples s and trees t: unsuitable exactly for small, undecodable or single-sample inputs; one sub-job exactly when (1000 s t + 5,000,000) / target or the limit is below two; otherwise that quotient, the limit or s, whichever is least, is the number of journals delivered in chunk order |
| InputDecomposer.PlanMeans | prover/src/xgboost_decomp.rs:208-216 | the planned count in samples, trees, target and limit, with the estimate wrapping at 64 bits |
| InputDecomposer.Wrap | prover/src/monitor.rs:1011-1026 | wrapping succeeds exactly when the wrapper is available, takes the count and succeeds, with the merged journal; otherwise the first check that fails is the cause |
| InputDecomposer.ChooseProof | prover/src/monitor.rs:798-839 | the wrapped proof is submitted exactly when the wrapper is available, takes the count and succeeds, the single sub-proof exactly when there is one and wrapping failed; each refusal has its cause, a missing wrapper before any count check |
| InputDecomposer.DecomposeAndWrap | prover/src/monitor.rs:782-842 | whatever the limits, the single-sub-job arm is never taken; the count check fires exactly when the wrapper is available and its limit is below the count, so never when the plan's limit is within it |
| InputDecomposer.DecomposeByDefault | prover/src/recursive_wrapper.rs:146-156 | with the default limits an input of at least 4096 bytes and two samples is split if and only if samples times trees reach 35,000; what is delivered has 2 to 16 sub-jobs, the wrapper's count check never fires and the single-sub-job arm is unreachable |
| InputDecomposer.DefaultPlanSize | prover/src/input_decomposer.rs:223-253 | by default a decomposable input is planned into at most 16 parts, and into at least two exactly when its estimate reaches 40 million cycles |
| InputDecomposer.HonestDecomposition | prover/src/input_decomposer.rs:256-376 | with a prover that returns the guest's journals, the merged journal is that of the whole input but for the hash |
| InputDecomposer.HonestNeverBlamed | prover/src/input_decomposer.rs:279-349 | with such a prover no part fails and no journal is undecodable, so every worthwhile input is delivered |
| Prefetch.InputPrefetcher.Insert | prover/src/prefetch.rs:168-203 | evicts oldest first, and only if needed, until the entry fits or nothing is left, leaves the others as they are and stores the new one; the counter stays at least the bytes cached |
| Prefetch.InputPrefetcher.MakeRoom | prover/src/prefetch.rs:174-190 | the eviction loop removes oldest entries first, none more than needed, until the new entry fits or nothing is left |
| Prefetch.InputPrefetcher.EvictOldest | prover/src/prefetch.rs:176-186 | one eviction removes an oldest entry and exactly its bytes from the counter, without underflow |
| Prefetch.InputPrefetcher.AlreadyCached | prover/src/prefetch.rs:123-130 | the first section tells whether the URL is cached |
| Prefetch.InputPrefetcher.TryClaim | prover/src/prefetch.rs:132-139 | claims a URL exactly when no one is fetching it |
| Prefetch.InputPrefetcher.Release | prover/src/prefetch.rs:147-151 | removes the URL, and no other, from those in progress |
| Prefetch.InputPrefetcher.OldestKey | prover/src/prefetch.rs:176-180 | returns an entry with the least fetch time |
| Prefetch.InputPrefetcher.GetCached | prover/src/prefetch.rs:221-245 | answers the cached bytes if and only if the URL is cached, no older than the time to live and stored under the hash asked for |
| Prefetch.InputPrefetcher.Stats | prover/src/prefetch.rs:248-259 | reports the entry and in-progress counts exactly and a byte count that is at least the true one |
| Prefetch.StepKeepsInv | prover/src/prefetch.rs:122-214 | every lock section of every task keeps the invariant |
| Prefetch.EveryRunSafe | prover/src/prefetch.rs:122-214 | in every interleaving: one fetch per URL, counter = bytes cached + bytes ever overwritten, limit kept unless one entry is all there is, stored hashes authentic |
| Prefetch.ServedDataIsAuthentic | prover/src/prefetch.rs:221-245 | at any point of any run, data served has the hash asked for and is within its lifetime |
| Prefetch.InsertedIsServed | prover/src/prefetch.rs:192-241 | from the step that inserts a URL until its entry is evicted or replaced, a query under its digest gets exactly those bytes for the time to live, and nothing otherwise |
| Prefetch.CachedWasAskedFor | prover/src/prefetch.rs:155-163 | nothing is ever cached whose hash no job asked for under its URL |
| Prefetch.EveryRunBounded | prover/src/prefetch.rs:285-325 | no task holds and no entry stores more than the largest input allowed |
| Prefetch.FetchesOnlyWhatIsMissing | prover/src/prefetch.rs:123-163 | a task goes on to fetch exactly when nothing is cached and nobody is fetching, and drops data of another hash |
| Prefetch.CounterExact | prover/src/prefetch.rs:165-203 | the counter is the true size if and only if every insert so far found its URL evicted, absent or stored with no bytes |
| Prefetch.OverwrittenByInserts | prover/src/prefetch.rs:192-202 | the bytes overwritten are zero if and only if no insert of the run replaced a non-empty entry |
| Prefetch.CounterCanDrift | prover/src/prefetch.rs:147-202 | a concrete interleaving of two tasks for one URL after which the counter exceeds the true size |
| ProofCacheKeys.FileNamesDistinct | prover/src/proof_cache.rs:55-63 | two keys have one file name only if they are the same key |
| ProofCacheKeys.HexInjective | prover/src/proof_cache.rs:55-63 | hexadecimal text determines the bytes |
| ProofCacheKeys.FileNameMeans | prover/src/proof_cache.rs:55-63 | a file name is both hashes in hexadecimal, high digit first, and the kind of proof |
| ProofCacheKeys.HexDigitMeans | prover/src/proof_cache.rs:55-63 | digits 0 to 9 and then a to f |
| ProofCache.ProofCache.LeastRecentKey | prover/src/proof_cache.rs:256-260 | returns a least recently accessed entry |
| ProofCache.ProofCache.InsertMemory | prover/src/proof_cache.rs:251-280 | evicts least recent first down to room for one, keeps everything more recent, and inserts |
| ProofCache.ProofCache.Get | prover/src/proof_cache.rs:158-227 | in seconds: a hit is a proof put or found under this key and no older than the time to live; one in memory that meets this is served, else one in a readable directory; while disk writes succeed it is the latest put, missed only when too old; each call counts one hit or one miss |
| ProofCache.ProofCache.Put | prover/src/proof_cache.rs:230-248 | makes the proof the latest under its key and keeps the cache faithful whatever becomes of the disk write |
| ProofCache.ProofCache.CleanupExpired | prover/src/proof_cache.rs:393-412 | an entry stays if and only if its age is below the time to live in whole seconds; the removed are counted |
| ProofCache.ProofCache.CleanupDiskExpired | prover/src/proof_cache.rs:347-390 | a file goes if and only if it can be read and removed and is corrupt or older than the time to live in whole seconds |
| ProofCache.CountedMeans | prover/src/proof_cache.rs:372-387 | what is counted as removed: the expired files that could be removed, and every readable corrupt one |
| ProofCache.CleanupAgainstServing | prover/src/proof_cache.rs:163-176 | a proof is served but already dropped by the memory cleanup exactly at an age of the whole time to live; the directory cleanup removes only what is no longer served |
| ProofCacheRuns.AlwaysMostRecent | prover/src/proof_cache.rs:158-280 | in every run without expiry, memory holds the most recently touched keys, at most max(1, capacity) of them |
| ProofCacheRuns.NewestKeepsRecent | prover/src/proof_cache.rs:251-280 | inserting at the newest time keeps that, even for a key already present at capacity |
| ProofCacheRuns.EveryHitWasPut | prover/src/proof_cache.rs:158-280 | in every interleaving of gets, puts and cleanups each hit is the argument of an earlier put under exactly that key, or what the directory held under it at the start, and was live when found; hits plus misses is the number of answered gets |
| ProofCacheRuns.AnswersMean | prover/src/proof_cache.rs:158-227 | in the interleaved machine a lookup answers exactly a proof within its lifetime, in seconds, memory first |
| Nonce.NonceManager.NextNonce | prover/src/nonce.rs:77-86 | hands out the current nonce, and both counters advance with wrap-around |
| Nonce.NonceManager.HandleNonceError | prover/src/nonce.rs:138-165 | the state after each kind of error; after a successful sync on an attempt's behalf the pending count is 2^64 - 1 |
| Nonce.NonceManager.SyncFromChain | prover/src/nonce.rs:110-130 | a successful query sets the nonce and zeroes the count; a failed one changes nothing |
| Nonce.EveryRun | prover/src/nonce.rs:77-165 | in every interleaving of atomic steps the nonces since the last sync are the consecutive run from the synced value, and the pending count is, in 64 bits, the attempts not completed less those the last reset passed over |
| Nonce.NoncesDistinct | prover/src/nonce.rs:77-86 | nonces handed out between two syncs are pairwise distinct, in every interleaving |
| Nonce.PendingExact | prover/src/nonce.rs:77-165 | at any point of any run, syncs included: the count is exact if and only if the last reset passed over nothing, equals the attempts in flight if and only if it passed over as many as failed syncs leaked, and the next completion underflows if and only if it passed over everything not completed |
| Nonce.WipedByLastReset | prover/src/nonce.rs:126-127 | what the last reset passed over is the number of attempts held or leaked when it stored zero, and nothing before any reset |
| Nonce.ExactSinceSync | prover/src/nonce.rs:110-165 | from a completed sync to the next the count is exact if and only if nothing was held or leaked at the store of zero; a sync on an attempt's behalf never leaves it exact |
| Nonce.ExactUntilSync | prover/src/nonce.rs:77-94 | until the first completed sync the count is exact and no completion underflows |
| Nonce.OwnSyncUnderflows | prover/src/nonce.rs:126-163 | a run of one task, from the start, in which the reset at line 127 and the decrement at line 163 take the count to 2^64 - 1 |
| JobRunner.SendWithRetry | prover/src/monitor.rs:1297-1462 | stops at the first attempt that succeeds, cannot be retried or is the last of max(1, retries); each attempt uses one nonce, and the nonces used, the next nonce and the pending count are given whatever syncs intervened |
| JobRunner.AttemptOnce | prover/src/monitor.rs:1307-1373 | one attempt takes one nonce and leaves the count as it was, at 2^64 - 1 after a sync, or one higher when the sync fails |
| JobRunner.PendingAtEnd | prover/src/monitor.rs:1297-1462 | after the loop the count is what it was, or 2^64 - 1 if any attempt synced, and one more if the last sync failed |
| JobRunner.Unsynced | prover/src/monitor.rs:1297-1462 | without a sync the count is restored and the nonces are consecutive |
| JobRunner.StopsOnce | prover/src/monitor.rs:1297-1376 | the attempt at which the loop stops is unique, so success is a property of the outcomes |
| JobRunner.SuccessMeans | prover/src/monitor.rs:1297-1376 | a transaction succeeds exactly when some attempt up to max(1, retries) is confirmed and all before it failed retryably with any sync made |
| JobRunner.RouteMeans | prover/src/monitor.rs:680-990 | the conditions of each way through a job, read off what it was told |
| JobRunner.JobMeans | prover/src/monitor.rs:544-1005 | when a job succeeds, read off what it was told |
| JobRunner.ClaimAndSubmit | prover/src/monitor.rs:693-736 | the cached and decomposed tail: claim, then submit, with every event accounted for |
| JobRunner.ProveFresh | prover/src/monitor.rs:898-1005 | the standard path: profitability, claim unless claimed early, prove, submit |
| JobRunner.ProcessJob | prover/src/monitor.rs:544-1005 | over what the job was told: it verifies its input only with the program found and the digest matched or prefetched (and the signer, if private), submits each kind of proof only on its own conditions, and succeeds if and only if those hold and the transactions are confirmed; exactly one submission after a successful claim, public jobs claim once, at most max(1, retries) nonces a transaction |
| JobQueue.TotalExact | prover/src/queue.rs:110-115 | no step of the total overflows if and only if its positive part is below 2^63; wrapping gives the intended total if and only if that total fits |
| JobQueue.TotalMonotoneInTip | prover/src/queue.rs:68-115 | up to tip scores of 2^63 - 151 totals are exact and monotone in the tip |
| JobQueue.TotalOverflows | prover/src/queue.rs:110-115 | one more point, at full urgency with a cached program, gives a negative total |
| JobQueue.ScoreMeans | prover/src/queue.rs:59-96 | the four parts of a score: tip points, urgency, cache bonus and complexity penalty, with their units and bounds |
| JobQueue.TotalMeans | prover/src/queue.rs:110-115 | until something overflows the total is the sum of the first three parts less the last |
| JobQueue.Queue.Push | prover/src/queue.rs:168-219 | admitted if and only if the request is not queued, pays the minimum, has not expired and, at capacity, beats every queued total; a full queue loses exactly a maximum, and nothing else changes |
| JobQueue.Queue.Pop | prover/src/queue.rs:222-239 | returns a job of greatest total among those unexpired at the moment it is looked at and keeps all other unexpired ones; each skipped job had expired at its own clock reading; None leaves the queue empty |
| JobQueue.Queue.MakeRoom | prover/src/queue.rs:191-205 | at capacity the peeked maximum gives way exactly to a newcomer that beats it |
| Concurrency.NewPools | prover/src/concurrency.rs:64-88 | pool sizes: the CPU count asked for, or one less than the processors and at least one, or 3 if unknown; there is always at least one CPU slot and one permit |
| Concurrency.EveryRunConserves | prover/src/concurrency.rs:118-173 | in every interleaving free permits plus holders is the size of each pool and every device is free or has one guard |
| Concurrency.Exclusive | prover/src/gpu_manager.rs:249-279 | no two guards on one device and no pool overcommitted, at any point of any run |
| Concurrency.RouteMeans | prover/src/concurrency.rs:118-173 | a GPU job goes to the device of the next ticket, or to a CPU slot if there is none; a CPU job to a CPU slot |
| Concurrency.TakingMeans | prover/src/concurrency.rs:118-173 | each step takes or gives back one permit of one semaphore |
| Concurrency.RoundRobin | prover/src/gpu_manager.rs:254-256 | in every run the n-th GPU job sent on goes to device n modulo the number of devices |
| Concurrency.SomeJobMoves | prover/src/concurrency.rs:118-173 | in every reachable state with an unfinished job some acquire is enabled or some guard can be dropped |
| Concurrency.EveryoneFinishes | prover/src/concurrency.rs:118-173 | once arrivals stop, every schedule is at most as long as the steps left, and it is stuck only when every job has finished |
| FairConcurrency.FairRunIsRun | prover/src/concurrency.rs:118-173 | a run in which every semaphore serves its waiters in order is a run of the manager, so all of the above holds of it |
| FairConcurrency.NobodyIsPassed | prover/src/concurrency.rs:118-173 | in every such run no job is passed, at any semaphore, by one that queued after it |
| FairConcurrency.ServedInOrder | prover/src/concurrency.rs:118-173 | jobs leave the total semaphore in the order of arrival and each second semaphore in the order in which they were sent to it, whatever arrives later |
| FairConcurrency.SomeJobMovesInTurn | prover/src/concurrency.rs:118-173 | serving in order never blocks: while some job is unfinished some step that passes nobody can be taken |
| FairConcurrency.EveryoneFinishesInTurn | prover/src/concurrency.rs:118-173 | once arrivals stop, a run that serves in order is at most as long as the steps left and is stuck exactly when every job has finished |
| NestedDevices.SelfWaitReachable | prover/src/fast_prove.rs:338-343 | when a job holding a device draws another from the same manager, for every number of devices some run makes it wait for its own |
| NestedProgress.MutualWaitReachable | prover/src/fast_prove.rs:338-343 | for every number of devices from two on, some run makes two jobs wait for each other's device |
| NestedDevices.StuckExactly | prover/src/gpu_manager.rs:249-279 | at any point of any run no draw, take or drop is possible if and only if every job is done or waits for a device held by a job that waits for its second one |
| NestedProgress.ProgressExactly | prover/src/gpu_manager.rs:249-279 | at any point of any run some way to go on finishes every job if and only if no jobs wait for each other in a circle |
| NestedProgress.CircleForever | prover/src/gpu_manager.rs:249-279 | jobs that wait in a circle never move again, whatever the others do |
| NestedProgress.NoCircleFinishes | prover/src/gpu_manager.rs:249-279 | where there is no circle, a schedule that finishes every job is constructed |
| NestedBatches.BatchSizeExactly | prover/src/fast_prove.rs:338-343 | whatever up to k nesting jobs do from an idle manager they can still finish, if and only if there are two devices for each |
| NestedBatches.SmallBatchesFinish | prover/src/gpu_manager.rs:249-279 | with at most half as many jobs as devices every schedule finishes: it is at most six steps a job long and is stuck exactly when every job is done |
| NestedBatches.LargeBatchHangs | prover/src/gpu_manager.rs:249-279 | with more jobs than half the devices some run reaches a state that no way to go on can finish |
| NestedBatches.UnfinishableReachable | prover/src/fast_prove.rs:338-343 | for every number of devices some run reaches a state from which not every job can finish |
| NestedDevices.WaitsForever | prover/src/gpu_manager.rs:249-279 | a job that waits for its own device stays there in every continuation |
| NestedDevices.OneDeviceAlwaysWaits | prover/src/gpu_manager.rs:254-261 | with one device every nested draw waits for itself and no job ever holds two |
| EventWatcher.ParseEmitted | sdk/src/event_watcher.rs:124-193 | parsing a log as the contract emits it gives back the event, addresses and block included |
| EventWatcher.ParseMeans | sdk/src/event_watcher.rs:124-193 | exactly which logs are events, of which kind, with which fields, and block 0 where the log has none |
| EventWatcher.PollRepeatedly | sdk/src/event_watcher.rs:230-248 | a client chaining polls by the returned cursor ends at exactly the cursor of its successful polls and has every event from its start to there exactly once and in order |
| EventWatcher.PollReturns | sdk/src/event_watcher.rs:231-247 | a successful poll returns the events of its window and the cursor behind it, a failed one neither |
| EventWatcher.Watch | sdk/src/event_watcher.rs:255-307 | the loop ends at the exact cursor, within the chain, and has delivered each block's events at most once and in order, leaving out exactly the windows whose fetch failed; what it delivered is complete if and only if those held no event |
| EventWatcher.DeliverWindow | sdk/src/event_watcher.rs:291-297 | the callback loop delivers exactly the events of the window's blocks |
| EventWatcher.WatchComplete | sdk/src/event_watcher.rs:279-303 | what a whole run of the loop delivered is every event up to its cursor, once, if and only if no window whose fetch failed held an event |
| EventWatcher.MissedExactly | sdk/src/event_watcher.rs:284-300 | a block is missed exactly when it lay in the window of a turn whose log fetch failed |
| EventWatcher.CursorPasses | sdk/src/event_watcher.rs:230-248 | the cursor passes every latest block seen by a successful poll (by any turn, for the loop) |
| EventWatcher.ExactlyOnceIff | sdk/src/event_watcher.rs:279-303 | nothing is lost if and only if the missed blocks held no event |
| EventWatcher.RangesJoin | sdk/src/event_watcher.rs:230-248 | the events of adjacent ranges of blocks concatenate |
| SegmentPlanning.EstimateIsLeast | prover/src/segment_prover.rs:538-541 | the estimate is the least number of segments covering all cycles |
| SegmentPlanning.RecommendedThreads | prover/src/segment_prover.rs:549-556 | the least of the segments, 16, and one processor left free (3 if unknown), and at least 1 |
| SegmentPlanning.SegmentProver.Analyze | prover/src/segment_prover.rs:160-235 | a plan exactly when the cycles can be told, by execution or from the cache, and are within the limit; each error has its exact cause |
| SegmentPlanning.SegmentProver.ProveOptimized | prover/src/segment_prover.rs:238-308 | every outcome has its exact condition: a program whose cycles can be told is refused for its size if and only if it is outside the limits (remote proving has only the cycle limit), and fails in proving exactly when admitted and not provable |
| SegmentPlanning.StrategyFitsEngine | prover/src/fast_prove.rs:266-504 | whatever is given the segmented or continuation strategy is within the segment engine's limits, for every threshold |
| SegmentPlanning.StrategyMeans | prover/src/fast_prove.rs:266-295 | the exact range of cycles and memory of each strategy, and the number of segments |
| SegmentPlanning.EngineMeans | prover/src/fast_prove.rs:413-490 | the limits, segment size, threads and remote threshold of the engine each strategy builds |
| SegmentPlanning.OptimalPo2Means | prover/src/segment_prover.rs:524-535 | the segment size for every number of cycles |
| SegmentPlanning.NoOverflowIff | prover/src/fast_prove.rs:413-450 | the multiplication of segments by threshold stays within 64 bits if and only if the threshold is below 2^63 |
| SegmentPlanning.DefaultNeverRefusesSegments | prover/src/segment_prover.rs:258-273 | the default engine never refuses on segments what it accepted on cycles |
| HostParser.HostRecovered | prover/src/validation.rs:246-273 | for every URL printed from its parts, extraction gives exactly the host; it refuses exactly a URL with neither host nor port |
| HostParser.SuffixRemoved | prover/src/validation.rs:249-252 | cutting at the three separators in turn removes exactly the path, query and fragment |
| HostParser.UserinfoRemoved | prover/src/validation.rs:254-259 | userinfo is removed even when it holds at-signs itself |
| HostParser.OnlyTheHostMatters | prover/src/validation.rs:246-273 | two URLs that extraction does not refuse (each has a host or a port) extract alike if and only if their hosts are the same text |
| HostParser.NoScheme | prover/src/validation.rs:246-247 | a text without a scheme separator has no host |
| HostParser.UnclosedBracket | prover/src/validation.rs:265-268 | a bracket that is never closed has no host |
| DecimalText.Reverse | sdk/go/types.go:115-118 | the two-index loop mirrors the array in place |
| DecimalText.Collect | sdk/go/types.go:108-114 | the digit loop collects the digits lowest first, then the sign |
| DecimalText.IntToStr | sdk/go/types.go:98-120 | the result is the canonical text for every int but the least; it parses back if and only if the int is not the least |
| DecimalText.TextIsTheCanonicalForm | sdk/go/types.go:97-120 | that text is the one canonical decimal form (no leading zero, sign only when negative) that reads back as the int |
| DecimalText.PrintingIsInjective | sdk/go/types.go:97-120 | distinct ints print differently, and none prints as a bare sign |

## Left out

- Glob.StarInTextRejected: like Glob.StarInPatternRejects, gives one failing partner (a pattern for a text with a star, a text for a pattern with one), not all of them; `ExactForText` and `ExactForPattern` are the exact statements.
- XGBoostDecomp.SplitProveMerge: says of the merged input hash only that it is the first sub-job's when that is not zero, because no hash of the whole input is computed anywhere in the merge; MergeMeans has the other cases.
- XGBoostFormat.InputDecodesExactly: the risc0 deserializer is a foreign library; it is modelled as reading the same layout, refusing u8 words above 255 and ignoring trailing words.
- ProofCache.ProofCache.Get: models the directory as a map from keys to files, which FileNamesDistinct justifies; proofs that the directory held at the start count as put.
- ProofCacheRuns.EveryHitWasPut: does not claim the latest put under concurrency, because a slow disk write can overtake a later one.
- JobRunner.SendWithRetry: models one caller at a time; interleavings of callers are the Nonce protocol. Whether an error text is retryable and which nonce error it is are outcomes of the attempt.
- Nonce.PendingExact: compares numbers of attempts below 2^64; Nonce.EveryRun states the law without that bound. Between taking its nonce and counting it as pending, an attempt is not yet counted.
- JobQueue.Queue.Peek: keeps the binary heap as a bag, because the library leaves open which of several equal maxima is on top. Totals wrap as in a release build; a debug build panics instead.
- Concurrency.EveryoneFinishes: is about the manager alone and allows any order of waiters; FairConcurrency serves them in order. Nested draws are in NestedDevices, NestedProgress and NestedBatches.
- NestedProgress.ProgressExactly: is about devices only; the total and CPU permits around them are in Concurrency.
- InputDecomposer.PlanSplit: takes the square-root guess used when there is no cycle estimate as a parameter; XGBoost inputs always have an estimate.
- SegmentPlanning.SegmentProver.Analyze: takes the executor's cycle and segment counts as arguments and leaves out elapsed times.
- InputDecomposer.ProveAll: models the handles as awaited in spawn order, as the code does; a cancelled or panicking task and the semaphore bounding concurrent proofs are not modelled.
- Prefetch.InputPrefetcher.Insert: keeps the byte counter unbounded, without the overflow of a machine word.
- EventWatcher.PollRepeatedly: assumes an append-only chain (no reorganisations) and does not model the overflow of the largest block number.
- HostParser.HostRecovered: covers URLs in the printed grammar; any other string is only covered by the definition of ExtractHost.
- The CUDA_VISIBLE_DEVICES environment variable that a device guard sets and restores.
- Job classification into GPU and CPU, the profit margin, reconnect delays and other f64 formulas.
- The anomaly, signature and sybil input layouts, which are further instances of the word format.
- The seal paired with a merged journal on the decomposed path, zkVM backends and on-chain verification.
- Clients of chains and remote provers, URL and IP blocklists, signatures, metrics, logging and configuration.
