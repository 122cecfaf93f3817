# Rampart's algorithms, modelled and proved

Rampart is a proxy that scans traffic to language models. Most of it is patterns and plumbing; this
project models the algorithms and state machines whose promises hold, or fail, for every input and every
run, and proves them. Each component is one module in a file of the same name.

| module | what it models |
|---|---|
| `LruCache`, `Latency`, `Memoisation`, `BatchDetect` | the accelerated threat detector: LRU cache, precomputed sets of disguised words, memoised detection, worker pool |
| `CharNormalizer`, `Detector`, `Coverage`, `Agreement` | the rule-based detector: what it prepares a text into, and how it scores that; and which of the texts it flags the accelerated detector flags. The precomputed sets miss none of what the rules find in the same text, but the two score different texts, and the fast path lets every text under 32 bytes through |
| `Roc`, `Calibration` | the AUROC sweep, the confusion metrics, the zero-false-positive threshold |
| `Moments`, `Binning`, `DriftMeasures`, `DriftMonitor` | drift monitoring: mean and variance, two binning routines, PSI and KL, the monitor |
| `TokenLimiter` | the sliding-window token limiter |
| `Redaction`, `Luhn` | splicing redactions into a text, and the card-number check |
| `Words`, `Normalize`, `Fidelity`, `Idempotence`, `Variants` | text normalisation, what a pass keeps, when one pass is enough, and the variants that are scanned beside it |
| `Framing`, `Senders` | Content-Length framing, the read-dispatch-write loop of the language server, and several senders on its output |
| `AuditEncryption`, `AuditSearch` | the encrypted audit log, and paginated search in a log |
| `LensCorrelation` | correlating browser-extension signals with proxy detections |
| `Common` | Option, Result and small lemmas |

What the program updates in place is a class here (caches, managers, monitors, the limiter, the server,
the receiver), and its methods are proved against functions on values; the lemmas about whole runs are
about those functions. Worker-pool interleavings, and senders that share an output stream, are step-by-step
state machines. Clock readings, random nonces, matchers, JSON, UTF-8 decoding, hashing, cryptography, `ln`
and the Unicode tables are parameters; where something is assumed of one, a predicate of that module says
what (`Memoisation.NoClash`, `AuditEncryption.Ideal`, `Normalize.Lawful`, `Luhn.Lawful`,
`Agreement.Lawful`, `DriftMeasures.Increasing`).

Scores of the rule-based detector are counted in tenths; other measures are exact reals.

These properties, which the program or its comments suggest, need a condition. Each condition is proved exact;
where a failing input is not plain from it, a lemma gives one:

- Normalising twice is normalising once, says the comment at internal/detectors/normalize.go:168-171. It holds
  exactly when no separator is stranded between removed ones, or the text is one letter with a few separators:
  `Idempotence.IdempotentIff`, `Idempotence.NotIdempotent`.
- The accelerated detector flags what the rule-based one flags. It scores the raw text, and flags exactly the
  texts of 32 bytes or more whose own score reaches 0.5 (`Agreement.FlaggedIff`); the rule-based one scores the
  text after NFKC, lower-casing, collapsing and cutting. Of the texts the rules flag it flags exactly those of 32
  bytes or more, as long as every disguise in the prepared text is in the raw text
  (`Agreement.CarriedFlaggedIffLong`), and so of all ASCII texts (`Agreement.AsciiFlaggedIffLong`). An ASCII text
  of 11 bytes slips through (`Agreement.ShortAttackSlips`), and so does one of 32 bytes in full-width letters
  (`Agreement.WideAttackSlips`).
- Memoised detection answers the verdict of the text: exactly when texts with the same hash have the same
  verdict (`Memoisation.AlwaysRightIff`, `BatchDetect.ClashSpoilsBatch`); and, once the sets of disguises are
  rebuilt, after any further calls exactly when the text is short, or its hash has not been in the cache all the
  time since, or both sets have the same verdict (`Memoisation.StaleAnswer`,
  `Memoisation.RebuildUnseenAtShippedWords`). Clearing the cache mends it (`Memoisation.ClearedIsFaithful`).
- Decrypting a log file ends with all plaintexts or with a numbered error: exactly when no line is in order but
  for a nonce that does not have 24 bytes, before any line that is refused. Such a line makes the cipher panic.
  `AuditEncryption.PanicsIff`, `AuditEncryption.CrashesIff`, `AuditEncryption.EmptyNonceCrashes`. (The comment at
  internal/auditlog/encryption.go:172 speaks of 96 bits, but the code uses the extended variant.)
- Replaying a baseline sample reproduces its bins: exactly when the sample is not constant, or is constant above
  -1/n for n bins. Otherwise building clamps the value into the first bin and observing drops it.
  `Binning.ReplayReproduces`, `Binning.MinusOneIsDropped`.
- Equal distributions are classified as "none": exactly when every threshold is positive, and a threshold that
  a configuration does not name is 0. `DriftMeasures.SameCountsNoDrift`, `DriftMonitor.UnnamedThresholdShowsDrift`.
- Expiring detections does not change a correlation: at the same clock reading exactly when no detection of the
  domain is stamped at the start of the window, because one of the two compares strictly.
  `LensCorrelation.ExpiredAtSameReading`, `LensCorrelation.EdgeIsLost`.
- The reason of a recommended block says so: exactly when the signal is not of medium severity, or some critical
  match has no medium one behind it. `LensCorrelation.BlockReasonIff`, `LensCorrelation.ReasonDependsOnOrder`.
- The Luhn check rejects swaps of neighbours: exactly of unequal ones other than 0 and 9. `Luhn.AdjacentSwap`.
- `DetectAll` returns a verdict: exactly unless it is in shadow mode with no variants, where it panics.
  `Detector.DetectAll`.

## Model

| member | source | states |
|---|---|---|
| `LruCache.Cache.Get` | internal/ml/latency.go:60-72 | returns the stored value, if any, and makes the key the most recent; map and list stay linked |
| `LruCache.Cache.Put` | internal/ml/latency.go:75-100 | overwrites or inserts at the front, evicting only the least recent and only at capacity; map and list stay linked |
| `LruCache.Cache.Clear` | internal/ml/latency.go:110-115 | empties map and list together |
| `LruCache.RunHoldsMostRecent` | internal/ml/latency.go:60-115 | after any run of Get, Put and Clear: at most capacity keys, in recency order, each with its last Put value, and every absent touched key was touched before all present ones |
| `LruCache.RunSize` | internal/ml/latency.go:60-115 | the number held is min(capacity, distinct keys touched since Clear), and no key is held twice |
| `LruCache.GetIsLastPut` | internal/ml/latency.go:60-72 | after any run a Get returns the value of the last Put of its key since Clear, unless the key is out |
| `LruCache.OneTouch` | internal/ml/latency.go:60-100 | one Put, or one Get that hits, keeps the most-recently-touched property; a Get that misses changes nothing |
| `Latency.Optimizer.constructor` | internal/ml/latency.go:164-185 | a new optimizer has the variant sets of its word list and an empty cache |
| `Latency.Optimizer.PrecomputeVariants` | internal/ml/latency.go:299-336 | the three derived sets are exactly the forms of all the words; the word set is untouched |
| `Latency.ScanSet` | internal/ml/latency.go:355-397 | a scan that stops early has the same outcome for every iteration order of the map |
| `Latency.Optimizer.DetectWithSets` | internal/ml/latency.go:346-408 | the four scans with early exit give the order-free pure score, and every threat counts one early exit |
| `Latency.PureScoreMeaning` | internal/ml/latency.go:346-408 | threat iff 0.4 direct + 0.4 transposed + 0.3 vowel-deleted + 0.3 reversed hits reach 0.5; otherwise the score is that sum, and the cap at 0.9 never acts |
| `Latency.TotalOverWords` | internal/ml/latency.go:173-176 | the weighted sum over the word list alone: the listed words in the text, and each kind of their disguises |
| `Latency.TwoWordsAreThreat` | internal/ml/latency.go:355-364 | two different listed words in a text of 32 bytes or more make it a threat |
| `Latency.ReachIsLeast` | internal/ml/latency.go:355-397 | an early exit leaves the first score to reach 0.5, hit by hit |
| `Latency.Optimizer.OptimizedDetect` | internal/ml/latency.go:190-219 | answers at once below 32 bytes, else from the cache when the hash is cached, else by detecting and storing; all counters are pinned |
| `Latency.Optimizer.ResetCache` | internal/ml/latency.go:290-294 | empties the cache |
| `Memoisation.CallIsRight` | internal/ml/latency.go:190-219 | from a faithful cache a call answers the verdict of its text and leaves a faithful cache |
| `Memoisation.AlwaysRightIff` | internal/ml/latency.go:190-219 | every answer of every run of calls is the verdict of its text iff texts with the same hash have the same verdict |
| `Memoisation.StaleAnswer` | internal/ml/latency.go:190-219 | from a cache of verdicts of former sets, after any calls under the present ones, a text is answered by the former sets iff it is long and its hash has been cached ever since; so the answer is right iff it has not, or both sets have the same verdict |
| `Memoisation.RebuildUnseen` | internal/ml/latency.go:299-336 | a text let through and cached under any word list is still let through after words it disguises are added |
| `Memoisation.RebuildUnseenAtShippedWords` | internal/ml/latency.go:164-185 | so it is with the shipped words and 32 times the letter z |
| `Memoisation.ClearedIsFaithful` | internal/ml/latency.go:290-294 | after clearing the cache every answer is again the verdict under the present sets |
| `Memoisation.PutFaithful` | internal/ml/latency.go:206-216 | storing a verdict keeps every cached value the verdict of each text with that hash, when such texts share their verdict |
| `BatchDetect.WorkerCount` | internal/ml/latency.go:231-237 | between 4 and 8 workers, the CPU count when it lies between |
| `BatchDetect.RunKeeps` | internal/ml/latency.go:247-274 | every step of sender, workers, other callers and cache resets keeps: each sent job is queued, held or answered, and all verdicts in flight or in the cache are right |
| `BatchDetect.BatchIsPointwise` | internal/ml/latency.go:223-280 | for every interleaving, when the pool is done result i is the pure verdict of text i |
| `BatchDetect.ClashSpoilsBatch` | internal/ml/latency.go:223-280 | the condition on hashes is needed: with any number of workers, another caller with a clashing text can make the pool finish with the wrong verdict |
| `BatchDetect.NeverStuck` | internal/ml/latency.go:251-274 | until the pool is done, the sender or some worker can step |
| `BatchDetect.StepsRunOut` | internal/ml/latency.go:251-274 | each step of sender or worker brings the end nearer, and outside steps do not postpone it |
| `BatchDetect.RunIsBounded` | internal/ml/latency.go:251-274 | a run takes at most Remaining steps of sender and workers, however many outside steps come between |
| `BatchDetect.CanFinish` | internal/ml/latency.go:251-274 | from every state the invariant allows the pool can run on by itself until it is done |
| `BatchDetect.EveryRunCanFinish` | internal/ml/latency.go:223-280 | every run can be extended to a finished one, whose results are the verdicts |
| `Coverage.CountWithinHits` | internal/ml/latency.go:307-331 | without shared forms, the words the heuristic counts are at most the forms the sets hit |
| `Coverage.NothingMissed` | internal/ml/detector.go:190-222 | when no two words share a disguise, every text the per-word heuristic scores at 0.5 or more is flagged by the precomputed sets |
| `Coverage.SharedFormIsMissed` | internal/ml/detector.go:190-222 | the condition is needed: a word of four distinct consonants listed twice makes the heuristic flag a text that the sets let through |
| `Coverage.ShippedListMissesNothing` | internal/ml/detector.go:197-199 | the shipped word list meets the condition, so on the same text the sets miss nothing |
| `Agreement.FlaggedIff` | internal/ml/latency.go:190-219 | the memoised detector flags a text iff it has 32 bytes or more and the full weighted sum over the raw text reaches 0.5 |
| `Agreement.CarriedFlaggedIffLong` | internal/ml/detector.go:84-116 | a text the rules flag is flagged iff it has 32 bytes or more, when every disguise in the prepared text is in the raw text |
| `Agreement.AsciiFlaggedIffLong` | internal/ml/detector.go:84-116 | an ASCII text the rules flag is flagged iff it has 32 bytes or more |
| `Agreement.AsciiCarries` | internal/ml/normalizer.go:61-96 | every disguise in the prepared text of an ASCII text is in the raw text |
| `Agreement.ShortAttackSlips` | internal/ml/latency.go:194-202 | "erongi ignr" is flagged by the rules and answered by the fast path |
| `Agreement.WideAttackSlips` | internal/ml/detector.go:351-361 | the same in full-width letters has 32 bytes and is flagged by the rules alone |
| `Detector.SearchString` | internal/ml/detector.go:342-349 | finds a substring iff it occurs somewhere |
| `Detector.IsTransposition` | internal/ml/detector.go:295-306 | found iff some swap of two neighbouring letters of the word (4 or more) occurs in the text |
| `Detector.TransposedIs` | internal/ml/detector.go:299-301 | two neighbours change places and nothing else |
| `Detector.IsVowelDeleted` | internal/ml/detector.go:308-320 | found iff the word without its later vowels differs from it and occurs in the text |
| `Detector.DropVowelsAppended` | internal/ml/detector.go:309-315 | the first letter stays, and of those behind it exactly the vowels go |
| `Detector.ContainsReversed` | internal/ml/detector.go:322-328 | found iff the word has at least 4 bytes and its reversal occurs in the text |
| `Detector.Reverse` | internal/ml/detector.go:330-336 | the in-place swap loop reverses |
| `Detector.ReversedAt` | internal/ml/detector.go:330-336 | position k of the reversal is position n-1-k of the word |
| `CharNormalizer.Normalize` | internal/ml/normalizer.go:61-96 | trims, collapses white space to single blanks and cuts to 256 characters, after NFKC and lower-casing |
| `CharNormalizer.NormalizedIsJoin` | internal/ml/normalizer.go:61-96 | the normalised text is the words of the folded text with single blanks, cut to 256 characters |
| `CharNormalizer.Encode` | internal/ml/normalizer.go:102-129 | 256 numbers: the normalised characters, unknown ones marked, then padding |
| `CharNormalizer.Decode` | internal/ml/normalizer.go:142-160 | skips padding and unknown numbers and shows the unknown mark as the replacement character |
| `CharNormalizer.DecodeEncode` | internal/ml/normalizer.go:102-160 | decoding undoes encoding, up to characters the encoding does not know |
| `CharNormalizer.ComesBackIff` | internal/ml/normalizer.go:102-160 | a text survives the encoding iff it is of printable ASCII, of 128 to 255, and of replacement characters |
| `CharNormalizer.TidyIsPrepared` | internal/ml/normalizer.go:61-160 | a text of at most 256 known characters with single blanks inside comes back as it is |
| `CharNormalizer.WordBeforePreparing` | internal/ml/normalizer.go:61-160 | preparing makes no words: a stretch without white space that occurs in the prepared text occurs in the folded one |
| `Detector.HeuristicScore` | internal/ml/detector.go:190-222 | decodes and lower-cases; 0 for an empty text, else 0.4 per transposed, 0.3 per vowel-deleted and 0.3 per reversed word found, cut at 0.9 |
| `Detector.SumConcat` | internal/ml/detector.go:201-216 | each word adds its own part to the sum |
| `Detector.SumOfOne` | internal/ml/detector.go:201-216 | a word adds 0.4 when it occurs transposed, and 0.3 each without vowels and reversed |
| `Detector.DetectAll` | internal/ml/detector.go:119-165 | with early exit, outside shadow mode: threat iff some variant reaches the threshold (or it is at most 0); the best score is some variant's; shadow mode never reports a threat and panics without variants |
| `Roc.SortDescending` | internal/ml/calibration.go:433-443 | the insertion sort permutes its input into descending order |
| `Roc.CollectThresholds` | internal/ml/calibration.go:344-356 | the thresholds are the distinct scores, highest first, for every map order |
| `Roc.AreaIsPairs` | internal/ml/calibration.go:380-406 | the doubled area under the first k segments counts exactly the pairs whose negative scores at least threshold k |
| `Roc.WholeArea` | internal/ml/calibration.go:380-406 | after the last threshold all pairs are counted and everything is let in |
| `Roc.Trapezoid` | internal/ml/calibration.go:400-406 | a trapezoid in rates is its area in counts divided by twice positives times negatives |
| `Roc.WholeCurve` | internal/ml/calibration.go:363-406 | the trapezoids of the whole curve, with its end point (1, 1), add up to the pair statistic |
| `Roc.MannWhitneyBounds` | internal/ml/calibration.go:400-414 | the pair statistic is between 0 and 1, so the clamp never acts |
| `Roc.ComputeAUROC` | internal/ml/calibration.go:339-417 | with positives and negatives the area is the Mann-Whitney statistic, ties counting one half; 0 without positives, 1 without negatives |
| `Calibration.Manager.CalibrateFromBenign` | internal/ml/calibration.go:160-202 | no benign input is above the new threshold, which is the larger of 0.5 and the best benign score plus 0.05; the false positives are those of the old threshold |
| `Calibration.Manager.UpdateRunningMetrics` | internal/ml/calibration.go:268-298 | one labelled entry updates one cell, the total and the three rates |
| `Calibration.Manager.ResetRunningMetrics` | internal/ml/calibration.go:310-318 | all counts and rates restart at 0 |
| `Calibration.ComputeMetrics` | internal/ml/calibration.go:223-263 | the batch metrics: four cells, rates, the AUROC in all cases, and the first entry's threshold and model; all zero without entries |
| `Calibration.TrackerIsBatch` | internal/ml/calibration.go:223-298 | from reset, the running tracker has the batch's four cells, total, precision, recall and F1 after any sequence; its AUROC stays 0, threshold and model are the latest |
| `Calibration.CellsSum` | internal/ml/calibration.go:228-242 | the four cells add up to the number of entries |
| `Calibration.CellIsPlaces` | internal/ml/calibration.go:228-242 | a cell is the number of entries with its prediction and its label |
| `Calibration.RatesMean` | internal/ml/calibration.go:244-246 | precision times the flagged is the hits, recall times the threats is the hits, and F1 * (2TP + FP + FN) = 2TP |
| `Calibration.F1Between` | internal/ml/calibration.go:329-334 | F1 lies between precision and recall |
| `Calibration.RateBounds` | internal/ml/calibration.go:321-326 | a rate is between 0 and 1, and 0 only when nothing was counted |
| `TokenLimiter.Limiter.AllowToken` | internal/response/token_limiter.go:55-100 | one call decides and rewrites the client's log as the pruning step does, and touches no other client |
| `TokenLimiter.Limiter.GetUsage` | internal/response/token_limiter.go:103-121 | tokens and requests of the entries inside the window |
| `TokenLimiter.PruningIsInvisible` | internal/response/token_limiter.go:55-121 | over every run with a clock that never goes back, each decision is the one a limiter that never prunes would make, and so is every later usage report |
| `TokenLimiter.NoWindowOverfull` | internal/response/token_limiter.go:55-100 | for every client and instant t, the grants since the last reset in (t-W, t] stay within the token and the request limit |
| `TokenLimiter.DecisionIff` | internal/response/token_limiter.go:78-99 | at the end of any run: allowed iff the grants in the window and the call itself keep within the token and the request limit, and the call within the size limit; otherwise the first limit exceeded is the reason |
| `TokenLimiter.GrantsWithinSize` | internal/response/token_limiter.go:88-91 | no grant of any run is larger than one response may be |
| `TokenLimiter.UsageIsGranted` | internal/response/token_limiter.go:103-121 | a usage report counts exactly the grants in the window that ends with it |
| `TokenLimiter.AfterAfter` | internal/response/token_limiter.go:62-69 | pruning twice is pruning at the later instant |
| `TokenLimiter.StepAgrees` | internal/response/token_limiter.go:55-100 | one call keeps pruned and full log indistinguishable from its window on |
| `TokenLimiter.WindowFits` | internal/response/token_limiter.go:71-97 | a log whose every grant fitted its own window fits every window |
| `TokenLimiter.LogIsGranted` | internal/response/token_limiter.go:90-135 | the reference log is exactly what the decisions granted since the last reset |
| `Moments.ComputeMoments` | internal/ml/drift.go:425-443 | the mean, and the mean squared distance from it, which the difference of the sums equals; so the cut of a negative variance never acts |
| `Binning.BuildDistribution` | internal/ml/drift.go:416-487 | equal-width bins over the sample's range, [0, 1) for a constant sample, with their counts, weights, mean and variance; no counts without values |
| `Binning.BinsCoverRange` | internal/ml/drift.go:445-459 | the bins of a sample that is not constant run from its minimum to its maximum, without a gap and of equal width |
| `Binning.ConstantCoversUnit` | internal/ml/drift.go:445-459 | those of a constant sample cover [0, 1) in the same way |
| `Binning.BinCountsRange` | internal/ml/drift.go:461-471 | the count of a bin is the number of values in its range, the last one closed at the top |
| `Binning.WeightsAreShares` | internal/ml/drift.go:473-477 | the weights of a distribution whose counts are conserved add up to 1 |
| `Binning.SameBin` | internal/ml/drift.go:283-303 | for a value at or above the low end, the search through the baseline's bounds and the arithmetic index choose the same bin |
| `Binning.ObservedBin` | internal/ml/drift.go:283-303 | an observed value goes to the bin whose range holds it, to the last from the maximum on, and below the minimum to the fallback |
| `Binning.UnitBin` | internal/ml/drift.go:297-302 | without a baseline [0, 1) is divided evenly |
| `Binning.ReplayReproduces` | internal/ml/drift.go:262-303 | replaying the sample in any order into an empty distribution reproduces the counts iff the sample is not constant, or is constant above -1/n |
| `Binning.ReplayDropped` | internal/ml/drift.go:262-303 | a constant sample at or below -1/n is dropped whole |
| `Binning.MinusOneIsDropped` | internal/ml/drift.go:262-303 | a single -1 is counted by building and dropped by observing |
| `Binning.ObservedInBatches` | internal/ml/drift.go:143-174 | observing a concatenation is observing its parts in turn |
| `Binning.TallyPermutation` | internal/ml/drift.go:461-471 | the count of a bin does not depend on the order of the sample |
| `Binning.BuildConserves` | internal/ml/drift.go:416-487 | a built distribution's count is the sum of its bins |
| `Binning.ObservedConserves` | internal/ml/drift.go:263-280 | observing any value keeps the count equal to the sum of the bins |
| `DriftMeasures.CalculatePSI` | internal/ml/drift.go:307-352 | the loop computes the PSI sum over the floored weights |
| `DriftMeasures.PsiSign` | internal/ml/drift.go:307-352 | PSI is never negative, and 0 iff all floored weights coincide, for every strictly increasing ln with ln 1 = 0 |
| `DriftMeasures.PsiSymmetric` | internal/ml/drift.go:307-352 | given ln(1/x) = -ln x, swapping baseline and current does not change PSI |
| `DriftMeasures.PsiIsTwoKl` | internal/ml/drift.go:307-395 | given ln(1/x) = -ln x, PSI is KL one way plus KL the other way |
| `DriftMeasures.QuartersShifted` | internal/ml/drift.go:307-395 | 1/4 and 3/4 against 3/4 and 1/4: PSI is ln 3 and KL half of it |
| `DriftMeasures.WeightIsShare` | internal/ml/drift.go:335-342 | a weight is the share of the bin, at least 0.0001 |
| `DriftMeasures.CalculateKL` | internal/ml/drift.go:356-395 | the loop computes the KL sum over the floored weights |
| `DriftMeasures.KlAtLeast` | internal/ml/drift.go:356-395 | with ln x >= 1 - 1/x, KL is at least the difference of the two sums of floored weights |
| `DriftMeasures.KlNotNegative` | internal/ml/drift.go:356-395 | so KL is never negative where no weight is floored |
| `DriftMeasures.SameCountsNoDrift` | internal/ml/drift.go:307-413 | equal counts give PSI and KL 0, and level none iff all thresholds are positive |
| `DriftMonitor.UnnamedThresholdShowsDrift` | internal/ml/drift.go:398-413 | a configuration naming only the major threshold reports significant drift between equal distributions |
| `DriftMonitor.ReplayReport` | internal/ml/drift.go:177-221 | after replaying the baseline sample a check reports PSI 0 and KL 0, and none iff all thresholds are positive or the sample was dropped |
| `DriftMonitor.ReplayIsReported` | internal/ml/drift.go:135-221 | the same of a monitor after setting the baseline, resetting and observing the sample in a batch, with the same condition for the level |
| `DriftMeasures.ClassifyMonotone` | internal/ml/drift.go:398-413 | a larger PSI is never classified lower, whatever the thresholds |
| `DriftMeasures.ClassifyByThreshold` | internal/ml/drift.go:398-413 | with thresholds in order each level begins at its own |
| `DriftMonitor.Monitor.SetBaseline` | internal/ml/drift.go:135-140 | replaces one feature's baseline by the built distribution |
| `DriftMonitor.Monitor.Observe` | internal/ml/drift.go:143-164 | records one value in its feature's distribution, created empty if need be; other features keep theirs; every count stays the sum of its bins |
| `DriftMonitor.Monitor.ObserveBatch` | internal/ml/drift.go:167-174 | the same for all values in order |
| `DriftMonitor.Monitor.CheckFeature` | internal/ml/drift.go:183-217 | PSI, KL and level of one feature, or no drift without observations; logged only when there are observations |
| `DriftMonitor.Monitor.CheckDrift` | internal/ml/drift.go:177-221 | one result for each feature with a baseline, in any map order; the history gains those with observations and keeps the last 1000 |
| `DriftMonitor.LoggedIsLatest` | internal/ml/drift.go:204-217 | the history is always the last 1000 results with observations, in order |
| `Redaction.SortDescending` | internal/response/pii_scanner.go:440-447 | the exchange sort permutes the matches into descending order of start |
| `Redaction.SortedRightToLeft` | internal/response/pii_scanner.go:435-447 | for pairwise disjoint matches that order is strictly right to left |
| `Redaction.SpliceOne` | internal/response/pii_scanner.go:449-476 | splicing at the original indices is right, because everything to the left is untouched |
| `Redaction.SplicesRebuild` | internal/response/pii_scanner.go:440-476 | for disjoint matches, in whichever order of descending starts, no turn panics and the splices add up to the left-to-right rebuild |
| `Redaction.SettingIsOwn` | internal/response/pii_scanner.go:452-471 | looking the category up by span finds that of the match itself, when matches are disjoint |
| `Redaction.SettingsGovern` | internal/response/pii_scanner.go:455-468 | each setting governs its own category and no other |
| `Redaction.DefaultEnables` | internal/response/pii_scanner.go:413-422 | by default everything is redacted but custom patterns |
| `Redaction.RedactPII` | internal/response/pii_scanner.go:412-479 | for any matches the splices in some order of descending starts, or a panic; for disjoint non-empty in-bounds ones the left-to-right rebuild, each enabled match replaced by its redaction and all else kept in order |
| `Redaction.RebuildCopies` | internal/response/pii_scanner.go:412-479 | the rebuild copies text outside enabled matches unchanged |
| `Redaction.RebuildAt` | internal/response/pii_scanner.go:412-479 | at an enabled match the rebuild puts its redaction and goes on behind it |
| `Redaction.RebuildOrderFree` | internal/response/pii_scanner.go:412-479 | the rebuild does not depend on the order in which matches were found |
| `Redaction.RebuildSettings` | internal/response/pii_scanner.go:412-479 | the rebuild depends on the settings only through the matches listed |
| `Luhn.LuhnCheck` | internal/response/pii_scanner.go:257-288 | accepts 13 to 19 bytes of kept digits whose weighted sum is divisible by 10; with ASCII digits that is the check of the standard, other characters ignored |
| `Luhn.AsciiValues` | internal/response/pii_scanner.go:258-274 | for a card whose digits are all ASCII the values summed up are its digits |
| `Luhn.SumLoop` | internal/response/pii_scanner.go:270-285 | the loop computes the alternating sum from the right, for any length |
| `Luhn.SumIsFromLeft` | internal/response/pii_scanner.go:270-285 | the sum counts the last digit as it is and doubles every second one before it |
| `Luhn.DoubledIsDigitSum` | internal/response/pii_scanner.go:276-281 | a doubled digit counts the digits of the double |
| `Luhn.SingleDigit` | internal/response/pii_scanner.go:270-287 | changing one digit changes the last digit of the sum, at any position and length |
| `Luhn.AdjacentSwap` | internal/response/pii_scanner.go:270-287 | swapping neighbours keeps the last digit of the sum iff they are equal or 0 and 9 |
| `Luhn.OneCheckDigit` | internal/response/pii_scanner.go:270-287 | for each prefix exactly one final digit is accepted |
| `Luhn.AcceptedIff` | internal/response/pii_scanner.go:266-287 | a prefix with a final digit is accepted iff the length is right and it is the check digit |
| `Luhn.ZerosAccepted` | internal/response/pii_scanner.go:266-287 | 13 to 19 zeros are accepted |
| `Luhn.RejectsSingleDigit` | internal/response/pii_scanner.go:257-288 | every single-digit change of an accepted number is rejected |
| `Luhn.RejectsAdjacentSwap` | internal/response/pii_scanner.go:257-288 | every swap of unequal neighbours of an accepted number is rejected, but for 0 with 9 |
| `Redaction.MaskSecrets` | internal/response/secret_detector.go:443-480 | the same with every match enabled |
| `Normalize.Normalize` | internal/detectors/normalize.go:172-184 | the five stages in order |
| `Normalize.RemoveInterCharacterInsertions` | internal/detectors/normalize.go:133-152 | drops exactly the separators with a letter on either side, in texts of 3 or more |
| `Normalize.PassCleanAndCollapsed` | internal/detectors/normalize.go:172-184 | a pass leaves nothing for the tables, single blanks between words and none at the ends |
| `Normalize.LaterPassShrinks` | internal/detectors/normalize.go:172-184 | after the first pass every further one is the identity or strictly shortens the text |
| `Normalize.PassesSettle` | internal/detectors/normalize.go:172-184 | so repeated passes reach a fixed point, within as many passes as the first one left characters |
| `Fidelity.StripConcat` | internal/detectors/normalize.go:115-124 | stripping zero-width characters goes character by character |
| `Fidelity.ZeroWidthInvisible` | internal/detectors/normalize.go:172-184 | a zero-width character makes no difference to the result, wherever it stands |
| `Fidelity.LookalikesRead` | internal/detectors/normalize.go:172-184 | a text that spells a lower-case word in lookalikes is read as that word |
| `Fidelity.TablesRead` | internal/detectors/normalize.go:30-50 | each Cyrillic, Greek and leet lookalike is read as its letter |
| `Fidelity.OthersStay` | internal/detectors/normalize.go:30-50 | no other character is changed by the tables |
| `Fidelity.NothingLost` | internal/detectors/normalize.go:172-184 | the result, but for white space and separators, is the reading of each input character in order |
| `Fidelity.KeptCounts` | internal/detectors/normalize.go:141-150 | exactly the separators with a letter on either side are removed |
| `Fidelity.CollapseIsJoin` | internal/detectors/normalize.go:127-129 | collapsing is splitting at white space and joining with single blanks |
| `Idempotence.IdempotentIff` | internal/detectors/normalize.go:168-184 | a second pass changes nothing iff the mapped text strands no separator, or is, cut of white space at both ends, one letter with two or three separators as in "a.." or ".a.." |
| `Idempotence.SingleSeparatorsSettle` | internal/detectors/normalize.go:133-184 | one pass is enough when no two separators are neighbours once zero-width characters are gone |
| `Idempotence.NotIdempotent` | internal/detectors/normalize.go:168-184 | a...b goes to a.b and then to ab, for any separator and letters |
| `Idempotence.CollapseTouching` | internal/detectors/normalize.go:126-129 | collapsing white space neither makes nor breaks a separator next to a letter |
| `Variants.NormalizeROT13` | internal/detectors/normalize.go:192-205 | rotates every ASCII letter by 13 and nothing else |
| `Variants.RotRangeTwice` | internal/detectors/normalize.go:192-205 | rotating the same stretch twice restores the text |
| `Variants.RotIs` | internal/detectors/normalize.go:192-205 | a letter moves by 13 of its 26 places within its case |
| `Variants.NormalizeSlidingROT13` | internal/detectors/normalize.go:234-292 | the first five changed texts, each once, over the maximal letter runs of 4 or more, from left to right, whether or not the input is valid UTF-8 |
| `Variants.OnlyInputRepeats` | internal/detectors/normalize.go:261-289 | the guard against repeats only ever meets the decoded input itself |
| `Variants.RotRangeChanges` | internal/detectors/normalize.go:264-282 | rotating a stretch changes the text iff it holds an ASCII letter |
| `Variants.RunsAreLongRuns` | internal/detectors/normalize.go:239-255 | the scan finds exactly the maximal runs of at least 4 letters |
| `Variants.SlidingIsSound` | internal/detectors/normalize.go:234-292 | at most five variants, all different, each one run rotated, and none missing when there are fewer than five; of valid UTF-8 the input is none of them and the runs are those with an ASCII letter |
| `Variants.SlidingInOrder` | internal/detectors/normalize.go:264-289 | the variants come in the order of their runs, and a run without one lies to the right of five that have |
| `Variants.SlidingUndone` | internal/detectors/normalize.go:264-289 | the rotated run is still a maximal run, and rotating it again restores the input |
| `Variants.NormalizeRepeatingChars` | internal/detectors/normalize.go:338-356 | the loop keeps the first two of equal neighbours |
| `Variants.CappedRepeats` | internal/detectors/normalize.go:337-356 | the run-length form is the input's with each length cut to at most 2, in the same order |
| `Variants.SpelledBack` | internal/detectors/normalize.go:337-356 | a text is determined by its run-length form |
| `Variants.CappedIdempotent` | internal/detectors/normalize.go:337-356 | capping twice is capping once |
| `Variants.Deduplicate` | internal/detectors/normalize.go:325-334 | each non-empty text once, where it first occurs |
| `Variants.FirstsAreTheList` | internal/detectors/normalize.go:325-334 | the list without repeats has the same non-empty texts, all different |
| `Variants.FirstsInOrder` | internal/detectors/normalize.go:325-334 | the list without repeats is in the order of first occurrence |
| `Framing.AtoiDecimal` | internal/lsp/server.go:108-117 | the length printed in decimal is parsed back, up to the largest 64-bit int |
| `Framing.AtoiSigned` | internal/lsp/server.go:111-114 | a number may have a sign |
| `Framing.AtoiOnlyDigits` | internal/lsp/server.go:111-114 | a number has digits and nothing else behind its sign |
| `Framing.FrameRoundTrip` | internal/lsp/server.go:93-134 | a written frame is read back whole, whatever bytes it holds and whatever follows; an empty body is refused |
| `Framing.FrameForInstance` | internal/lsp/server.go:291-296 | the frame of "hello" byte by byte |
| `Framing.HeaderLineRead` | internal/lsp/server.go:97-118 | an empty line ends the headers, Content-Length sets the length or fails, any other header is passed over |
| `Framing.OtherHeaderPassedOver` | internal/lsp/server.go:93-134 | a frame is read back whatever other header stands in front |
| `Framing.ShortBodyRefused` | internal/lsp/server.go:124-128 | a body that is cut short is refused |
| `Framing.NoLineIsEof` | internal/lsp/server.go:97-101 | a stream without a newline ends in the headers |
| `Framing.StreamRoundTrip` | internal/lsp/server.go:93-134 | reading any number of frames with non-empty bodies gives those bodies in order, then EOF |
| `Framing.Server.ReadMessage` | internal/lsp/server.go:93-134 | consumes one message and returns it, or the error the code returns, always making progress on success |
| `Framing.Server.WriteMessage` | internal/lsp/server.go:281-299 | appends one whole frame as far as the output accepts it; fails iff the message cannot be encoded or the frame is cut |
| `Framing.Server.Run` | internal/lsp/server.go:62-90 | the output is what there is to answer up to the first error, as far as it is accepted; a cut output ends the loop, and EOF is a normal end |
| `Framing.ServerAnswersAll` | internal/lsp/server.go:62-90 | a stream of written messages is answered message by message, in order, and ends normally |
| `Senders.RunKeeps` | internal/lsp/server.go:281-299 | every step of every sender keeps: only the holder of the mutex writes, and the output is whole frames and the begun frame of the holder, cut where it stops accepting |
| `Senders.SendersNeverMix` | internal/lsp/server.go:281-299 | under every interleaving of spawning, locking, header, body and unlocking the frames never mix |
| `Senders.SendersReadBack` | internal/lsp/server.go:201-299 | when the mutex is free and nothing was cut, a reader gets exactly the bodies of the senders that have started, each once, in the order of the mutex |
| `Senders.SendersNeverStuck` | internal/lsp/server.go:281-299 | while a sender is not through, some sender can step |
| `AuditEncryption.SplitLines` | internal/auditlog/encryption.go:356-369 | the loop cuts at every newline; a last line needs none unless it is empty |
| `AuditEncryption.LinesJoined` | internal/auditlog/encryption.go:356-369 | splitting undoes newline-terminated concatenation |
| `AuditEncryption.JoinedLines` | internal/auditlog/encryption.go:356-369 | joining undoes splitting, up to a newline the data may lack at its end |
| `AuditEncryption.OpenLogger` | internal/auditlog/encryption.go:83-147 | a logger with a key derived from passphrase and salt; an empty passphrase is refused |
| `AuditEncryption.EncryptedLogger.Log` | internal/auditlog/encryption.go:164-210 | appends one line sealed with the logger's key, salt and a nonce, as far as the file takes it |
| `AuditEncryption.DecryptFile` | internal/auditlog/encryption.go:233-277 | writes the plaintext of each non-empty line; stops at the first line that is refused, with its number, and crashes at the first that panics |
| `AuditEncryption.EndsAtFirstBad` | internal/auditlog/encryption.go:248-277 | a run ends at the first line that is neither empty nor opens, in the way of that line |
| `AuditEncryption.OpensIff` | internal/auditlog/encryption.go:280-333 | a line opens to a plaintext iff it parses, version and algorithm are right, the three fields decode, the nonce has 24 bytes, and the cipher opens it |
| `AuditEncryption.RefusedIff` | internal/auditlog/encryption.go:280-330 | a line is refused with the first check that fails |
| `AuditEncryption.FinishesIff` | internal/auditlog/encryption.go:248-277 | a run finishes iff every non-empty line is such an entry, and then its output is exactly their plaintexts |
| `AuditEncryption.PanicsIff` | internal/auditlog/encryption.go:280-333 | a line panics iff it parses, version and algorithm are right, salt, nonce and ciphertext decode, and the nonce does not have 24 bytes |
| `AuditEncryption.CrashesIff` | internal/auditlog/encryption.go:233-333 | a run crashes at a line iff only its nonce has the wrong size and every earlier non-empty line opens |
| `AuditEncryption.EmptyNonceCrashes` | internal/auditlog/encryption.go:326-330 | a file with one line in order but for an empty nonce crashes the run, whatever its ciphertext |
| `AuditEncryption.LineComesBack` | internal/auditlog/encryption.go:280-333 | a sealed line is one non-empty line, and opens to its plaintext under the passphrase, whatever the salt, iff its nonce has the right size |
| `AuditEncryption.LogAppends` | internal/auditlog/encryption.go:178-202 | what one call of Log adds to the file is what one more record adds to the log |
| `AuditEncryption.LogRoundTrip` | internal/auditlog/encryption.go:150-277 | a log written by any loggers with one passphrase and any salts decrypts to exactly the plaintexts, in order, each followed by a newline |
| `AuditSearch.MatchesQuery` | internal/auditlog/search.go:121-230 | an entry matches iff every criterion that is set holds of it |
| `AuditSearch.PatternSearched` | internal/auditlog/search.go:121-230 | a pattern is looked for in direction, host, path and every list of the entry |
| `AuditSearch.FilteredOne` | internal/auditlog/search.go:78-93 | a line contributes its entry iff it is not empty, parses and matches; a carriage return does not belong to it |
| `AuditSearch.FilteredConcat` | internal/auditlog/search.go:78-110 | the filtered log goes line by line, in order |
| `AuditSearch.FoundIff` | internal/auditlog/search.go:78-93 | without a pattern an entry is found iff some line holds it and each criterion, spelled out, allows it |
| `AuditSearch.PatternNarrows` | internal/auditlog/search.go:195-230 | a pattern keeps exactly the entries that have it in one of the searched texts |
| `AuditSearch.DefaultPage` | internal/auditlog/search.go:61-71 | without a positive limit the page has 100 entries |
| `AuditSearch.Search` | internal/auditlog/search.go:54-118 | the page of the filtered log with its total and HasMore; an error iff an overlong line comes before the match that ends the scan |
| `AuditSearch.Collect` | internal/auditlog/search.go:95-109 | one match is skipped, added, or found to be one too many, exactly at offset + limit |
| `AuditSearch.TakenIs` | internal/auditlog/search.go:95-109 | what was collected is the filtered list without its first offset entries |
| `AuditSearch.PagesTile` | internal/auditlog/search.go:54-118 | the first pages of a list concatenate to a prefix of it |
| `AuditSearch.PagesComplete` | internal/auditlog/search.go:54-118 | a page has no more behind it iff the pages so far are the whole list |
| `AuditSearch.SearchesTile` | internal/auditlog/search.go:54-118 | searches at offsets 0, L, 2L, ... return a prefix of the filtered log without a gap; they fail iff an overlong line comes before more matches than these pages hold |
| `AuditSearch.SearchesComplete` | internal/auditlog/search.go:54-118 | in a readable log, HasMore of the last search is false iff the searches so far have returned the whole filtered log |
| `LensCorrelation.Receiver.ProcessSignal` | pkg/lenscorrelation/receiver.go:201-224 | returns the correlation, stores the signal in the bounded window and counts it |
| `LensCorrelation.Receiver.Correlate` | pkg/lenscorrelation/receiver.go:241-286 | the loop's outcome: matching detections, escalation, block recommendation and reason |
| `LensCorrelation.Receiver.RecordRampartDetection` | pkg/lenscorrelation/receiver.go:228-234 | stores the detection, keeping the newest up to the bound |
| `LensCorrelation.Receiver.PruneExpired` | pkg/lenscorrelation/receiver.go:343-362 | keeps the detections strictly after the window start, in order |
| `LensCorrelation.RunKeepsOrder` | pkg/lenscorrelation/receiver.go:201-362 | over every run Blocked <= Escalated <= Correlated <= Total, and both windows stay bounded |
| `LensCorrelation.RunCounts` | pkg/lenscorrelation/receiver.go:201-224 | over every run the counters are the numbers of signals, correlated, escalated and blocked ones |
| `LensCorrelation.NewestIs` | pkg/lenscorrelation/receiver.go:326-339 | a full window keeps its newest entries |
| `LensCorrelation.BlockIffPaired` | pkg/lenscorrelation/receiver.go:252-306 | a block is recommended iff some detection of the domain in the window pairs as critical on either side or high on both; likewise escalation |
| `LensCorrelation.EscalatesByOne` | pkg/lenscorrelation/receiver.go:309-320 | escalation goes up by exactly one level, and leaves critical and other texts alone |
| `LensCorrelation.OrderDoesNotMatter` | pkg/lenscorrelation/receiver.go:252-286 | block, escalation and severity do not depend on the order of the detections |
| `LensCorrelation.BlockReasonIff` | pkg/lenscorrelation/receiver.go:262-279 | the reason is a block reason iff some retained in-window detection pairs for a block, and the signal is not medium or some critical match has no medium one behind it |
| `LensCorrelation.OtherReasons` | pkg/lenscorrelation/receiver.go:262-283 | no match, and an escalation without a block reason, have the reasons of their own |
| `LensCorrelation.ReasonDependsOnOrder` | pkg/lenscorrelation/receiver.go:262-279 | a medium signal with a critical and a medium detection: a block either way, with a reason that depends on their order |
| `LensCorrelation.PrunesAreInvisible` | pkg/lenscorrelation/receiver.go:343-362 | signals and prunes before a clock reading, without new detections, do not change what a signal is correlated with at that reading |
| `LensCorrelation.ExpiredAtSameReading` | pkg/lenscorrelation/receiver.go:248-257 | at the same reading a prune keeps all matches iff no detection of the domain is stamped at the window start |
| `LensCorrelation.EdgeIsLost` | pkg/lenscorrelation/receiver.go:248-257 | a detection stamped at the window start matches, but not after a prune at the same reading |

## Left out

- Floating point: rounding, NaN, infinities and the conversion of huge quotients to int. Measures are exact reals and heuristic scores are tenths.
- Regular expressions, the model runtime, HTTP, TLS, file rotation and opening of files, panic recovery in the worker pool, log messages, latency figures and timestamps: outside libraries or plumbing.
- Detector.Reverse: a word is its bytes, which for ASCII words are its characters; a non-ASCII word, which the program reverses by characters and transposes through a conversion of bytes to characters, is not modelled. All shipped words are ASCII.
- Detector.IsTransposition: the same restriction to words of ASCII characters.
- Latency.Optimizer.PrecomputeVariants: the same restriction to words of ASCII characters.
- Coverage.SharedFormIsMissed: shows that some condition is needed, for one family of words; not which word lists sharing a disguise miss a text.
- Calibration.TrackerIsBatch: tracker and batch agree on the counts and rates only; the tracker never computes AUROC, and takes the threshold from the configuration and the model from the latest entry where the batch takes both from the first.
- Redaction.RedactPII: which of several orders of equal starts the exchange sort gives is left open; for overlapping matches nothing more is promised than the splices themselves.
- Agreement.RuleFlags: the rule-based score without a loaded model, against 0.5; the configured threshold is in Detector.DetectAll.
- Memoisation.AlwaysRightIff: speaks of fixed sets of disguises; StaleAnswer says what a rebuild does.
- Binning.BuildDistribution: the deviation is the root of the variance, taken by Go's library.
- Framing.Server.Run: says what the loop itself writes; the goroutines that dispatch starts to publish diagnostics write whole frames in between, as Senders says. Dispatch and JSON are parameters, the field running is set but never consulted, as in the code, and allocation of huge bodies is left out.
- AuditEncryption.LogRoundTrip: encryption is ideal (opening undoes sealing under the same key, nonce and associated data) and JSON carries the entries a logger writes; loggers append whole lines to one file without rotation.
- AuditEncryption.EncryptedLogger.Log: rotation is left out, and the event arrives already encoded.
- BatchDetect.BatchIsPointwise: each cache operation is one step, because the program holds the cache mutex for it.
- LensCorrelation.Receiver.ProcessSignal: a severity is one of the four texts the code compares with, or any other spelling; validation and the HTTP handler are left out.
- AuditSearch.Search: case folding and lower-casing are parameters, and time stamps are compared as given.
- Keyboard-walk reversal, backslash removal, NormalizeForComparison, CountTokens, GetHistory, GetStats, FlushShadowLog and the setters of the calibration manager: easy members or output.
