# Verified model of the agent tool gateway

Sentinel stands between an agent and its tools. Every tool call passes a rate limiter, a loop guard and a
policy classifier, may have to wait for a human confirmation, runs under a pending audit row, and leaves its
traces in a hash-chained audit log. This project models the stateful and algorithmic core of that gateway in
Dafny and proves what its parts promise over all inputs, all runs and all interleavings.

How the parts are laid out:

| modules | part of the system |
|---|---|
| `JsText`, `JsonText`, `Utf8`, `Int32`, `InsertionOrder` | what JavaScript supplies: UTF-16 strings, `trim`/`split`/`join`, `JSON.stringify` of strings, UTF-8, 32-bit operators, the key order of a `Map` |
| `AuditChain`, `SummaryRedaction` | the hash-chained audit log and its verifier, and the summaries of its rows |
| `Gcra`, `RateLimiter`, `RateLimiterRuns`, `RateLimiterEviction`, `RateLimiterObject` | the rate limiter: the admission law, its state, whole runs with flushing and restarts, whom it evicts, and the object |
| `CanonicalJson`, `CanonicalDecoding`, `LoopGuard`, `LoopGuardObject` | the canonical serializer, and the sliding window of fingerprints |
| `BashSplit`, `BashClassify`, `BashHomomorphism`, `BashPipelines` | the two quote-aware scanners, the command classifier, and what it makes of chains and pipelines |
| `SseFilter` | the chunked server-sent-events filter |
| `JsonSyntax`, `Announcement`, `Confirmations`, `Pipeline`, `Gateway` | the texts `JSON.parse` accepts, announcing a request, the confirmation protocol, the execute pipeline, and protocol and pipeline running together |
| `MemoryStore`, `MemoryStoreObject`, `RankFusion` | the memory store's quota, deduplication and pruning, and hybrid search |
| `Truncation`, `Decoding`, `Ssrf` | output truncation, credential detection through encodings, blocked addresses |

Code that changes state in the source is a class or a method here; each method is proved to compute a
specification function, and the properties are proved about runs of that function. `Model()` is the abstract
value of an object.

What stands outside the model is a parameter with stated hypotheses: SHA-256 (`sha256`, assumed free of
collisions, and never the empty text, where a theorem needs it), Ed25519 signing, the redactors,
what a text column gives back (`store`, assumed to keep exactly the texts without lone surrogates), the
credential patterns, the single-command classifier (`core`), the clock, fresh UUIDs, and the order in which
SQLite returns rows. Time is an input that does not go back where a theorem says so; rates, times and scores
are real numbers.

Where the code differs from what its documentation says, the model follows the code and the difference is
stated as a theorem:

- The audit log hashes an entry before redacting and storing it, so a log verifies exactly when redaction
  changes no summary and no hashed text holds a lone surrogate, which a UTF-8 column does not keep
  (`LogThenVerify`, `StableIff`); and `duration_ms` and `source` are not covered by the hash
  (`UnhashedColumnsUnprotected`).
- The execute pipeline redacts its summaries before it submits them, but redaction is not idempotent: the cut at
  500 units can uncover a match that the text had protected, or halve a surrogate pair. `verifyChain` then
  reports an honest row as broken (`PreRedactedLogVerifies`, `SecondPassIff`, `SsnRowStableIff`,
  `ProtectedParamsBreakRow`).
- Rewriting the last row together with its own hash goes unnoticed (`RehashedTamperPassesIffLast`).
- The rate limiter's eviction, called LRU in its configuration, is first-in first-out (`EvictionIsNotLru`);
  loading does not evict, so an overfull table makes a check forget the agent it admits
  (`OverfullLoadForgetsOwnCheck`); below one request per period nothing is ever admitted and `retryAfter` is
  wrong (`SlowRateNeverAdmits`, `RetryAfterExact`).
- A loop guard whose block threshold exceeds its history size never blocks (`BlockingReachable`).
- `$(` raises the splitter's depth twice and `)` lowers it once. After a text with balanced parentheses that
  has a `$(` outside quotes, an operator is therefore not cut; inside double quotes `$(` does no harm
  (`SubstitutionStaysOpen`, `OperatorCutIffNoSubstitution`). `||` in front of a shell name reads as a pipe into
  that shell (`ClassifyAlternative`).
- Reusing the id of an open request hides that request from every resolver, and an old callback then decides
  the new one (`ReachableIffNoOverlap`, `CallbackTakesEffectOnce`, `StaleCallbackDecidesReusedId`).
- Announcing a request parses its redacted parameters, and throws when redaction ate the end of the text, as
  for a command that ends in a database connection string, or ate brackets inside it (`AnnouncesIff`). The caller is rejected, but timer and entry stay:
  a later approval is answered as a success and announced as a decision although the call has failed, and the
  call ends without any closing row (`ConnectionStringsBreakAnnouncing`, `FailedAnnouncementStillResolves`,
  `PendingIffArmed`, `OneEventPerSettlement`, `TrueIffApproved`, `ResolveSucceedsIffWaiting`,
  `NoClosingRowIffUnannounced`).
- Pruning gives no quota back (`StorageAccounting`, `RefusedForGood`), and a retention shorter than the
  deduplication window lets equal contents be stored again inside the window (`SpacingEverStoredIff`).
- A truncated output is longer than the limit it was cut to (`CutOutputsOvershoot`).
- Short IPv6 groups such as `fc::` are blocked although they are outside fc00::/7 (`IPv6IsPrivateIff`).
- Search shortcuts return repeated ids again, fusion does not (`ShortcutIsFusionIff`).

## Model

| member | source | states |
|---|---|---|
| AuditChain.EntryHashBinds | packages/audit/src/logger.ts:79-94 | equal entry hashes mean equal previous hashes and equal values in all ten hashed fields; no field contents can imitate a delimiter |
| JsonText.StringifyInjective | packages/audit/src/logger.ts:80-92 | different lists of texts serialize differently, whatever their number and whatever quotes, commas, control characters or lone surrogates they hold |
| JsonText.QuoteRoundTrip | packages/policy/src/loop-guard.ts:33-37 | a written string literal is read back exactly, whatever text follows it |
| AuditChain.VerifyFindsFirst | packages/audit/src/logger.ts:236-281 | verification stops at the first row in table order that breaks its link, hash or signature, names that row, and answers valid when there is none |
| AuditChain.VerifyIffRowsOk | packages/audit/src/logger.ts:236-281 | a log is valid if and only if each row passes against its direct predecessor |
| AuditChain.ChainBinding | packages/audit/src/logger.ts:79-94 | two logs that verify and end in the same entry hash have the same length and agree on every hashed column of every row |
| AuditChain.HeadHashDetectsAnyEdit | packages/audit/src/logger.ts:236-281 | with the head hash unchanged no edit of a hashed column, a link or the number of rows verifies |
| AuditChain.TamperDetected | packages/audit/src/logger.ts:252-259 | changing hashed columns of a row fails verification at that row, or at its successor when the row's own hash was recomputed |
| AuditChain.RehashedTamperPassesIffLast | packages/audit/src/logger.ts:252-278 | a forged row with a recomputed hash passes exactly when it is the last row |
| AuditChain.LinksDiffer | packages/audit/src/logger.ts:10-12 | with ids unique, neighbouring links of a verified log carry different hashes |
| AuditChain.DeletionDetected | packages/audit/src/logger.ts:236-281 | deleting any row but the last fails verification at the row that followed it |
| AuditChain.UnhashedColumnsUnprotected | packages/audit/src/logger.ts:79-92 | rewriting duration and source of any row leaves every verdict as it was |
| AuditChain.SignaturesChecked | packages/audit/src/logger.ts:261-276 | with a public key a log verifies if and only if it verifies without, every non-empty signature verifies against the hash of its row, and, when strict, every row has one |
| AuditChain.ForgedSignatureDetected | packages/audit/src/logger.ts:261-272 | a non-empty signature that does not verify, put in place of one in a verified log, breaks the log at its row |
| AuditChain.RemovedSignatureDetectedIffStrict | packages/audit/src/logger.ts:263-275 | a missing or empty signature breaks a verified log at its row exactly when strict |
| AuditChain.SignaturesUnchecked | packages/audit/src/logger.ts:261 | without a public key no signature changes the verdict, strict or not |
| AuditChain.StableIff | packages/audit/src/logger.ts:164-180 | an entry comes back from the table as it was hashed exactly when no column besides the summary holds a lone surrogate and the summary survives redaction and storage |
| AuditChain.LoggedRowOkIffStable | packages/audit/src/logger.ts:144-184 | a row written by `log` passes its check exactly when redaction and storage leave its hashed columns alone |
| AuditChain.LoggedLinked | packages/audit/src/logger.ts:150-184 | each row of a log carries the hash of the row before it, the signature of its own hash, and its duration and source as submitted |
| AuditChain.LogThenVerify | packages/audit/src/logger.ts:144-282 | a log written by `log` verifies if and only if every entry survived redaction and storage, and otherwise breaks at the first that did not |
| AuditChain.PreRedactedLogVerifies | packages/executor/src/router.ts:119-129 | a log of summaries that the pipeline has redacted itself verifies if and only if redacting each of them a second time, and storing it, changes nothing |
| SummaryRedaction.PreRedactedStableIff | packages/audit/src/redact.ts:6-14 | which summaries those are: the short ones that a second cleaning leaves alone, and the cut ones whose cut text survives a second cleaning and cutting |
| SummaryRedaction.ShortSummariesAreStable | packages/audit/src/redact.ts:6-14 | where one cleaning is enough, a summary that needs no cut survives exactly when it holds no lone surrogate |
| SummaryRedaction.HalvedPairIsUnstable | packages/audit/src/redact.ts:9-11 | a cut through a surrogate pair always breaks the row |
| SummaryRedaction.CutMatches | packages/types/src/credential-patterns.ts:197-198 | the cut text of a text without social security numbers has at most one match, at its very end, and has it exactly when the cut uncovers a number |
| SummaryRedaction.SecondPassIff | packages/audit/src/redact.ts:6-14 | redacting social security numbers twice differs from redacting them once exactly when the cut uncovers one: redaction is not idempotent |
| SummaryRedaction.SsnRowStableIff | packages/audit/src/redact.ts:6-14 | for a well-formed text without such numbers the row verifies exactly when the cut, if any, neither halves a surrogate pair nor uncovers a number |
| SummaryRedaction.UncoveredNumberBreaksRow | packages/audit/src/redact.ts:6-14 | an uncovered number breaks the row, whatever the other patterns are, if they find nothing in the two texts |
| SummaryRedaction.ProtectedParamsBreakRow | packages/executor/src/router.ts:20-27 | five string parameters of 100 characters make such a row: an honest call that `verifyChain` reports as broken |
| AuditChain.AuditLogger.Log | packages/audit/src/logger.ts:144-184 | appends exactly the hashed, signed, redacted and stored row to the table; refuses a closed logger or a used id and then changes nothing |
| AuditChain.AuditLogger.VerifyChain | packages/audit/src/logger.ts:209-282 | the loop over the rows, signatures included, answers what the specification of verification answers for the whole table; a closed logger answers nothing |
| AuditChain.AuditLogger.Close | packages/audit/src/logger.ts:296-305 | the signing key is overwritten with zeros in place and the logger is closed; its table stays |
| Gcra.RetryAfterExact | packages/policy/src/rate-limiter.ts:69-76 | for every denied request the hint is the least delay after which it is admitted, if and only if one emission interval fits into the period |
| Gcra.SlowRateNeverAdmits | packages/policy/src/rate-limiter.ts:29-76 | with fewer than one request per period no request is ever admitted |
| Gcra.ScheduleStep | packages/policy/src/rate-limiter.ts:69-84 | the arrival time stays the latest of all admitted times pushed on by the intervals due since each |
| Gcra.DecideIffFits | packages/policy/src/rate-limiter.ts:69-76 | given such an arrival time, admission means that the request fits every window that ends with it |
| Gcra.ExactAdmission | packages/policy/src/rate-limiter.ts:69-84 | after any history, in any order of times, a request is admitted exactly when no window bound breaks: neither too strict nor too lax |
| Gcra.HistoryRateBounded | packages/policy/src/rate-limiter.ts:69-84 | any n admitted requests from t1 to tn satisfy n intervals <= (tn - t1) + period |
| Gcra.RateBoundedStep | packages/policy/src/rate-limiter.ts:69-84 | admitting a request that fits every window keeps all windows within the rate |
| Gcra.BucketAgrees | packages/policy/src/rate-limiter.ts:69-76 | the limiter and a continuous-state leaky bucket (the second form of ITU-T I.371 Annex A) give the same answers and hints on every run |
| RateLimiter.StepOk | packages/policy/src/rate-limiter.ts:69-146 | every operation keeps key order, table of times and dirty set consistent |
| RateLimiter.EvictionKeepsNewest | packages/policy/src/rate-limiter.ts:78-94 | after an admitted check exactly the last `maxAgents` keys are remembered |
| RateLimiter.OwnCheckIsRemembered | packages/policy/src/rate-limiter.ts:78-94 | with at most `maxAgents` tracked, a check never evicts its own agent |
| RateLimiter.OwnCheckForgottenIff | packages/policy/src/rate-limiter.ts:78-94 | an admitted check forgets its own agent exactly when that agent was tracked before at least `maxAgents` others |
| RateLimiter.OverfullLoadForgetsOwnCheck | packages/policy/src/rate-limiter.ts:49-94 | after any load, an admitted check forgets its agent exactly when the agent was read before the last `maxAgents` live rows |
| RateLimiter.OverfullLoadWitness | packages/policy/src/rate-limiter.ts:49-94 | two live rows and room for one agent make it happen |
| RateLimiterEviction.EvictionIsNotLru | packages/policy/src/rate-limiter.ts:7-94 | some run of a limiter that is never reopened evicts an agent although another was used less recently, if and only if two agents fit and one request per period is admitted |
| RateLimiterRuns.WindowLaw | packages/policy/src/rate-limiter.ts:69-133 | over any run of any agents, resets, flushes and evictions: the requests admitted since an agent was last forgotten stay within the rate in every window, and its next one is admitted exactly when it fits |
| RateLimiterRuns.WindowLawFromStart | packages/policy/src/rate-limiter.ts:25-133 | the same from a fresh limiter, for every agent |
| RateLimiterRuns.RunsTrack | packages/policy/src/rate-limiter.ts:49-146 | where nobody is evicted, a limiter reopened from time to time gives the answers of one never closed, and at the end remembers what that one does, up to expired times, with every clean time equal to its row |
| RateLimiterRuns.RestartTransparent | packages/policy/src/rate-limiter.ts:49-146 | a run with any number of reopenings gives the answers of the run without them, if that run evicts nobody |
| RateLimiterRuns.RateBoundAcrossRestarts | packages/policy/src/rate-limiter.ts:49-146 | where nobody is evicted, the answers an agent sees respect the rate in every window since its last reset, across restarts |
| RateLimiterRuns.AdmissionAcrossRestarts | packages/policy/src/rate-limiter.ts:49-146 | where nobody is evicted, a request is admitted exactly when it fits every window beside the admissions the agent has seen since its last reset, across restarts |
| RateLimiterRuns.TickSurvivesCrash | packages/policy/src/rate-limiter.ts:49-133 | after a tick a limiter opened on the table, although the old one was never closed, remembers every time that has not expired |
| RateLimiterObject.Limiter.Open | packages/policy/src/rate-limiter.ts:25-67 | construction fails exactly for non-positive rate, period or `maxAgents`; otherwise it holds the live rows of the table |
| RateLimiterObject.Limiter.LoadRows | packages/policy/src/rate-limiter.ts:49-59 | the loop over the rows loads each live row once and no expired one |
| RateLimiterObject.Limiter.Check | packages/policy/src/rate-limiter.ts:69-84 | answer and new state are those of the specification; nothing but order, times and dirty set changes |
| RateLimiterObject.Limiter.EvictIfNeeded | packages/policy/src/rate-limiter.ts:86-94 | the loop removes the oldest keys, from the dirty set too, until the size fits |
| RateLimiterObject.Limiter.ResetAgent | packages/policy/src/rate-limiter.ts:96-103 | forgets one agent in memory, dirty set and table and leaves the others |
| RateLimiterObject.Limiter.ResetAll | packages/policy/src/rate-limiter.ts:103-110 | forgets everything, rows included |
| RateLimiterObject.Limiter.Flush | packages/policy/src/rate-limiter.ts:113-133 | afterwards every dirty time is in its row, other rows are as before, and nothing is dirty |
| RateLimiterObject.Limiter.WriteDirty | packages/policy/src/rate-limiter.ts:117-124 | the loop writes each dirty agent's time once, in any order of the set |
| RateLimiterObject.Limiter.Close | packages/policy/src/rate-limiter.ts:136-146 | leaves all dirty times in the table and lets go of it |
| RateLimiterObject.CloseAndReopen | packages/policy/src/rate-limiter.ts:25-146 | closing one object and opening the next on its table is the reopening step of the runs above |
| CanonicalJson.NormalFormDecides | packages/policy/src/loop-guard.ts:32-40 | two values have equal normal forms exactly when they differ at most in key order, at any depth |
| CanonicalJson.NormalKeysAscend | packages/policy/src/loop-guard.ts:35 | the normal form of an object has its own keys, in ascending order of UTF-16 code units |
| CanonicalDecoding.RoundTrip | packages/policy/src/loop-guard.ts:32-40 | a parser reads back the normal form of a value from its serialization and stops exactly at its end |
| CanonicalDecoding.CanonicalForm | packages/policy/src/loop-guard.ts:32-40 | serializations are equal if and only if the values differ at most in key order |
| LoopGuard.FingerprintDecides | packages/policy/src/loop-guard.ts:42-44 | equal fingerprints mean the same tool and parameters equal up to key order, and conversely |
| LoopGuard.WindowStep | packages/policy/src/loop-guard.ts:71-81 | filtering and trimming at each call yields the window of the full, unpruned history |
| LoopGuard.WindowCountsCalls | packages/policy/src/loop-guard.ts:88 | counting fingerprints in the stored window counts equal calls of the full history |
| LoopGuard.EvictSparesCaller | packages/policy/src/loop-guard.ts:84-110 | one call evicts at most one agent, the oldest, and never the caller |
| LoopGuard.CheckKeeps | packages/policy/src/loop-guard.ts:64-103 | a check keeps each agent's entries equal to the window of its full history and adds one call to the caller's |
| LoopGuard.RunKeeps | packages/policy/src/loop-guard.ts:64-118 | the same over every run of checks, evictions and resets |
| LoopGuard.DuplicateCountExact | packages/policy/src/loop-guard.ts:64-103 | after any run the verdict counts the caller's equal calls among its last `maxHistorySize` since it was forgotten that are inside the window |
| LoopGuard.CheckForgets | packages/policy/src/loop-guard.ts:84-110 | a check forgets the agent tracked first, exactly when the caller is new and all places are taken, and leaves every other agent as it was |
| LoopGuard.HistoryIsCalls | packages/policy/src/loop-guard.ts:64-118 | where there is room for all agents, the history of each is the calls it made since its last reset |
| LoopGuard.VerdictExact | packages/policy/src/loop-guard.ts:87-103 | in terms of those calls alone: the equal ones in the window are counted, and the verdict is block from the block threshold on, warn from the warn threshold on, and allow below both |
| LoopGuard.BlockingReachable | packages/policy/src/loop-guard.ts:52-96 | some run gets blocked exactly when the block threshold is at most the history size |
| LoopGuardObject.Guard.Create | packages/policy/src/loop-guard.ts:50-62 | refuses exactly the configurations the constructor refuses and starts empty |
| LoopGuardObject.Guard.Check | packages/policy/src/loop-guard.ts:64-103 | verdict and new state are those of the specification |
| LoopGuardObject.Guard.Remember | packages/policy/src/loop-guard.ts:68-84 | stores the filtered, extended and trimmed entries of the caller and nothing else |
| LoopGuardObject.Guard.EvictIfNeeded | packages/policy/src/loop-guard.ts:105-110 | the loop evicts oldest agents until the limit holds |
| LoopGuardObject.Guard.ResetAgent | packages/policy/src/loop-guard.ts:112-114 | forgets one agent and keeps the others in order |
| LoopGuardObject.Guard.ResetEverything | packages/policy/src/loop-guard.ts:115-118 | forgets all agents |
| JsText.TrimPadded | packages/policy/src/bash-parser.ts:286 | trimming finds the same core under any blank padding |
| BashSplit.ChainConserved | packages/policy/src/bash-parser.ts:192-240 | pieces woven with the removed operators rebuild the command; what is removed is always a semicolon, a double ampersand or a double bar |
| BashSplit.PiecesClosed | packages/policy/src/bash-parser.ts:199-233 | each piece scans as one piece on its own and ends outside quotes and parentheses when an operator follows it |
| BashSplit.ChainIdempotent | packages/policy/src/bash-parser.ts:192-240 | splitting a non-blank part again returns that part alone |
| BashSplit.PiecesAcross | packages/policy/src/bash-parser.ts:192-240 | at an operator reached outside quotes and parentheses, splitting a chain concatenates the splits of its sides |
| BashSplit.PipesConserved | packages/policy/src/bash-parser.ts:245-279 | stages joined by single bars rebuild the segment |
| BashSplit.StagesClosed | packages/policy/src/bash-parser.ts:251-272 | each stage scans as one stage on its own, and a pipe follows it only outside quotes |
| BashSplit.StagesAcross | packages/policy/src/bash-parser.ts:251-272 | at a lone bar outside quotes, splitting a pipeline concatenates the splits of what is before and after it |
| BashSplit.BarSeparatesIff | packages/policy/src/bash-parser.ts:261-268 | a bar between any two texts does so if and only if the quotes before it are closed and no other bar touches it |
| BashSplit.PipeIdempotent | packages/policy/src/bash-parser.ts:245-279 | splitting a non-blank stage again returns it alone |
| BashSplit.SplitChainedCommands | packages/policy/src/bash-parser.ts:192-240 | the loop over quote flags, depth and current part delivers the pieces above, less a blank tail |
| BashSplit.SplitPipeline | packages/policy/src/bash-parser.ts:245-279 | the loop delivers the stages above, less a blank tail |
| BashClassify.ClassifyBashCommand | packages/policy/src/bash-parser.ts:285-313 | the early return and the nested loops compute the greatest of all stages, the shell-pipe signal and the redirect signal |
| BashClassify.RedirectIffShortRun | packages/policy/src/bash-parser.ts:86-88 | a text has a redirect exactly when it holds one or two `>` with no `>` next to them |
| BashClassify.PipeToShellIff | packages/policy/src/bash-parser.ts:90-92 | a text pipes into a shell exactly when it holds a bar followed by blanks and one of the three shell names as a whole word |
| BashClassify.ClassifyIsLeastCover | packages/policy/src/bash-parser.ts:285-313 | no stage ranks above the command, and a rank above both signals is that of some stage |
| BashHomomorphism.TrimIrrelevant | packages/policy/src/bash-parser.ts:286-313 | classification does not depend on blanks around the command |
| BashHomomorphism.RedirectAcross | packages/policy/src/bash-parser.ts:86-88 | a chain has a redirect exactly when one of its sides has one |
| BashHomomorphism.PipeAcross | packages/policy/src/bash-parser.ts:90-92 | a chain or pipeline pipes into a shell exactly when a side does, or a bar or double bar stands before a shell name |
| BashHomomorphism.ClassifyChain | packages/policy/src/bash-parser.ts:192-313 | the category of a chain is the maximum of its sides', for all three operators, with the one exception for the double bar |
| BashHomomorphism.ClassifySequence | packages/policy/src/bash-parser.ts:192-313 | for `;` classification is a homomorphism into the maximum |
| BashHomomorphism.ClassifyAlternative | packages/policy/src/bash-parser.ts:192-313 | for the double bar it is one exactly when the right side is no shell invocation or a side is dangerous anyway |
| BashHomomorphism.DoubleBarWitness | packages/policy/src/bash-parser.ts:90-92 | `echo a`, a double bar and `sh` make a dangerous chain, whatever the two commands are classified as |
| BashHomomorphism.DepthDrifts | packages/policy/src/bash-parser.ts:209-215 | once deeper than its open parentheses the scanner gets one level deeper with every further substitution, sees no quotes and cuts nothing, to the end of any text that closes its parentheses |
| BashHomomorphism.SubstitutionStaysOpen | packages/policy/src/bash-parser.ts:199-233 | a complete text leaves the scanner outside quotes and parentheses if and only if it has no `$(` outside quotes |
| BashHomomorphism.UnquotedIsComplete | packages/policy/src/bash-parser.ts:199-233 | a text without quotes is complete when its parentheses balance, and then it is left open exactly when it contains `$(` |
| BashHomomorphism.OperatorCutIffNoSubstitution | packages/policy/src/bash-parser.ts:192-240 | an operator after a complete text is cut if and only if the text has no `$(` outside quotes |
| BashPipelines.QuotesProtectChain | packages/policy/src/bash-parser.ts:203-236 | what stands between quotes is never cut, whatever it is and whatever stands before and after it |
| BashPipelines.QuotesProtectPipeline | packages/policy/src/bash-parser.ts:255-271 | a bar between quotes is never a pipe |
| BashPipelines.GroupIsOnePiece | packages/policy/src/bash-parser.ts:209-215 | nor is anything cut between parentheses that balance and hold no `$(` |
| BashPipelines.ClassifyPipe | packages/policy/src/bash-parser.ts:192-313 | the category of a pipeline is the maximum of those of the texts before and after a lone bar, and dangerous when a shell invocation follows the bar |
| BashPipelines.ClassifyPipeUnnested | packages/policy/src/bash-parser.ts:192-313 | for texts without parentheses before the bar it is enough that the quotes there are closed |
| SseFilter.StreamFramed | packages/executor/src/sse-credential-filter.ts:17-72 | for every cutting of a stream into chunks, forced flushes included, the output is the line filter of each stretch between flushes |
| SseFilter.StretchesCover | packages/executor/src/sse-credential-filter.ts:17-35 | the stretches put together are the stream: nothing is dropped or repeated |
| SseFilter.OneStretchIffNoOverflow | packages/executor/src/sse-credential-filter.ts:22-35 | there is a single stretch exactly when the buffer never passes the limit |
| SseFilter.ChunkingDoesNotMatter | packages/executor/src/sse-credential-filter.ts:17-72 | without overflow every chunking emits the one-shot filter of the whole stream |
| SseFilter.DrainFilters | packages/executor/src/sse-credential-filter.ts:37-56 | what is emitted plus the filter of what is left is the filter of the buffer, whatever is still to come |
| SseFilter.DrainExhausts | packages/executor/src/sse-credential-filter.ts:37-56 | no complete event stays in the buffer |
| SseFilter.FilterKeepsLines | packages/executor/src/sse-credential-filter.ts:44-52 | a redactor that adds no newline keeps the lines of a stream, each filtered |
| SseFilter.EventsFiltered | packages/executor/src/sse-credential-filter.ts:37-56 | splitting the filtered stream at blank lines gives the filtered events (section 9.2.6 of the HTML Living Standard) |
| SseFilter.StreamEvents | packages/executor/src/sse-credential-filter.ts:17-72 | the receiver of any chunking sees the same events as were sent, each filtered |
| SseFilter.StreamRedacted | packages/executor/src/sse-credential-filter.ts:44-52 | without overflow, for a redactor that adds no newline, the receiver gets exactly the lines sent: the content of each `data:` line redacted, after the blank if there is one, and every other line as it was |
| SseFilter.FlushedStreamRedacted | packages/executor/src/sse-credential-filter.ts:22-35 | with forced flushes the same, and a blank line more at each flush |
| SseFilter.OverflowsIff | packages/executor/src/sse-credential-filter.ts:22-35 | a stream is flushed by force exactly when some chunk makes an unfinished event longer than 1 MiB |
| SseFilter.Filter.Transform | packages/executor/src/sse-credential-filter.ts:18-57 | one chunk enqueues what the specification says: what it has become possible to send, ending with a complete event, each `data:` line redacted and every other line as it was; the unfinished event stays in the buffer, and an oversize buffer is emitted redacted and closed |
| SseFilter.Filter.Flush | packages/executor/src/sse-credential-filter.ts:58-71 | the end of the stream emits the rest with each `data:` line redacted, or nothing |
| Confirmations.PendingIffArmed | packages/executor/src/server.ts:129-176 | a request is armed exactly while its caller waits, throughout the run, if and only if it was announced; an unannounced one starts its timer although nobody waits |
| Confirmations.SettledForGood | packages/executor/src/server.ts:88-155 | a settled request keeps its value through every continuation |
| Confirmations.OneEventPerSettlement | packages/executor/src/server.ts:103-146 | each settlement has exactly one resolved event with its id and decision, and there is no other such event, exactly when no unannounced request was closed |
| Confirmations.EventsBalancedIffAnnounced | packages/executor/src/server.ts:103-176 | events and settlements of an id stay in balance in every continuation without further requests exactly when all its requests were announced |
| Confirmations.OneEventPerRequest | packages/executor/src/server.ts:103-146 | when ids are not reused, a request has one resolved event once it is closed and none before; if it was announced it is settled by then, and the event carries its decision |
| Confirmations.TrueIffApproved | packages/executor/src/server.ts:88-176 | a request settles true if and only if it was announced and was approved while it was open |
| Confirmations.RequestOpens | packages/executor/src/server.ts:129-176 | over every run a new request is armed and registered under its id; it waits, and the clients are told of it, exactly when announcing it does not throw |
| Confirmations.TimerDenies | packages/executor/src/server.ts:131-146 | over every run the timer of an announced request whose caller waits settles it false, once, with a timed-out event, and takes its entry; a timer that is not armed does nothing |
| Confirmations.ResolutionDecides | packages/executor/src/server.ts:88-118 | over every run a resolution gives the announced request registered under its id the value and the event it says, with its source; with nothing registered it does nothing |
| Confirmations.ReachableIffNoOverlap | packages/executor/src/server.ts:148-155 | open requests stay reachable throughout exactly when no id is reused while a request with it is open |
| Confirmations.ResolveSucceedsIffWaiting | packages/executor/src/server.ts:476-495 | with no overlap, resolving succeeds exactly for the ids of open requests; and exactly when somebody waits, as the 404 answer of the route promises, if and only if the open request with that id was announced |
| Confirmations.RedeliveryHarmless | packages/executor/src/egress-proxy.ts:101-117 | a callback for an id that is not pending finds nothing to decide at any later time, exactly when no later request takes the id |
| Confirmations.CallbackTakesEffectOnce | packages/executor/src/egress-proxy.ts:101-117 | a callback delivered again after its first delivery changes nothing, exactly when no request took the id in between |
| Confirmations.StaleCallbackDecidesReusedId | packages/executor/src/egress-proxy.ts:101-102 | in every reachable state an old callback decides a new request that reuses its id |
| Confirmations.FailedAnnouncementStillResolves | packages/executor/src/server.ts:88-176 | in every reachable state a request whose announcement throws is rejected at once, yet resolving it is answered as a success and told to the clients as a decision, and settles nothing |
| Confirmations.FailedAnnouncementHidesRetry | packages/executor/src/server.ts:131-155 | the timer of such a request takes the entry of a retry under the same id with it, and the retry waits on out of reach |
| Announcement.ClosedIffConnectionEnds | packages/executor/src/server.ts:172 | redaction of connection strings leaves the text of an object closed exactly when no connection string runs on to its end |
| JsonSyntax.RestTellsConfig | packages/executor/src/server.ts:172 | what follows a point inside a string of a JSON text determines which containers are open there and whether the string is a key or a value |
| Announcement.ConnectionStringsBreakAnnouncing | packages/executor/src/server.ts:172 | announcing throws whenever a connection string runs on to the end of the parameters, and does not throw when there is none |
| Announcement.LastStringBreaksAnnouncing | packages/types/src/credential-patterns.ts:39 | parameters whose last string ends in a connection string, of any of the four schemes, cannot be announced |
| Announcement.PsqlCommandBreaksAnnouncing | packages/types/src/credential-patterns.ts:39 | the parameters {"command":"psql postgres://u:p@h/db"} cannot be announced |
| Announcement.AnnouncesIff | packages/executor/src/server.ts:172 | parameters can be announced if and only if they hold no connection string, or the last one stops before their end and the redacted text before it leads the parser to where the original stands behind it: the same containers, and a string of the same role |
| Confirmations.CallbackRoundTrip | packages/executor/src/egress-proxy.ts:53-102 | callback data for an id without a colon is read back as the decision it stands for, from an authorized chat |
| Confirmations.DrivesIffOrdered | packages/executor/src/egress-proxy.ts:53-102 | an update drives one resolution, from Telegram, exactly when an authorized chat sends `confirm:`, an id without a colon, and `:approve` or `:reject`; otherwise it drives nothing |
| Confirmations.UpdateObeyed | packages/executor/src/egress-proxy.ts:51-124 | for every update: state, answer with its alert flag, and update handed on, in each case of chat, number of fields, action and pending id |
| Confirmations.BatchObeyed | packages/executor/src/egress-proxy.ts:47-125 | in a batch every update is so treated in the state that those before it left |
| Confirmations.UnauthorizedRefused | packages/executor/src/egress-proxy.ts:60-73 | a batch from chats that are not authorized changes nothing, and each confirmation callback in it is answered "Unauthorized" with an alert |
| Confirmations.Server.Confirm | packages/executor/src/server.ts:129-176 | arms the timer, registers the request and announces it; when redacting and parsing its parameters throws, the promise is rejected and timer and entry stay |
| Confirmations.Server.ResolveConfirmation | packages/executor/src/server.ts:88-118 | result and new state are those of a resolution step |
| Confirmations.Server.TimerFires | packages/executor/src/server.ts:131-146 | new state is that of a timeout step |
| Confirmations.Server.InterceptOne | packages/executor/src/egress-proxy.ts:51-124 | one update drives at most one resolution and is answered and replaced as its chat, its data and the pending id ask for |
| Confirmations.Server.InterceptTelegramUpdates | packages/executor/src/egress-proxy.ts:47-125 | a batch resolves what its authorized callbacks say, in order; every update keeps its place and id; without an authorized chat nothing changes |
| Confirmations.Stubs | packages/executor/src/egress-proxy.ts:47-125 | of a batch only updates that are not confirmation callbacks keep their content |
| Pipeline.AuditIdsDistinct | packages/executor/src/router.ts:48-251 | over every interleaving of calls no audit id is used twice |
| Pipeline.OneClosingRow | packages/executor/src/router.ts:48-251 | a finished call has exactly one closing row, or none if its confirmation promise was rejected; an unfinished one has none |
| Pipeline.StartsArePermitted | packages/executor/src/router.ts:131-209 | a handler runs at most once per call, directly after the call's own pending row, and only if auto-approved, allowed or user-approved |
| Pipeline.AuditAccounting | packages/executor/src/router.ts:195-251 | pending rows less the closing rows of started calls are the handlers in flight |
| Pipeline.EveryRowHasItsCause | packages/executor/src/router.ts:48-251 | every row was added by the operation that is the cause its result names, and that operation concerns the call of the row |
| Pipeline.EveryCauseHasItsRow | packages/executor/src/router.ts:48-251 | conversely every cause has its row: the operation added exactly one row of that result for its call, a loop-guard warning before anything else |
| Pipeline.RowsAreCauses | packages/executor/src/router.ts:48-251 | over every interleaving the trail holds, for each call and result, as many rows as there were causes for one |
| Pipeline.OneCallMoves | packages/executor/src/router.ts:48-251 | every enabled operation takes its own call, and no other, into the one stage that guards, answer, screening or outcome name |
| Pipeline.HandlerEndIsLogged | packages/executor/src/router.ts:206-251 | a handler that ends finishes its call and adds one row: a failure under a new id when it threw, and otherwise, under the call's own id, blocked output, success or failure |
| Pipeline.TrailTellsTruth | packages/executor/src/router.ts:48-251 | a denial row stands only for a call that was to be confirmed, was not approved and never ran; a success only for a call that ran; a pending row only for a permitted call; each row names the decision of its call, a loop-guard warning says allow, and denials, refusals by policy and successes carry the call's own id |
| Pipeline.RunKeeps | packages/executor/src/router.ts:48-251 | every call's tally of pending, closing and started marks is that of its stage, after every run |
| Pipeline.Executor.Execute | packages/executor/src/router.ts:48-209 | the code from arrival to the first await is one arrival step |
| Pipeline.Executor.ScreenAndStart | packages/executor/src/router.ts:162-209 | moderation, handler lookup, pending row and handler start in that order |
| Pipeline.Executor.ConfirmationSettled | packages/executor/src/router.ts:146-209 | resuming after the confirmation is one answer step |
| Pipeline.Executor.HandlerEnded | packages/executor/src/router.ts:206-251 | the code after the handler is one completion step |
| Gateway.SidesRun | packages/executor/src/server.ts:443 | a run of the gateway is a run of the confirmation server and a run of the pipeline |
| Gateway.RunInv | packages/executor/src/router.ts:145-160 | each waiting call has its own promise, a call counts as approved only if that promise settled true, and fails at its confirmation only if that promise was rejected |
| Gateway.ConfirmedBeforeRun | packages/executor/src/router.ts:145-209 | when policy asks for confirmation, the handler runs only if that call's own request was approved while it waited; no approval serves two calls |
| Gateway.ConfirmAsks | packages/executor/src/server.ts:129-176 | a call asks for a confirmation exactly when it passes both guards and the policy says so, and waits on a promise of its own |
| Gateway.ResumeDelivers | packages/executor/src/router.ts:145-160 | a waiting call resumes with its promise: approved when it settled true, refused with a denial row when it settled false, failed without a row when it was rejected, and not before |
| Gateway.DecisionReachesCall | packages/executor/src/router.ts:145-209 | an approval, denial or timeout of a waiting call's request decides, once it resumes, whether its handler starts |
| Gateway.OneSideActs | packages/executor/src/server.ts:443-495 | every other operation reaches the server or the pipeline as it is and leaves the other alone |
| Gateway.DeniedNeverRuns | packages/executor/src/server.ts:131-176 | a call whose request timed out, was denied or was never announced never starts a handler, whatever is resolved under its id |
| Gateway.NoClosingRowIffUnannounced | packages/executor/src/router.ts:145-160 | a finished call has no closing row exactly when it asked for a confirmation that could not be announced |
| MemoryStore.KeptExactly | packages/memory/src/store.ts:411-422 | a prune keeps exactly the rows that are young enough or listed in a summary |
| MemoryStore.StepAccounting | packages/memory/src/store.ts:249-422 | the counter moves by the bytes stored, never down, and not past the quota |
| MemoryStore.StorageAccounting | packages/memory/src/store.ts:267-303 | over every run the counter is the bytes stored plus the bytes pruned and stays within the quota |
| MemoryStore.CounterIsAllBytes | packages/memory/src/store.ts:267-380 | the counter is every byte ever stored |
| MemoryStore.SummaryCharge | packages/memory/src/store.ts:344-351 | a summary is charged for the bytes of its four lists as written and of its title, and not for the observations it lists |
| MemoryStore.AdmittedIffFits | packages/memory/src/store.ts:255-303 | over every run, content is answered with a live duplicate when there is one, refused exactly when the bytes ever stored leave no room for it, and otherwise stored |
| MemoryStore.SummaryAdmittedIffFits | packages/memory/src/store.ts:343-380 | a summary is refused exactly when the bytes ever stored leave no room for it, and otherwise stored |
| MemoryStore.RowsConserved | packages/memory/src/store.ts:249-422 | each row ever stored is still there or was pruned, once |
| MemoryStore.LiveSpaced | packages/memory/src/store.ts:258-265 | over every run, rows with equal hashes are at least the window apart |
| MemoryStore.DuplicateUnique | packages/memory/src/store.ts:232-234 | at most one row matches the duplicate query, so its row order decides nothing |
| MemoryStore.SpacingEverStoredIff | packages/memory/src/store.ts:258-422 | contents ever stored, pruned ones included, are the window apart in every run exactly when the retention leaves no gap below the window |
| MemoryStore.ListedNeverPruned | packages/memory/src/store.ts:414-419 | an observation stored and listed in a summary survives every continuation of the run |
| MemoryStore.RefusedForGood | packages/memory/src/store.ts:267-274 | content refused for want of quota is refused for ever after, whatever is pruned |
| MemoryStoreObject.Store.Observe | packages/memory/src/store.ts:249-303 | answer and tables are those of the specification; a closed store changes nothing |
| MemoryStoreObject.Store.WriteSummary | packages/memory/src/store.ts:339-381 | the same for summaries |
| MemoryStoreObject.Store.PruneObservations | packages/memory/src/store.ts:411-422 | deletes exactly the old rows that no summary lists, and counts them |
| RankFusion.AddRanks | packages/memory/src/store.ts:478-500 | each loop over a ranking adds to every id's score what the ranking is worth to it and appends new ids in order |
| RankFusion.HybridSearch | packages/memory/src/store.ts:474-507 | shortcuts, both loops, stable sort and limit deliver the fused ranking below |
| RankFusion.SortRanks | packages/memory/src/store.ts:502-504 | the sort orders every pair by score, ties by first appearance |
| RankFusion.FusedIsRanking | packages/memory/src/store.ts:474-507 | fusion holds each id of either ranking once, ordered by score and first appearance |
| RankFusion.ScoreByRanks | packages/memory/src/store.ts:474-500 | an id found by both searches scores 1 / (60 + rank) from each |
| RankFusion.AgreementBeatsFirst | packages/memory/src/store.ts:474-500 | found at the same rank by both searches, an id outranks the first of the text search, if the vector search lacks that one, exactly up to rank 61 |
| RankFusion.FoundIsBest | packages/memory/src/store.ts:470-507 | results are distinct, ordered by score, as many as the limit allows, and nothing left out scores above anything returned; a search with only one ranking needs it free of repetitions |
| RankFusion.AheadStaysAhead | packages/memory/src/store.ts:474-507 | an id ahead of another in both rankings (or absent with it from one) is ahead of it in every result that has the other |
| RankFusion.ShortcutIsFusionIff | packages/memory/src/store.ts:470-472 | each one-ranking shortcut equals fusion with the empty ranking, for every limit, exactly when the ranking repeats no id |
| Utf8.Utf16OfScalars | packages/executor/src/output-truncation.ts:15-21 | converting a text to code points and back loses nothing exactly when no surrogate stands alone |
| Utf8.DecodeIffEncoded | packages/executor/src/output-truncation.ts:15-21 | a strict decoder (section 3 of RFC 3629) reads bytes as code points exactly when the bytes are their encoding |
| Utf8.MaskTest | packages/executor/src/output-truncation.ts:18 | the bit test recognizes the continuation bytes |
| Truncation.Boundary | packages/executor/src/output-truncation.ts:16-20 | around the last boundary at or below the limit the byte there starts a code point and all up to the limit continue it |
| Truncation.TruncateOutput | packages/executor/src/output-truncation.ts:9-23 | the loop backs up to the longest run of code points that fits, and the notice follows it |
| Truncation.TruncateBashOutput | packages/executor/src/output-truncation.ts:28-30 | the same at 50 KB |
| Truncation.TruncationIsMaximal | packages/executor/src/output-truncation.ts:9-23 | the cut is on a code-point boundary, at most three bytes below the limit, one more code point would not fit, and a well-formed output keeps a prefix of itself |
| Truncation.CutOutputsOvershoot | packages/executor/src/output-truncation.ts:9-23 | a result fits the limit exactly when its input did, since the notice comes on top |
| Decoding.RecursiveContainsCredential | packages/types/src/credential-patterns.ts:96-140 | the recursive loop over chunks and the URL step answer what the specification answers |
| Decoding.ClearIffEveryChainClear | packages/types/src/credential-patterns.ts:96-140 | no is answered exactly when every chain of decodings ends before the depth limit and meets no match and no oversize text |
| Decoding.DeeperIsStricter | packages/types/src/credential-patterns.ts:97-100 | starting deeper only adds alarms |
| Decoding.ClearIsSound | packages/types/src/credential-patterns.ts:96-140 | after a no, no text reachable by any number of base64 or URL decodings matches |
| Int32.ShiftIn | packages/executor/src/ssrf-guard.ts:27 | the signed shift and or append an octet |
| Int32.SameUnderMask | packages/executor/src/ssrf-guard.ts:34-35 | equality under the prefix mask is equality of the remaining high bits |
| Ssrf.InCidrIsPrefix | packages/executor/src/ssrf-guard.ts:33-36 | block membership is equality of the leading bits as integers, for every prefix from 0 to 32 (section 3.1 of RFC 4632) |
| Ssrf.PackedFour | packages/executor/src/ssrf-guard.ts:22-29 | four octets pack to a*2^24 + b*2^16 + c*2^8 + d, also after the last shift turned the number negative |
| Ssrf.ParseIPv4 | packages/executor/src/ssrf-guard.ts:20-30 | the loop of signed shifts returns the address as one number, and null exactly for anything but four octets |
| Ssrf.DottedIsPrivateIff | packages/executor/src/ssrf-guard.ts:48-71 | a dotted address is blocked exactly when its octets are in one of the six ranges (three of them from section 3 of RFC 1918) |
| Ssrf.MappedFormsAgree | packages/executor/src/ssrf-guard.ts:49-65 | the hexadecimal and the dotted IPv4-mapped forms (section 2.5.5.2 of RFC 4291), for all values and either case, are blocked exactly when the plain address is |
| Ssrf.IPv6IsPrivateIff | packages/executor/src/ssrf-guard.ts:73-89 | an IPv6 address that begins with a group of digits is blocked exactly when that group is in fc00::/7 or fe80::/10, and besides when it is shorter than four digits and begins with fc or fd |
| Ssrf.ColonFirstIsPrivateIff | packages/executor/src/ssrf-guard.ts:73-89 | of the addresses that begin with a colon and are not IPv4-mapped, exactly the loopback `::1` is blocked |
| Ssrf.ShortGroupWitness | packages/executor/src/ssrf-guard.ts:76-80 | `fc::` is blocked although its first group is outside fc00::/7 |

## Left out

- HTTP servers, sockets, DNS, `fetch`, Docker, CLI prompts, the confirmation page and Telegram message texts: input, output and presentation.
- SHA-256, Ed25519, HMAC tokens and the vault: cryptographic primitives are function parameters with stated hypotheses.
- Regular expressions of the credential, PII, moderation and deny lists: opaque predicates and rewriters.
- `classifySingleCommand`: beyond trimming and the blank case it is the parameter `core`; its tables of command names would add only easy members.
- SQLite, FTS5 and the vector index: tables are sequences or maps, ranked lists are inputs, and failed writes are not modelled.
- The FTS and vector rows that go with an observation, and all query and search methods except the fusion.
- Zod schemas: a request arrives parsed, or as refused.
- `substitutePlaceholders`, `trimToFit`, header and environment filters, version checks: easy members only.
- Wall-clock time that goes back: the limiter's admission law holds for any order of times, the other run theorems ask for a clock that does not.
- Gcra.HistoryRateBounded: arrival times are real numbers, so rounding of the source's doubles is not modelled.
- RankFusion.HybridSearch: rows are represented by their ids and scores are real numbers, so rounding of sums is not modelled.
- RateLimiterRuns.RestartTransparent: asks that the limiter that is never closed evicts nobody, since eviction forgets agents in memory but not in the table.
- MemoryStore.RefusedForGood: asks that no other content has the hash of the refused one.
- CanonicalDecoding.CanonicalForm: numbers are compared by their numeral, and values outside JSON (`undefined`, functions) are not modelled.
- LoopGuardObject.Guard.Check: the text of the `reason` is not modelled.
- SseFilter.Filter.Transform: chunks are texts; the state of the streaming UTF-8 decoder between chunks is not modelled.
- Confirmations.Server.Confirm: the notification and the confirmation link are not modelled; a request is announced by its id.
- Pipeline.Executor.Execute: a manifest that fails validation is refused before any row and does not arrive here; the extra row the route writes for an unhandled error is not modelled.
- Pipeline.Executor.HandlerEnded: filtering, scrubbing and moderating the result of a handler are taken not to throw.
- Announcement.AnnouncesIff: of the patterns only the one for connection strings is spelled out; that nothing else in these parameters is redacted is a hypothesis. The text is taken as `JSON.stringify` writes it, with blanks only inside strings, and which words are literals or numbers is a parameter.
- SummaryRedaction.SsnRowStableIff: of the patterns only the one for social security numbers is spelled out; that the others find nothing in the two texts is a hypothesis.
- BashPipelines.ClassifyPipe: asks that the quotes before the bar are closed for both scanners; they differ on quotes inside parentheses, which only the pipeline scanner heeds.
- BashHomomorphism.SubstitutionStaysOpen: texts whose parentheses do not balance by count after the first `$(` outside quotes, as with a parenthesis inside quotes there, are not characterized.
- Decoding.ClearIsSound: asks that base64 decoding shortens a chunk and that nothing comes of an empty text, both true of the real decoders.
- Ssrf.DottedIsPrivateIff: `Number` is a parameter that reads decimal octets; its other spellings (hexadecimal, blanks) are not characterized.
- AuditChain.AuditLogger.Log: key generation, migration and the metadata table are not modelled.
