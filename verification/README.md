# Verification model of Rustev

Rustev binds decisions to exact, bounded inputs. This project models the parts of it whose code is furthest
from its plain specification, and proves that each does what the specification says, for every input, every
run and every interleaving.

| part | source | Dafny files |
|---|---|---|
| bounded JSON scanner | `crates/rustev-contract/src/bounded.rs` | `JsonGrammar`, `JsonLexing`, `JsonResidual`, `JsonUnique`, `ScanErrors`, `ScanTokens`, `ScanTracking`, `ScanViability`, `ScanHalts`, `ScanRefusal`, `Bounded` |
| canonical JSON writer | `crates/rustev-contract/src/canonical.rs` | `JsonText`, `JsonPath`, `Canonical`, `CanonicalMeaning`, `CanonicalWriter` |
| fixed-point decimals | `crates/rustev-contract/src/decimal.rs` | `Decimal`, `DecimalText`, `Digits` |
| embedding cache and worker pool | `backends/rustev-backend-embed-linear/src/cache.rs`, `backends/rustev-backend-embed-linear/src/backend.rs` | `EmbedCache`, `EmbedCacheObject`, `EmbedCacheInclusion`, `EmbedCacheRecency`, `EmbedPool`, `EmbedPoolObject`, `EmbedPoolSafety`, `EmbedPoolSteps`, `EmbedPoolMemo`, `EmbedPoolRuns`, `EmbedPoolProgress` |
| rules compiler and evaluator | `backends/rustev-backend-rules/src/program.rs`, `backends/rustev-backend-rules/src/eval.rs`, `crates/rustev-core/src/evaluate.rs` | `RulesProgram`, `RulesFaults`, `RulesMeaning`, `RulesSums`, `RulesProjection`, `RulesChecked`, `RulesCheck`, `RulesEval`, `RulesRun` |
| language tags | `crates/rustev-contract/src/descriptor.rs` | `LanguageTag` |
| trace files and span trees | `crates/rustev-cli/src/trace.rs` | `TraceTree`, `TraceTail` |
| staged publication | `crates/rustev-cli/src/repeat.rs` | `Publication` |
| shared | | `Ascii`, `Wrappers` |

## How the parts are stated

**Scanner.** `JsonGrammar` defines parse trees of RFC 8259 (sections 2 to 7) and the bytes that each spells; a
policy says which trees a reader admits (paired surrogates, UTF-8, distinct decoded keys, seven limits). The
scanner is the class `Bounded.Scanner`: an explicit stack, one pass. Its loop keeps that the texts which
complete what was consumed are exactly the texts which complete its state, for every policy at least as wide
as its own. Hence acceptance is exact, the reported size is that of the only tree, and an error names a rule
that refuses the text even when all other rules are widened. `ScanHalts` says at which byte and with which
error a scan halts in a state: the limits admit what was read up to that state, and the error is the one that
is due there, with its kind, its limit, its text and its place, which for a word, a surrogate pair, a byte
that is no UTF-8 and every limit is the start of the token, character or member. From there follows what the
place means. A syntax error other than those, and trailing data, names the first byte that does not fit:
nothing acceptable starts with the text up to and including it. And an error that names a byte names one up to
which the text can still be completed to an accepted one, with one exception: a missing hexadecimal digit
after digits that rule the code unit out, which are those of a low surrogate with no high one before it
(`"\uDC0Z`), or after a high one those of anything else. There nothing completes the text. The exception is
told from the bytes before the error. Between tokens, what was read is within the scanner's own limits: it can
be completed without more depth, and without longer strings, numbers or containers.

**Canonical form.** The writer is the class `CanonicalWriter.Writer`, appending to one buffer and keeping the
path of the value it is in. What it writes is *the* canonical text of the value: `CanonicalMeaning` says what
a parse tree means and which trees are canonical (no whitespace, no fraction, every character spelled as
briefly as it can be, the decoded keys of each object in strict order of their UTF-8 bytes), without the
writer's sorting, and one canonical text means the value. Its bytes are accepted by the scanner under limits
as large as the value, and two values print alike exactly when they are equal as JSON values. A fraction is
refused with a path that leads to a fraction. The code calls that path a JSON pointer, but it escapes neither
`~` nor `/`. Read by RFC 6901, sections 3 and 4, it has the names and indices on the way to the fraction as
its tokens exactly when the fraction is not the whole value and no name on the way has a `~` or a `/` in it.

**Decimals.** Rounding is stated by distance: the nearest multiple, the even one of two, or the one nearer
zero. Each operation gives that result and overflows exactly when the declared intermediate or the result does
not fit `i128`. Texts are stated by the grammar of the type, with the offset of the first byte where no
decimal can go on.

**Pool.** `EmbedPool` is a transition system. One step is one critical section, one notification, one wakeup
or one raise of a cancellation signal; a run is any interleaving. Encoder, pooling and heads are any
deterministic functions. A run whose signal was raised may yield anything. `EmbedPoolObject.Pool` and
`EmbedCacheObject.EmbeddingCache` are the imperative sections, each proved equal to its step. The theorems of
`EmbedPoolRuns` hold in every reachable state, and those of `EmbedPoolProgress` say what the steps get done:
attempts are taken in while there is room and start in their order, a poll reports what is there to report and
otherwise leaves a waker, a run that nobody cancelled is reported in full and remembered, so that the next
call of the same principal and tokens is a hit, a signal raised in time keeps a run from starting, and a
shutdown leaves no worker waiting. Whether a task sleeps is recorded by the transition, not by the section
that polls. What a cache holds is given by the uses alone: the keys used last, as many as fit.

**Rules.** `RulesMeaning` gives a program its meaning by names: fields by name, options by name, terms found
whatever their ASCII case, a base that is zero where nothing is said, lookups by the entry with the key.
`RulesCheck` is the compiler to indices and `RulesRun` the evaluator. The compiler accepts exactly the
programs that fit, and what it accepts evaluates to what the program means: the same logits, the same reason
of failure, the same point of cancellation. `RulesSums` states that meaning once more, over plain integers:
each option gets its base and the sum of what the rules that apply have for it. `RulesProjection` ties it to
the host: the projection that the core writes for a task is answered by that task, and its fields read what
was written. A refusal is about something that is so: `RulesFaults` says what each kind of error claims of a
program, and no program that fits has any such fault. A comment in the source says that `rank` is not
answered, and the crate documentation lists four operations; the code compiles and answers pointwise `rank`,
and every operation, `generate` and `extract` too, has tasks that fit. The model follows the code.

**Language tags.** `IsTag` is the nondeterministic grammar of RFC 5646, section 2.1, with sections 2.2.5 and
2.2.6, stated by the places where the parts of a tag end. The greedy cursor accepts exactly these tags.

**Traces.** Reading a growing file piece by piece gives the lines, or the number of the first bad line, that
reading it at once gives, and that is the reading of the lines which the newlines cut the file into. Lines
name their parents, and anything may be named. Rendering ends for any lines, and succeeds exactly when one
walk leads to each line that the root reaches and none has more than 64 lines.

**Publication.** A disk whose calls fail as they please and in which other writers create files between calls;
it logs each call. The calls made are those of the plan, up to the first that does not work, and then those
that undo them. So publication delivers all outputs, or names the output whose call failed and leaves what was
there, what others made outside, and what a removal that failed was for.

## Model

| member | source | states |
|---|---|---|
| Bounded.Scan | crates/rustev-contract/src/bounded.rs:182-198 | accepts exactly the texts that the grammar derives with distinct keys within every limit; reports the tree's node count and height; an error's rule refuses the text however wide the other rules are; the error is the one due in the state that the limits admit the text up to (kind, limit, text, and the start of the token, character or member); other syntax errors and trailing data name the first byte with which nothing acceptable starts; up to the byte an error names the text can be completed, if and only if the error is not a missing hexadecimal digit after digits that rule the code unit out |
| Bounded.Decides | crates/rustev-contract/src/bounded.rs:157-198 | a measure means the text is acceptable, and a refusal that it is not |
| Bounded.Scanner.Run | crates/rustev-contract/src/bounded.rs:234-290 | the loop ends, with a measure of the whole text or a refusal, which unless the text is blank is what the scan halts with in some state; at its head what was read can be completed within the limits as they are, but for bytes and one value |
| Bounded.Scanner.Value | crates/rustev-contract/src/bounded.rs:355-404 | consumes the start of a value and stays on track, or halts with the error due there |
| Bounded.Scanner.Key | crates/rustev-contract/src/bounded.rs:329-353 | consumes a key that the open object does not have yet, decoded, or halts with the error due there, a repeated key being shown by its first 64 characters |
| Bounded.Scanner.BeginMember | crates/rustev-contract/src/bounded.rs:291-303 | counts one more member of the innermost container, within its limit |
| Bounded.Scanner.Push | crates/rustev-contract/src/bounded.rs:316-327 | opens a container exactly when the stack has room, and records the greatest depth |
| Bounded.Scanner.StringToken | crates/rustev-contract/src/bounded.rs:496-593 | consumes one quoted string of the grammar and decodes it, or halts where its characters become too long or break |
| Bounded.Scanner.Number | crates/rustev-contract/src/bounded.rs:436-477 | consumes the longest number ahead, or halts at the first part with a fault: a fraction where none may be, a length over the limit, or a missing digit |
| Bounded.Scanner.UnicodeEscape | crates/rustev-contract/src/bounded.rs:479-543 | reads one escape or surrogate pair and its scalar value, or halts at the missing digit or, for an unpaired surrogate, at the escape |
| ScanRefusal.HaltIsRefusal | crates/rustev-contract/src/bounded.rs:219-593 | wherever the scan halts, the text is refused by what it halts with and stops there: the last place up to which some acceptable text agrees with it |
| ScanHalts.StringRefuses | crates/rustev-contract/src/bounded.rs:496-593 | a halt in a string means that no wider policy has a string here, and that none starts with the bytes through the one named |
| ScanHalts.NumberRefuses | crates/rustev-contract/src/bounded.rs:436-477 | a halt in a number means that no wider policy has a number here, and that none starts with the bytes through the one named |
| ScanViability.EveryStepIsViable | crates/rustev-contract/src/bounded.rs:234-352 | at every state some document, accepted under wider limits, starts with what was consumed |
| ScanViability.EveryStepCompletes | crates/rustev-contract/src/bounded.rs:234-352 | at a value or after one, the limits themselves allow what was consumed: some text goes on from it that they accept but for its length and one value |
| ScanViability.ThroughString | crates/rustev-contract/src/bounded.rs:496-593 | from within a string, or a key that may still become new, a document can be completed |
| ScanViability.NotThrough | crates/rustev-contract/src/bounded.rs:496-593 | where no string goes on, no wider policy accepts any continuation |
| ScanTokens.LateUnit | crates/rustev-contract/src/bounded.rs:479-543 | the bytes before a missing digit tell whether they rule the code unit out: a low surrogate follows a high one and nothing else |
| ScanRefusal.LateExample | crates/rustev-contract/src/bounded.rs:479-543 | `"\uDC0Z` is refused at `Z`, though no accepted text starts with what precedes it |
| ScanTracking.Advance | crates/rustev-contract/src/bounded.rs:234-352 | consuming bytes keeps state and completions in step for every wider policy, whatever follows the next byte |
| ScanRefusal.Blame | crates/rustev-contract/src/bounded.rs:219-352 | a rule that stops the state refuses the whole text |
| JsonUnique.OneTree | crates/rustev-contract/src/bounded.rs:36-47 | a text has one parse tree, so the reported size is the size of the text |
| JsonResidual.CloseMoves | crates/rustev-contract/src/bounded.rs:234-290 | a closing bracket leads exactly to the completions of the enclosing container |
| JsonResidual.EnterMoves | crates/rustev-contract/src/bounded.rs:291-352 | a member's key or an element's start leads exactly to the completions with it added |
| JsonResidual.OpenMoves | crates/rustev-contract/src/bounded.rs:316-404 | an opening bracket leads exactly to the completions inside a new container |
| JsonLexing.NumberUnique | crates/rustev-contract/src/bounded.rs:436-477 | the longest number ahead is the only one that a value can be |
| CanonicalWriter.CanonicalBytes | crates/rustev-contract/src/canonical.rs:61-66 | succeeds exactly on values without fractions, with the only canonical text that means the value; a refusal names a path that leads to a fraction, and that path is the JSON pointer to it exactly when it is not the root and no name on the way has a slash or a tilde |
| JsonPath.ReportedPointer | crates/rustev-contract/src/canonical.rs:25-48 | read by RFC 6901, a reported path has the names and indices it stands for as its tokens if and only if it is not empty and no name in it has a slash or a tilde |
| JsonPath.SlashMisleads | crates/rustev-contract/src/canonical.rs:160-208 | the fractions of `{"a/b": 0.5}` and `{"a": {"b": 0.5}}` are reported alike, and the pointer leads nowhere in the first |
| CanonicalWriter.Writer.WriteValue | crates/rustev-contract/src/canonical.rs:151-211 | appends the canonical text of the value and restores the path |
| CanonicalMeaning.PrintedIsCanonical | crates/rustev-contract/src/canonical.rs:146-219 | a text is canonical and means the value exactly when it is the one written: no whitespace, integers only, brief characters, keys in byte order |
| CanonicalMeaning.TreeMeans | crates/rustev-contract/src/canonical.rs:151-219 | the tree of the written text is canonical and reads back as the value |
| CanonicalMeaning.TightIsTree | crates/rustev-contract/src/canonical.rs:151-219 | every canonical tree is the one that is written for what it means |
| CanonicalMeaning.CharOfIsBrief | crates/rustev-contract/src/canonical.rs:146-149 | no spelling of a character is shorter than the one written |
| CanonicalMeaning.BriefIsCharOf | crates/rustev-contract/src/canonical.rs:146-149 | and no other spelling is as short, with lower-case digits |
| CanonicalWriter.WriteThenScan | crates/rustev-contract/src/canonical.rs:151-219 | the scanner accepts what the writer writes and reports the value's own size |
| Canonical.PrintedIsAccepted | crates/rustev-contract/src/canonical.rs:146-219 | the canonical text is a document under limits as large as the value |
| Canonical.PrintedIsIdentity | crates/rustev-contract/src/canonical.rs:146-219 | two values print alike exactly when they are equal, whatever the order of their members |
| JsonText.SortAscends | crates/rustev-contract/src/canonical.rs:213-219 | sorting orders keys by their UTF-8 bytes |
| JsonText.AscendingUnique | crates/rustev-contract/src/canonical.rs:213-219 | one ascending order of one set of keys, so insertion order is lost |
| JsonText.EncodeReads | crates/rustev-contract/src/bounded.rs:560-593 | reading UTF-8 inverts writing it |
| Decimal.DivRoundIsExact | crates/rustev-contract/src/decimal.rs:90-108 | gives the truncated or nearest quotient, ties to even, for every sign, and overflows exactly when it does not fit |
| Decimal.RoundedUnique | crates/rustev-contract/src/decimal.rs:90-108 | one integer is the rounded quotient |
| Decimal.AddIsExact | crates/rustev-contract/src/decimal.rs:239-253 | overflows exactly when the integer sum does not fit, and is otherwise that sum; adding commutes, zero changes nothing, and subtracting undoes it |
| Decimal.MulIsExact | crates/rustev-contract/src/decimal.rs:259-265 | overflows exactly when the product of units does not fit, and is otherwise the rounded product |
| Decimal.DivIsExact | crates/rustev-contract/src/decimal.rs:272-281 | refuses a zero divisor, overflows exactly when the scaled dividend does not fit, and is otherwise the rounded quotient |
| Decimal.RoundToScaleIsExact | crates/rustev-contract/src/decimal.rs:286-295 | is the rounded multiple of the scale's unit, or overflow when that does not fit |
| Decimal.RoundToScaleIdempotent | crates/rustev-contract/src/decimal.rs:286-295 | rounding again changes nothing |
| Decimal.RoundToScaleMonotone | crates/rustev-contract/src/decimal.rs:286-295 | rounding keeps order |
| DecimalText.Parse | crates/rustev-contract/src/decimal.rs:143-220 | reads exactly the grammar within range; syntax before precision before range, with the offset where no decimal goes on |
| DecimalText.ReadMagnitude | crates/rustev-contract/src/decimal.rs:185-202 | the magnitude, refused for an intermediate overflow only when the value is out of range |
| DecimalText.ReadsUnique | crates/rustev-contract/src/decimal.rs:136-220 | a text has one reading |
| DecimalText.PrintReads | crates/rustev-contract/src/decimal.rs:225-236 | the canonical text of any value reads as that value |
| DecimalText.CanonicalIsPrinted | crates/rustev-contract/src/decimal.rs:225-236 | every text without trailing zeros and minus zero is the canonical text of its value |
| DecimalText.WriteThenRead | crates/rustev-contract/src/decimal.rs:143-236 | parsing inverts printing on every `i128` |
| EmbedCache.LookupIsValid | backends/rustev-backend-embed-linear/src/cache.rs:171-195 | a lookup keeps accounting and contents, and hits exactly a held key |
| EmbedCache.AdmitIsValid | backends/rustev-backend-embed-linear/src/cache.rs:201-241 | an admission keeps every limit and evicts the fewest least recent entries, at most one |
| EmbedCache.AdmitsExactly | backends/rustev-backend-embed-linear/src/cache.rs:201-241 | stores exactly a completed run's finite vector of the right width, under a current ticket and a key not held, that the limits allow; otherwise nothing changes |
| EmbedCache.MissThenHit | backends/rustev-backend-embed-linear/src/cache.rs:171-241 | a miss run to completion is a hit the next time, with what was computed, also in an empty cache |
| EmbedCacheRecency.HeldAreLatest | backends/rustev-backend-embed-linear/src/cache.rs:171-241 | after any uses the cache holds the keys used last, as many as fit, in the order of their last use |
| EmbedCacheRecency.UsesAreCounted | backends/rustev-backend-embed-linear/src/cache.rs:171-244 | over any uses hits are those of keys among the last that fit, every other is a miss, and what was admitted was evicted or is held |
| EmbedCache.EraseIsValid | backends/rustev-backend-embed-linear/src/cache.rs:256-270 | an erasure keeps accounting and just the entries of other principals |
| EmbedCacheObject.EmbeddingCache.LookupKey | backends/rustev-backend-embed-linear/src/cache.rs:171-195 | the scan and move to the end is the specified lookup |
| EmbedCacheObject.EmbeddingCache.MayAdmit | backends/rustev-backend-embed-linear/src/cache.rs:201-223 | the checks pass exactly for what is admissible |
| EmbedCacheObject.EmbeddingCache.Admit | backends/rustev-backend-embed-linear/src/cache.rs:201-241 | the checks and the store are the specified admission |
| EmbedCacheObject.EmbeddingCache.MakeRoom | backends/rustev-backend-embed-linear/src/cache.rs:224-230 | the eviction loop ends, drops the shortest sufficient prefix, and counts it |
| EmbedCacheObject.EmbeddingCache.ErasePrincipal | backends/rustev-backend-embed-linear/src/cache.rs:256-262 | the retain is the specified erasure, under a new generation |
| EmbedCacheInclusion.Inclusion | backends/rustev-backend-embed-linear/src/cache.rs:171-262 | over any run of calls the smaller cache holds a suffix of the larger, so raising limits turns no hit into a miss |
| EmbedCacheInclusion.EvictsLess | backends/rustev-backend-embed-linear/src/cache.rs:201-241 | the larger cache evicts no deeper |
| EmbedPoolRuns.ReachableIsSound | backends/rustev-backend-embed-linear/src/backend.rs:242-468 | every reachable state keeps every invariant |
| EmbedPoolRuns.SlotsAreConserved | backends/rustev-backend-embed-linear/src/backend.rs:289-303 | queued and running jobs never exceed capacity, the running count is the workers between pick and finish, and no job is held twice |
| EmbedPoolRuns.NoWakeupIsLost | backends/rustev-backend-embed-linear/src/backend.rs:387-468 | before shutdown a queued job has a notification under way or a worker that will look; a task whose last poll reported nothing, and that was not woken since, has a waker, or a worker about to wake it once the job is done |
| EmbedPoolRuns.StoppedStaysStopped | backends/rustev-backend-embed-linear/src/backend.rs:345-468 | after a report of `Stopped` or `Finished` no worker runs the job in any continuation |
| EmbedPoolRuns.UnconfirmedWhileRunning | backends/rustev-backend-embed-linear/src/backend.rs:347-368 | a poll reports `Unconfirmed` and `PossiblyContinuing` exactly while a worker holds the job |
| EmbedPoolRuns.ChargesAreExact | backends/rustev-backend-embed-linear/src/backend.rs:242-385 | a hit is charged per call, a started run in full, and nothing else is charged |
| EmbedPoolRuns.AnswersAreDirect | backends/rustev-backend-embed-linear/src/backend.rs:257-277 | an attempt neither cancelled nor overloaded answers as the pipeline without a cache |
| EmbedPoolRuns.CacheIsTransparent | backends/rustev-backend-embed-linear/src/backend.rs:257-459 | two backends of one pipeline, cached or not, answer one request alike |
| EmbedPoolRuns.ErasureLasts | backends/rustev-backend-embed-linear/src/backend.rs:183-187 | after an erasure every entry of the principal comes from a ticket issued later |
| EmbedPoolRuns.ClearingLasts | backends/rustev-backend-embed-linear/src/backend.rs:174-178 | after a clear every entry comes from a ticket issued later |
| EmbedPoolProgress.EnqueuedWhileRoom | backends/rustev-backend-embed-linear/src/backend.rs:289-303 | an attempt is taken in exactly while running and queued jobs leave room, and is refused as overloaded otherwise |
| EmbedPoolProgress.PollReports | backends/rustev-backend-embed-linear/src/backend.rs:347-368 | a poll reports exactly when the job is done or its signal was raised; one that does not leaves a waker |
| EmbedPoolProgress.FinishThenPoll | backends/rustev-backend-embed-linear/src/backend.rs:436-465 | a run that nobody cancelled ends in what the pipeline yields, which the next poll reports at the full charge |
| EmbedPoolProgress.HitsAreOwn | backends/rustev-backend-embed-linear/src/backend.rs:257-277 | a call is a hit exactly when an entry of its principal, artifact and tokens is held, and is then answered from what they pool to |
| EmbedPoolProgress.NextCallHits | backends/rustev-backend-embed-linear/src/backend.rs:257-459 | after a miss, its uncancelled run and no invalidation in between, the next call of the principal with the tokens is a hit, whatever else happened |
| EmbedPoolProgress.FirstComeFirstServed | backends/rustev-backend-embed-linear/src/backend.rs:289-420 | of two queued attempts the later never starts while the earlier waits |
| EmbedPoolProgress.RaisedNeverStarts | backends/rustev-backend-embed-linear/src/backend.rs:388-420 | an attempt whose signal was raised before a worker took it never runs, in any continuation |
| EmbedPoolProgress.CancelledRunIsForgotten | backends/rustev-backend-embed-linear/src/backend.rs:439-452 | a cancelled or abandoned run leaves the cache as it was |
| EmbedPoolProgress.ShutdownReleases | backends/rustev-backend-embed-linear/src/backend.rs:388-396 | after a shutdown no worker waits, and one that is not running exits when it next takes the lock |
| EmbedPoolSteps.PickRunIsSound | backends/rustev-backend-embed-linear/src/backend.rs:388-420 | starting a job keeps queue, slots, phases and reports sound |
| EmbedPoolSteps.FinishIsSound | backends/rustev-backend-embed-linear/src/backend.rs:436-465 | finishing a run keeps them sound |
| EmbedPoolSteps.PollIsSound | backends/rustev-backend-embed-linear/src/backend.rs:347-368 | polling keeps them sound |
| EmbedPoolMemo.MemoStep | backends/rustev-backend-embed-linear/src/backend.rs:421-459 | every step keeps the cache faithful to the pipeline and current with respect to invalidations |
| EmbedPoolObject.Pool.Poll | backends/rustev-backend-embed-linear/src/backend.rs:347-368 | the section is the poll step and returns its report, or leaves a waker |
| EmbedPoolObject.Pool.Enqueue | backends/rustev-backend-embed-linear/src/backend.rs:289-303 | the section is the enqueue step, refused exactly when every slot is taken |
| EmbedPoolObject.Pool.Pick | backends/rustev-backend-embed-linear/src/backend.rs:388-420 | the section is the pick step |
| EmbedPoolObject.Pool.Finish | backends/rustev-backend-embed-linear/src/backend.rs:436-465 | the section is the finish step |
| EmbedPoolObject.Pool.Abandon | backends/rustev-backend-embed-linear/src/backend.rs:371-385 | the section is the drop step |
| RulesCheck.Check | backends/rustev-backend-rules/src/program.rs:354-401 | accepts exactly the programs that fit, and resolves every task; a refusal says something that is so of the program |
| RulesCheck.CheckTask | backends/rustev-backend-rules/src/program.rs:403-589 | accepts exactly the tasks that fit, resolves names, and refuses for a reason that is so of the task: a name that repeats, a count or length that the named item has, a name that nothing declares |
| RulesCheck.TaskCx.Condition | backends/rustev-backend-rules/src/program.rs:659-760 | accepts exactly well-typed conditions of at most 32 nodes and nesting 4, and counts nodes and terms; a refusal is a fault of some part, or of the nodes or levels in all |
| RulesCheck.TaskCx.Contribution | backends/rustev-backend-rules/src/program.rs:762-819 | accepts exactly the contributions that fit, and counts lookup entries |
| RulesCheck.TaskCx.Field | backends/rustev-backend-rules/src/program.rs:641-657 | resolves exactly a declared name of an accepted type |
| RulesCheck.ResolveAdds | backends/rustev-backend-rules/src/program.rs:607-630 | resolves exactly constants of known options |
| RulesFaults.FittingProgram | backends/rustev-backend-rules/src/program.rs:206-240 | of a program that fits no error says anything that is so |
| RulesCheck.Spread | backends/rustev-backend-rules/src/program.rs:503-509 | the base has each named constant at its option and zero elsewhere |
| RulesProgram.EveryOperationFits | backends/rustev-backend-rules/src/program.rs:403-456 | every operation has tasks that are accepted, also those that the documentation does not list |
| RulesProgram.AcceptsValueTexts | backends/rustev-backend-rules/src/program.rs:822-830 | an accepted `equals` text is exactly the printed form of some value of the type |
| RulesProgram.ParseRefReads | backends/rustev-backend-rules/src/program.rs:591-605 | reads exactly `input:` or `bind:` references with at most one member |
| RulesEval.FoldedOccurs | backends/rustev-backend-rules/src/eval.rs:256-262 | a lower-cased term is in a lower-cased text where the term occurs whatever the case |
| RulesEval.HoldsSame | backends/rustev-backend-rules/src/eval.rs:256-279 | a resolved condition holds where the condition holds by name |
| RulesEval.ResolvedInRange | backends/rustev-backend-rules/src/eval.rs:256-279 | every index of a resolved condition is of a field |
| RulesEval.ResolvedUsable | backends/rustev-backend-rules/src/eval.rs:290-328 | a linear field is numeric and a lookup field has a canonical text, so those failures never happen |
| RulesEval.ReadFields | backends/rustev-backend-rules/src/eval.rs:204-254 | reads the values that the fields have by name, of their declared types, or fails at the first that has none |
| RulesEval.AddAll | backends/rustev-backend-rules/src/eval.rs:281-288 | adds constants in option order up to the first overflow |
| RulesSums.AnswersAddUp | backends/rustev-backend-rules/src/eval.rs:105-150 | an answer gives each option its base plus the integer sum of what the rules that apply have for it, products rounded half to even |
| RulesSums.ScoresAddUp | backends/rustev-backend-rules/src/eval.rs:133-141 | the score of a ranked candidate is that sum for the one option |
| RulesSums.StopsWhenRaised | backends/rustev-backend-rules/src/eval.rs:79-150 | an evaluation stops at the first point reached at which its signal is raised; it answers only if a rule applied or none has to, and fails for want of one exactly otherwise |
| RulesProjection.TaskAnswers | crates/rustev-core/src/evaluate.rs:2801-2809 | the projection written for a task is answered by that task and no other |
| RulesProjection.RankTaskAnswers | crates/rustev-core/src/ranking_eval.rs:219-250 | so is that of a pointwise ranking, for its one candidate |
| RulesProjection.RenderedIsRead | crates/rustev-core/src/value.rs:355-360 | a scalar that the host writes is read back as it was, decimals too |
| RulesProjection.FieldsRead | backends/rustev-backend-rules/src/eval.rs:204-254 | where every field's reference was written for, the fields are bound to what was written |
| RulesProjection.IntegerIsDecimal | backends/rustev-backend-rules/src/eval.rs:53-59 | an integer field counts as the decimal that its text spells |
| RulesProjection.Thresholds | backends/rustev-backend-rules/src/eval.rs:266-274 | a number is at least a threshold when it is the threshold and something not negative; the other comparisons follow |
| RulesEval.ApplyTo | backends/rustev-backend-rules/src/eval.rs:290-328 | a contribution by index does what it does by name |
| RulesRun.SameOptions | backends/rustev-backend-rules/src/eval.rs:190-199 | comparing the texts among the items, and then the number of all items, compares the array with the task's options |
| RulesRun.Choose | backends/rustev-backend-rules/src/eval.rs:153-201 | chooses the task that the projection is for, or says why not |
| RulesRun.RunFrom | backends/rustev-backend-rules/src/eval.rs:113-150 | the loop over rules runs them in order until one stops, fails or is cancelled |
| RulesRun.Evaluate | backends/rustev-backend-rules/src/eval.rs:79-150 | evaluation of a compiled program means what the program means |
| RulesRun.CompileAndEvaluate | backends/rustev-backend-rules/src/lib.rs:62-75 | an accepted program, compiled, answers every projection with what it means |
| RulesRun.OneMeaning | backends/rustev-backend-rules/src/eval.rs:79-150 | a program means one thing for a projection |
| LanguageTag.Accepts | crates/rustev-contract/src/descriptor.rs:223-309 | accepts exactly the tags of the grammar |
| LanguageTag.Recognise | crates/rustev-contract/src/descriptor.rs:249-309 | the cursor accepts the subtags exactly when some derivation without repetition has them |
| LanguageTag.Variants | crates/rustev-contract/src/descriptor.rs:283-291 | takes the variants of every derivation, and refuses exactly a repeated one |
| LanguageTag.TagExtensions | crates/rustev-contract/src/descriptor.rs:292-305 | takes the extensions of every derivation, and refuses an empty or repeated one |
| LanguageTag.Following | crates/rustev-contract/src/descriptor.rs:259-305 | what follows a part of a derivation cannot belong to it, so greed loses nothing |
| LanguageTag.CaseIndependent | crates/rustev-contract/src/descriptor.rs:224-225 | letter case does not matter |
| LanguageTag.RegularIsLangtag | crates/rustev-contract/src/descriptor.rs:224-248 | the regular grandfathered tags are language tags, so only the irregular ones need a list |
| TraceTree.Render | crates/rustev-cli/src/trace.rs:248-333 | succeeds exactly when the lines that the root reaches form a tree of at most 64 levels; the result has each of them once; an error names a line reached twice or too deep |
| TraceTree.BuildNode | crates/rustev-cli/src/trace.rs:248-285 | ends on any lines, and places each line of its tree once |
| TraceTree.TreeIsTree | crates/rustev-cli/src/trace.rs:245-285 | a complete tree without repetition shows that one walk leads to each line |
| TraceTree.OneWalk | crates/rustev-cli/src/trace.rs:245-285 | in such a tree two walks to one line are the same |
| TraceTail.Tail.Append | crates/rustev-cli/src/trace.rs:146-199 | after any appended bytes the lines, the waiting rest and the first bad line are those of the whole file |
| TraceTail.Follow | crates/rustev-cli/src/trace.rs:90-114 | how a file is cut into reads does not matter |
| TraceTail.ReadOn | crates/rustev-cli/src/trace.rs:182-199 | what is appended continues the reading, and a bad line stays the first |
| TraceTail.ReadsItsLines | crates/rustev-cli/src/trace.rs:184-199 | the parser is given each line without its newline, up to the first bad one, or the unfinished line is refused because it is too long |
| TraceTail.OneCut | crates/rustev-cli/src/trace.rs:184-190 | newlines cut a file into lines in one way |
| TraceTail.Tail.Find | crates/rustev-cli/src/trace.rs:202-215 | the last decision, of the given trace if any, whose policy span follows it; none exactly when there is none |
| Publication.PublishOutputs | crates/rustev-cli/src/repeat.rs:214-271 | succeeds exactly when every call of the plan works, and then every output is delivered; otherwise the calls stop at the first that does not work, the failure names its output, the calls before it are undone in reverse, and nothing is left but what was there, what others made and what a removal that failed was for; if all removals work nothing is reported uncleaned |
| Publication.Rollback | crates/rustev-cli/src/repeat.rs:273-292 | removes what was placed, staged and created, each in reverse; reports exactly what the removals that failed were for, and leaves nothing else |
| Publication.StageAll | crates/rustev-cli/src/repeat.rs:234-249 | makes the plan's calls for temporary files up to the first that does not work, and owns just the files that were made |
| Publication.PlaceAll | crates/rustev-cli/src/repeat.rs:250-253 | links staged outputs into place up to the first link that does not work, never over an existing path |
| Publication.MakeDirs | crates/rustev-cli/src/repeat.rs:229-233 | creates the plan's directories up to the first that cannot be made, and owns just those |
| Publication.RemoveFiles | crates/rustev-cli/src/repeat.rs:286-288 | unlinks its own files, the last first; left are exactly those whose call fails |
| Publication.RemoveDirs | crates/rustev-cli/src/repeat.rs:289-291 | removes created directories, the last first; left are exactly those whose call fails, and a removed one has nothing below it |
| Publication.AllDelivered | crates/rustev-cli/src/repeat.rs:260-271 | removing temporary files withdraws no output |

## Left out

- Binary64 output (`crates/rustev-contract/src/canonical.rs:74-144`): it rests on the formatter of Rust's standard library; canonical values here hold integers only.
- SHA-256 of keys, principals and artifacts: a digest is modelled by what it digests, so keys are collision-free.
- The typed deserialization after a scan: `ParseError::Schema` is not part of this model; evaluation takes the JSON value that a projection parses to.
- The wording of errors, and the path strings (`tasks[0].rules[3]`) of compiler errors: kinds and their facts are modelled.
- RulesCheck.CheckTask: which of several faults is reported first is as in the code, and what is reported is so, but the order itself is not stated.
- The conversion of logits to `f64` (`crates/rustev-contract/src/decimal.rs:299-303`): answers hold exact decimals.
- RulesMeaning.ApplyOne: a text occurs in another by scalar values, while the code compares UTF-8 bytes; for valid UTF-8 these agree.
- The encoder, pooling and head arithmetic, the tokenizer, ONNX sessions and library loading: uninterpreted deterministic functions.
- Mutexes, condition variables and wakers: each critical section is one atomic step, a notification and a wakeup are steps of their own, and a lock is never poisoned.
- Attempts refused before the cache is asked (no time left, an unprepared request, a signal already raised): they touch no shared state.
- EmbedPoolObject.Pool: jobs are values in a map, so aliasing between a future's and a worker's handle of one job is by the job's name; each method is one section, and what runs between sections is the transition system's.
- That notified threads run at all (liveness): no wakeup is lost, but no scheduler is modelled.
- The cache's setup checks (`backends/rustev-backend-embed-linear/src/cache.rs:120-167`): evidence and limits are inputs.
- Registry membership of language subtags: syntax only, as in the code.
- Attributes, events and redaction of a rendered span: functions of one line, with no part in the tree's shape.
- Opening, polling and budgeting a trace file (`crates/rustev-cli/src/trace.rs:142-180`): file-system calls; the parser of one line is any function that refuses a line over 64 KiB.
- Publication: other writers create files and nothing else; directories that appear, and writers that remove or change others' entries, are not modelled. A recursive removal that fails has removed some of what is below, and nothing above what stays.
- `publish_live_outputs` (`crates/rustev-cli/src/repeat.rs:163-209`): a preflight comparison before publication.
- Wire types, the N-API and WebAssembly packages, command handlers and scripts: field lists, plumbing and I/O.
