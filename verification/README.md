# cache-chain in Dafny

cache-chain is an N-layer cache. A read falls through the layers in order; a hit at layer h is
offered to layers h-1, ..., 0 through one bounded asynchronous writer per layer. This project
models the parts of it that hold state and interact, and proves what they promise together.

Two kinds of model are used, and connected:

* **Objects.** Chain, writer, in-memory cache, resilient layer, Bloom layer, negative cache,
  batch adapter and metrics collector are classes whose methods update fields in place. Each
  method's contract gives its whole new state through a specification function.
* **Protocols.** The writer, the chain and the in-memory cache are also state machines over
  atomic steps (one channel operation, one locked region, one layer call), interleaved freely.
  So are a layer behind its breaker and the negative cache. Theorems about them quantify over
  every run. Both kinds are tied together: `AsyncWriterObject` proves Write, the workers' loop,
  Flush and Close, interleaved with any steps of other goroutines, to be protocol runs;
  `ChainRuns` does so for the chain's calls; `ChainWriters` and `ChainOverBreakers` show that
  the chain with its writers, and with its breakers, runs as the chain protocol does; and in
  `MemoryConcurrent`, `GuardedLayer` and
  `NegativeConcurrent` an uninterrupted call is a run that does what the sequential one does.

| file | content |
|---|---|
| `CacheTypes.dfy`, `Sums.dfy` | shared values, errors and results; sums of weights over sequences |
| `AsyncWriterProtocol.dfy`, `AsyncWriter.dfy` | queue, producers, worker pool, flush, shutdown |
| `Chain.dfy`, `ChainProtocol.dfy`, `ChainRuns.dfy` | fallback, warm-up, write-all and delete-all |
| `ChainCoherence.dfy`, `ChainConvergence.dfy` | which overlaps keep the layers of a key in agreement; one key once its writes have stopped |
| `ChainWriters.dfy`, `ChainOverBreakers.dfy` | the chain protocol composed with its writers, and with its breakers |
| `MemoryTable.dfy`, `MemoryCache.dfy`, `MemoryConcurrent.dfy` | TTL table, LRU eviction, split-lock reads |
| `Resilience.dfy`, `CircuitBreaker.dfy`, `GuardedLayer.dfy` | error translation; the trip rule; the two composed |
| `Metrics.dfy`, `Accounting.dfy` | the collector; laws between chain and layer counters |
| `Wrappers.dfy`, `NegativeConcurrent.dfy` | Bloom and negative layers; the negative cache under concurrency |
| `Batch.dfy`, `Keys.dfy` | batches, cache keys |

Time is an integer in seconds, passed to each call as the clock readings it makes. Payloads are
`Data(id)`; `Nil` is Go's empty interface value. Context cancellation, timeouts and the
breaker's verdict are parameters of a call or nondeterministic steps. Map iteration and
goroutine order are arbitrary choices.

## Where the code differs from its documentation

The model follows the code.

* `pkg/writer/async.go:14-15` promises order for writes of one key. It holds if and only if
  there is one worker (`KeyOrderIffOneWorker`); the default is two.
* `Flush` is said to wait for all pending writes. It polls for an empty queue, so up to one op
  per worker may still be inside `layer.Set` (`FlushMeans`, `FlushPromises`, `FlushCanReturnEarly`).
* `Close` is said to process everything queued. It processes everything enqueued before the
  cancellation; a `Write` past its gate can still enqueue after the last worker has gone
  (`DrainOnClose`, `GatedWriteCanStrand`), and exactly then (`StrandingIff`).
* `TotalWrites` counts accepted writes, not attempted ones (`Statistics`).
* `pkg/chain/chain.go:267-291` and `293-313` promise that Set and Delete reach all layers. A read
  or warm-up of an older value, or an unfinished Set of another one, can put that value back into
  a layer after them, until it expires (`LateWarmUpLeavesStaleLayer`). This can happen after a call
  exactly when, as it begins, something unfinished carries another value of the key, or a reader
  can still meet one below the first layer (`CoherenceIff`).
* `pkg/chain/chain.go:148` calls the warm-up synchronous; only the offer to the writer is.
* A read rejected by a half-open breaker as one too many is returned as an empty success, which
  the chain then copies upward (`RejectionPoisonsUpperLayers`). It takes a trip and a full set of
  trial calls (`RejectionsMean`, `EmptySuccessIff`). Theorems that need it say "not rejected as
  one too many".
* A read rejected by an open breaker is recorded as a hit (`HitsAreExactIff`), and failed writes
  count twice in a layer's errors (`ErrorsAreTypedPlusFailedWrites`).
* Overwriting a key of a full cache still evicts (`OverwriteStillEvicts`).
* A read that found an expired entry removes by key after dropping the lock, so it can remove a
  newer entry (`FreshEntryIsLost`). That is the only way to lose a live entry of an unlimited
  cache (`LossIff`), and it can happen exactly when a Set of the key commits an entry that outlives
  the one a pending read has found (`SafeCommitIff`, `ConcurrentExactTtl`).
* `pkg/cache/negative.go:75` promises that a Set removes the key from the negative cache. A miss
  that is remembered after a Set has begun masks the value that was set (`SetIsMasked`); this
  needs a Set to overlap a miss or removal not yet remembered, and such an overlap is enough
  (`ApartIsTransparent`, `OverlapMasks`).
* Key patterns with different parts can build one key, if the separator overlaps itself
  (`BuildIsInjectiveIff`).
* One pass of `SanitizeKey` need not give a valid key (`OnePassSufficesIff`).

## Model

| member | source | states |
|---|---|---|
| AsyncWriterProtocol.Conservation | pkg/writer/async.go:107-196 | In every reachable state the accepted ops are the dequeued ones followed by the queue, in order; the queue fits; every dequeued op has been finished exactly once or is in flight, never both; in-flight ops are at most the workers. |
| AsyncWriterProtocol.OvertakingNeedsOverlap | pkg/writer/async.go:149-196 | With any number of workers a later op finishes before an earlier one only if some worker was inside layer.Set for the earlier one when the later one was dequeued. |
| AsyncWriterProtocol.SingleWorkerIsFifo | pkg/writer/async.go:13-15 | With one worker layer.Set completes exactly in accept order, in every run. |
| AsyncWriterProtocol.TwoWorkersReorder | pkg/writer/async.go:70-84 | For every pool of two or more there is a run in which two writes of one key complete in the wrong order. |
| AsyncWriterProtocol.KeyOrderIffOneWorker | pkg/writer/async.go:13-15 | The documented same-key order holds in every run if and only if there is one worker. |
| AsyncWriterProtocol.Statistics | pkg/writer/async.go:129-252 | In every reachable state totalWrites plus the writes enqueued but not yet counted equal queue + in flight + finished; droppedWrites is the number of calls that returned ErrQueueFull; failedWrites lags the failed layer.Set calls by at most the workers. |
| AsyncWriterProtocol.FlushMeans | pkg/writer/async.go:198-214 | When a poll of Flush finds the queue empty, all but at most one op per worker are finished, and all are if and only if no worker is inside layer.Set. |
| AsyncWriterProtocol.FlushCanReturnEarly | pkg/writer/async.go:198-214 | There is a run in which Flush returns with an accepted op unfinished. |
| AsyncWriterProtocol.FlushPromises | pkg/writer/async.go:198-214 | Whatever the other goroutines do between its polls, when Flush succeeds every op accepted before the call is finished or inside layer.Set, exactly one of the two, and at most one per worker is the latter. |
| AsyncWriterProtocol.DrainOnClose | pkg/writer/async.go:172-230 | When Close has returned every op enqueued before the cancellation has been through layer.Set; what is queued was enqueued after the last worker exited; each stranded op came from a Write of its own that was past the gate, with that op, at the last exit and at the cancellation, so there are at most as many. |
| AsyncWriterProtocol.GatedWriteCanStrand | pkg/writer/async.go:109-145 | For every pool there is a run in which Close has returned and an accepted op stays queued. |
| AsyncWriterProtocol.StrandingIff | pkg/writer/async.go:109-145 | Once all workers have exited with an empty queue, some continuation strands an op if and only if the queue has room and some Write is past the gate. |
| AsyncWriterProtocol.StepDecreasesMeasure | pkg/writer/async.go:107-230 | Every step of a goroutine past the gate decreases one natural number; after the cancellation no step increases it. |
| AsyncWriterProtocol.ShutdownIsBounded | pkg/writer/async.go:172-230 | After the cancellation, under any schedule, at most that number of further steps of such goroutines happen. |
| AsyncWriterProtocol.ShutdownNeverSticks | pkg/writer/async.go:172-230 | A cancelled writer in which nobody can move has all workers exited, Close returned and every Write back at its caller; with the bound, Close always returns. |
| AsyncWriterObject.AsyncWriter.constructor | pkg/writer/async.go:65-102 | The new writer is the protocol's initial state, with 1000 places and 2 workers in place of non-positive sizes. |
| AsyncWriterObject.AsyncWriter.Write | pkg/writer/async.go:107-146 | Against any interference the call is a run; it returns nil if and only if its op was accepted during the call, once. It reports a full queue only when the timer has fired, a cancellation only when the caller's context is done, a closed writer only when it is. Undisturbed on an open writer with a live caller: with room it sends at once, the op joins the queue's end and is counted; with none it gives up when the timer fires and only the drop is counted. |
| AsyncWriterObject.AsyncWriter.RunWorker | pkg/writer/async.go:149-196 | Against any interference both receive loops are a run; the worker exits only after the cancellation, when every op enqueued before it has been taken. Undisturbed it takes and finishes one op a round from the head, in order, while there are any; in a cancelled writer, with rounds enough, it empties the queue and exits. |
| AsyncWriterObject.AsyncWriter.ReceiveRound | pkg/writer/async.go:152-175 | Against any interference, a round that finds an op at its receive on an open writer dequeues the head and finishes it; with an empty queue it waits, or notices the cancellation. |
| AsyncWriterObject.AsyncWriter.Flush | pkg/writer/async.go:198-214 | Against any steps of others in its pauses, Flush polls after each pause, succeeds at the first poll that finds the queue empty, and fails only after the last; when it succeeds each op accepted before the call has been through layer.Set or is inside it. |
| AsyncWriterObject.AsyncWriter.Close | pkg/writer/async.go:218-230 | Whatever the schedule, Close returns; then all workers have exited, every op accepted before the call has been through layer.Set, and each op still queued came from a Write that was past its gate when Close was called. |
| AsyncWriterObject.AsyncWriter.Drain | pkg/writer/async.go:172-193 | Against any interference the draining loop is a run; undisturbed, with rounds enough, it finishes the whole queue in order, leaves it empty and exits. |
| ChainProtocol.StepShaped | pkg/chain/chain.go:246-265 | No warm-up is ever addressed to the last layer. |
| ChainProtocol.WarmUpsGoUp | pkg/chain/chain.go:246-265 | In any run a read that hit at layer h offers its value to layers h-1, ..., 0, each once and in that order, and to no other; when it has returned, to all of them. |
| ChainProtocol.ReadAsksInOrder | pkg/chain/chain.go:198-243 | Over all interleavings a read asks layers 0, 1, ... in order, each once, and stops at the first that answers; it returns what that layer h held when it was asked and has then offered it to exactly h-1, ..., 0; if none answers it returns the last layer's error. |
| ChainProtocol.Provenance | pkg/chain/chain.go:167-265 | Over all interleavings a value returned for a key was written for that key on some layer; only a run with a half-open rejection can also return the empty value. |
| ChainProtocol.RejectionPoisonsUpperLayers | pkg/resilience/layer.go:116-174 | A run in which every layer was set to a value, and one half-open rejection leaves the empty value in the first layer. |
| ChainCoherence.LatestIsLastStarted | pkg/chain/chain.go:270-313 | The state's record of the latest write is the last Set started in the run with no Delete started after it. |
| ChainCoherence.Coherence | pkg/chain/chain.go:167-313 | If each write of a key begins when nothing unfinished can put another value than its own under the key, each read when no layer below the first holds another value than the latest, and layer calls in writes take effect: every layer holding the key outside a write holds the last Set's value with no Delete since; every layer below the first that answers a read, every reader with a value and every queued warm-up carries it, and so does the first layer unless a write has still to visit it. Other keys are unconstrained and layers may forget at any time. |
| ChainCoherence.ReadsAreLatest | pkg/chain/chain.go:167-313 | In such a run every value a read returns is, at the step that returns it, the value of the last Set with no Delete since, unless the read has overtaken at the first layer a write that it overlaps: the chain is one map that may only forget. |
| ChainCoherence.CoherenceIff | pkg/chain/chain.go:150-313 | The condition is exact: from a coherent state, every otherwise disciplined continuation of a Get, Set or Delete of the key ends its writes with all layers in agreement if and only if the call began when the condition allows it. |
| ChainCoherence.HarmIsDone | pkg/chain/chain.go:198-313 | From any state in which a queued warm-up, a reader with its value, an unfinished Set, or a reader that can still meet it below the first layer has another value than the latest, some disciplined continuation ends with no write unfinished and a layer holding another value; after a Delete, holding the deleted key. |
| ChainCoherence.LateWarmUpLeavesStaleLayer | pkg/chain/chain.go:246-291 | Without that discipline there is a run that ends with nothing unfinished and two layers that disagree. |
| ChainConvergence.NeverDeeper | pkg/chain/chain.go:198-265 | Once writes of a key have stopped and the last layer keeps a value, the deepest position (entry, warm-up or reader) carrying another value never gets deeper, in any run. |
| ChainConvergence.ClearingMovesUp | pkg/chain/chain.go:198-265 | When that depth's warm-ups and readers have drained, the expiry or replacement of its entry moves the deepest position strictly up. |
| ChainConvergence.LastLayerIsClean | pkg/chain/chain.go:246-265 | From any state whatever with a steady last layer, the last layer is never stale nor the target of a stale warm-up. |
| ChainConvergence.StepTowardConvergence | pkg/chain/chain.go:198-265 | No step raises the pair (deepest stale depth, stale business there) in lexicographic order, and every event at that depth lowers it. |
| ChainConvergence.Progress | pkg/chain/chain.go:198-265 | Until nothing is stale such an event is possible. |
| ChainConvergence.CanConverge | pkg/chain/chain.go:198-265 | From any steady state some finite run reaches one in which nothing is stale. |
| ChainConvergence.Convergence | pkg/chain/chain.go:198-265 | From any state whatever: in every infinite run that does not leave the stale items at the deepest depth alone for ever, from some point on every layer holding the key and everything in flight carries the last layer's value. |
| ChainConvergence.ServedIsFair | pkg/chain/chain.go:198-265 | That fairness follows from fairness to each stale item on its own: warm-ups are some time processed, readers go on, entries expire or are replaced. |
| ChainConvergence.ConvergenceOfItems | pkg/chain/chain.go:198-265 | Convergence under fairness to each item. |
| ChainConvergence.CleanIsConverged | pkg/chain/chain.go:198-265 | Nothing is stale at any depth if and only if every holder and everything in flight carries the value. |
| ChainConvergence.StaleBusinessShrinks | pkg/chain/chain.go:246-265 | No step adds stale business at the deepest stale depth, and every event on it removes some. |
| ChainConvergence.StaleBusinessDrains | pkg/chain/chain.go:246-265 | At the deepest stale depth a run sees boundedly many stale events; when none is left the deepest position is strictly higher. |
| ChainCalls.FirstHit | pkg/chain/chain.go:198-236 | The lowest-index layer that answers: every layer before it failed, and it hits unless there is none. |
| ChainCalls.LowestLayerAnswers | pkg/chain/chain.go:198-243 | An uncancelled read returns the lowest answering layer's value and warms exactly the layers above it; it fails if and only if all layers fail, with the last layer's error. |
| ChainCalls.WriteSucceedsIff | pkg/chain/chain.go:270-291 | A Set reports no error if and only if it was not cancelled and every layer took it; then every layer holds the value with its own TTL. |
| ChainCalls.SetThenGet | pkg/chain/chain.go:150-291 | After an error-free Set a read in which some layer answers and none is rejected as one too many returns the value. |
| ChainCalls.DeleteThenGet | pkg/chain/chain.go:150-313 | After an error-free Delete no read returns a value, unless a layer rejects it as one too many. |
| Chain.CacheChain.constructor | pkg/chain/chain.go:57-145 | A new chain has one empty writer queue per layer. |
| Chain.CacheChain.WarmUpperLayers | pkg/chain/chain.go:246-265 | The value is offered to layers hit-1, ..., 0 in that order, each once; each writer that takes it gets it with the TTL that the strategy gives that layer for one hour; a refused offer leaves that queue alone. |
| Chain.CacheChain.GetWithFallback | pkg/chain/chain.go:167-243 | The first answer if the context is alive until that layer is asked, else the cancellation; without any answer the last layer's error; every metrics record in order, the warm-up attempts and the queues, for every mix of layer answers; no layer changes. |
| Chain.CacheChain.FallThrough | pkg/chain/chain.go:198-243 | The loop stops at the first hit, at the cancellation or after the last layer, with that answer, having asked exactly the layers before that. |
| ChainCalls.StoppingDecides | pkg/chain/chain.go:177-243 | Where the loop stops decides the answer, all records and the warm-up depth. |
| Chain.CacheChain.Set | pkg/chain/chain.go:270-291 | Every layer asked before a cancellation, whatever earlier ones answered, holds the value with the TTL that the strategy gives that layer, exactly where the layer's call took effect; a cancelled call reports that, any other the failure of the last layer that failed. |
| Chain.CacheChain.Delete | pkg/chain/chain.go:295-313 | Every layer asked before a cancellation, whatever earlier ones answered, loses the key exactly where the layer's call took effect; a cancelled call reports that, any other the failure of the last layer that failed. |
| ChainRuns.GetIsARun | pkg/chain/chain.go:167-265 | A read of the chain object, perhaps cut short by its context, is a protocol run with the same answer and the same warm-ups. |
| ChainRuns.SetIsARun | pkg/chain/chain.go:270-291 | A Set of the chain object, perhaps cut short, with failing layer calls that may have taken effect, is a protocol run that leaves the same contents in every layer. |
| ChainRuns.DeleteIsARun | pkg/chain/chain.go:295-313 | The same for Delete. |
| ChainWriters.MoveRefines | pkg/chain/chain.go:246-265 | With a writer per layer, each step of a read's Write, of a worker, or of a shutdown is one step of the chain protocol or none: the send or the refusal is the offer, the return of layer.Set applies the warm-up. |
| ChainWriters.WritersRefinePending | pkg/writer/async.go:107-196 | Every run of chain and writers is a run of the chain protocol, and the warm-ups waiting for a layer are exactly the ops its writer has accepted and not finished, in accept order. |
| ChainWriters.FinishTakesOut | pkg/writer/async.go:152-193 | Finishing an op takes that op out of the backlog and leaves the order of the others. |
| ChainOverBreakers.IsChainRun | pkg/chain/chain.go:87-122 | Every run of the chain with a breaker in front of each layer, for reads, writes and warm-ups, is a run of the chain protocol. |
| ChainOverBreakers.HealthyProvenance | pkg/resilience/layer.go:103-174 | Over layers that only hit or miss and take their writes, no breaker leaves the closed state in any run, and a value a read returns was written for its key. |
| ChainOverBreakers.HealthyCoherence | pkg/chain/chain.go:150-313 | Over such layers the coherence of a key needs only that its calls begin when they may and that nothing cuts its writes short or bypasses the chain. |
| Resilience.ResilientLayer.Get | pkg/resilience/layer.go:103-174 | Misses stay misses, open-circuit and timeout are translated, a half-open rejection is an empty success; with exactly the records of each case. |
| Resilience.ResilientLayer.Set | pkg/resilience/layer.go:177-231 | The same for writes: no error means that the layer has changed, a failing wrapped write may have changed it too, a rejected one never; each failure is recorded as a failed Set and by type. |
| Resilience.ResilientLayer.Delete | pkg/resilience/layer.go:234-290 | The same for removals. |
| Resilience.GetAnswerMeans | pkg/resilience/layer.go:116-174 | A read succeeds if and only if the layer had the key and answered, or the call was rejected as one too many; NotFound is always the layer's own; an open breaker gives its own error, a failure past the deadline a timeout, any other failure the layer's error. |
| Resilience.WriteOutcomeMeans | pkg/resilience/layer.go:177-290 | The same for Set and Delete: success exactly when the layer took it, and the error of each way to fail. |
| Resilience.GetIsCounted | pkg/resilience/layer.go:127-170 | A read counts one hit or one miss, a hit also when the breaker rejected it, and one error unless it was a hit, a miss or a rejection as one too many. |
| Resilience.SetIsCounted | pkg/resilience/layer.go:189-228 | A Set counts one Set, and two errors if it fails. |
| Resilience.DeleteIsCounted | pkg/resilience/layer.go:246-287 | A Delete counts one Delete, and two errors if it fails. |
| Resilience.ErrorsAreTyped | pkg/resilience/layer.go:131-228 | A failed call's error is counted under the breaker's type, the timeout's, or that of the layer's own error. |
| Resilience.KindsAreDistinct | pkg/cache/errors.go:53-87 | Each named error has a type of its own; all others share one. |
| CircuitBreaker.ThresholdInIntegers | pkg/resilience/config.go:53-61 | The rate rule in real arithmetic is requests >= 20 and 20 * failures >= 3 * requests. |
| CircuitBreaker.StepInv | pkg/resilience/config.go:37-61 | Every admission, completion (of this or an older generation) and period keeps requests = successes + failures + running, the error bound while closed, and few requests and no failure while half-open. |
| CircuitBreaker.TripsIff | pkg/resilience/config.go:53-61 | A failure counted by a closed breaker opens it if and only if, with it, requests >= 20 and 20 * failures >= 3 * requests; otherwise it is counted and nothing else changes. |
| CircuitBreaker.ClosedSuccess | pkg/resilience/config.go:37-43 | A success counted by a closed breaker is counted and nothing else changes. |
| CircuitBreaker.HalfOpenDecides | pkg/resilience/config.go:16-31 | Any failure counted by a half-open breaker opens it; a success closes it if and only if it is the fifth in a row. |
| CircuitBreaker.StaleCompletion | pkg/resilience/config.go:37-43 | A call of an earlier generation completes without being counted. |
| CircuitBreaker.AdmittedIff | pkg/resilience/config.go:16-20 | Calls are admitted while the breaker is closed, and five in each half-open period. |
| CircuitBreaker.ResetsCount | pkg/resilience/config.go:22-28 | Every change of state and every new period starts counting from zero. |
| CircuitBreaker.StaysClosedBelowTwenty | pkg/resilience/config.go:53-57 | While fewer than 20 calls were made since the last reset the breaker stays closed, however many fail. |
| CircuitBreaker.TwentiethFailureOpens | pkg/resilience/config.go:53-61 | Nothing but failures opens a new breaker with exactly the twentieth. |
| CircuitBreaker.ErrorBoundWhileClosed | pkg/resilience/config.go:46-64 | For any interleaving, while closed at most 19 calls failed since the last reset, or fewer than 15 percent did. |
| CircuitBreaker.SuccessesKeepClosed | pkg/resilience/config.go:46-64 | Calls that all succeed, in any completion order, never open the breaker. |
| GuardedLayer.MissesNeverTrip | pkg/resilience/layer.go:103-174 | A layer composed with its breaker, any number of calls at once: while the wrapped layer only hits or misses and takes its writes, the breaker stays closed, nothing is rejected and every read returns what the wrapped layer answered to it. |
| GuardedLayer.RejectionsMean | pkg/resilience/config.go:16-61 | In every reachable state a call is rejected as open exactly while the breaker is open, and as one too many exactly when it is half-open with all its trial calls admitted; either takes an earlier trip, and the latter a trial call still on its way. |
| GuardedLayer.NoTripNoRejection | pkg/resilience/layer.go:103-174 | Until the breaker trips for the first time no call is rejected. |
| GuardedLayer.EmptySuccessIff | pkg/resilience/layer.go:116-173 | Over a layer that stores no empty value a read returns the empty success if and only if it was rejected as one too many, and only in a run with a trip. |
| GuardedLayer.ReportIsEnabled | pkg/resilience/layer.go:116-125 | Every call whose closure has run can report to the breaker, with a ticket of its own. |
| GuardedLayer.ReportCounts | pkg/resilience/layer.go:116-125 | A call's error other than a miss is reported as a failure, and opens the closed breaker exactly when the rule of 20 requests and 15 percent says so; a hit, a miss or a taken write is reported as a success. |
| GuardedLayer.UninterruptedCall | pkg/resilience/layer.go:103-290 | A call with nothing in between is a run in which the breaker's own state decides what the layer's methods are told, and leaves the contents they leave. |
| Metrics.MemoryCollector.GetOrCreateLayer | pkg/metrics/memory/memory.go:61-71 | An unknown layer starts with zero counters; a known one is unchanged. |
| Metrics.MemoryCollector.RecordGet | pkg/metrics/memory/memory.go:74-86 | One read is counted as a hit or a miss of that layer, and nothing else changes. |
| Metrics.MemoryCollector.RecordSet | pkg/metrics/memory/memory.go:89-100 | One Set is counted, and one error if it failed. |
| Metrics.MemoryCollector.RecordDelete | pkg/metrics/memory/memory.go:103-114 | One Delete is counted, and one error if it failed. |
| Metrics.MemoryCollector.RecordError | pkg/metrics/memory/memory.go:117-128 | One error is counted, in total and by type. |
| Metrics.MemoryCollector.RecordChainGet | pkg/metrics/memory/memory.go:181-191 | One chain read is counted, a hit also by layer. |
| Metrics.LayerCountersCount | pkg/metrics/memory/memory.go:74-86 | After any sequence of records a layer's hits and misses are the number of its read records. |
| Metrics.LayerWritesCount | pkg/metrics/memory/memory.go:89-114 | A layer's sets and deletes are the numbers of its Set and Delete records. |
| Metrics.ErrorKindsCount | pkg/metrics/memory/memory.go:117-128 | A layer's errors of each type are the number of its records of that type. |
| Metrics.ChainCountersCount | pkg/metrics/memory/memory.go:181-191 | After any sequence of records the chain's hits, misses and hits by layer are the numbers of its read records. |
| Metrics.ErrorsAreTypedPlusFailedWrites | pkg/metrics/memory/memory.go:89-128 | For any sequence of records: errors = sum of errors by type + failed Sets + failed Deletes. |
| Accounting.ChainAndLayersAgree | pkg/chain/chain.go:177-236 | For any number of uncancelled reads, their records interleaved in any way with each other and with other operations: hits_i + misses_i = chain hits + chain misses - chain hits above i; hits_i = chain hits at i + open-circuit rejections at i; the hits by layer sum to the chain's hits. |
| Accounting.HitsAreExactIff | pkg/resilience/layer.go:116-142 | A layer's recorded hits are the chain hits it answered if and only if its open breaker rejected no read. |
| MemoryTable.HitsAreLastWrites | pkg/cache/memory/memory.go:111-243 | With any size limit, eviction choice and cleanup schedule, a hit is the last Set of the key with no Delete since, unexpired. |
| MemoryTable.ExactTtl | pkg/cache/memory/memory.go:111-243 | Without a size limit a read at t hits with v if and only if the last Set or Delete of the key is a Set of v that expires at t or later. |
| MemoryTable.SetIsSeenFor | pkg/cache/memory/memory.go:160-219 | Without a size limit a Set at now is seen by exactly the reads up to now + ttl, or up to now + the default TTL if its TTL is zero, until the key is written again. |
| MemoryTable.DeleteIsSeen | pkg/cache/memory/memory.go:223-243 | After a Delete no read hits until the key is written again, with any size limit. |
| MemoryTable.CleanupIsInvisible | pkg/cache/memory/memory.go:284-294 | removeExpired inserted anywhere in a run changes no later answer. |
| MemoryTable.OldestIsUnique | pkg/cache/memory/memory.go:180-201 | With distinct access times every iteration order picks the same victim. |
| MemoryTable.ValidIsAcceptedWithoutBlanks | pkg/cache/memory/memory.go:323-340 | The cache takes the keys of 1 to 250 characters without control characters that have no blank anywhere: those key validation accepts, less those with a blank inside. |
| MemoryTable.LruOverRuns | pkg/cache/memory/memory.go:150-216 | Over whole runs of Sets and Gets with a strictly increasing clock the residents are upward closed in recency, at most MaxSize, and contain any MaxSize-1 or fewer most recently used keys. |
| MemoryTable.OverwriteStillEvicts | pkg/cache/memory/memory.go:180-201 | Overwriting a key of a full cache loses another key unless the key is itself the oldest. |
| MemoryCacheLayer.MemoryCache.constructor | pkg/cache/memory/memory.go:69-107 | The cache starts empty; a zero default TTL becomes one hour. |
| MemoryCacheLayer.MemoryCache.Get | pkg/cache/memory/memory.go:111-155 | Invalid keys are refused; a live entry is returned and touched, an expired one removed and reported missing, everything else unchanged. |
| MemoryCacheLayer.MemoryCache.FindOldest | pkg/cache/memory/memory.go:183-196 | For every iteration order the scan finds an entry of minimal access time, and the empty-string sentinel means exactly "the cache is empty". |
| MemoryCacheLayer.MemoryCache.EvictIfFull | pkg/cache/memory/memory.go:180-201 | A full cache loses exactly one entry, the oldest; otherwise nothing changes. |
| MemoryCacheLayer.MemoryCache.Set | pkg/cache/memory/memory.go:160-219 | The entry holds the value, expires at now + ttl, or at now + the default TTL if ttl is zero, and is stamped; every Set of a valid key is the table's Set step for some victim of minimal access time. |
| MemoryCacheLayer.MemoryCache.Delete | pkg/cache/memory/memory.go:223-243 | A valid key is removed, present or not; an invalid key changes nothing. |
| MemoryCacheLayer.MemoryCache.RemoveExpired | pkg/cache/memory/memory.go:284-294 | Deleting while scanning in any order leaves exactly the unexpired entries. |
| MemoryCacheLayer.MemoryCache.GetStats | pkg/cache/memory/memory.go:297-312 | Size and limit, with capacity -1 exactly when unlimited. |
| MemoryConcurrent.Refinement | pkg/cache/memory/memory.go:111-294 | With Gets split at their locks and interleaved with Sets, Deletes, evictions and cleanups, the table holds only latest writes, every hit is the latest write at its lookup and live at its clock check, and the size limit always holds. |
| MemoryConcurrent.ConcurrentExactTtl | pkg/cache/memory/memory.go:111-294 | Without a size limit, if no Set of the key commits an entry that a pending Get of it can remove live, a read in any reachable state hits with v if and only if the latest write is a live Set of v, whatever else runs. |
| MemoryConcurrent.LossIff | pkg/cache/memory/memory.go:111-294 | Without a size limit a step makes the table forget a live latest write if and only if it is the removal of an expired Get of the key while the table refers to another, unexpired entry. |
| MemoryConcurrent.SafeCommitIff | pkg/cache/memory/memory.go:120-216 | That condition is exact: in every otherwise disciplined continuation of the commit the live latest write stays in the table if and only if every pending Get of the key has found an entry that expires no earlier, or the new one has expired already. |
| MemoryConcurrent.CommitWhilePendingLoses | pkg/cache/memory/memory.go:120-216 | Wherever a Set commits an entry that outlives the one a pending Get has found, that Get alone can go on to remove it live. |
| MemoryConcurrent.ExpiredGetCanLoseFreshEntry | pkg/cache/memory/memory.go:120-141 | The late removal of an expired Get leaves no entry of its key; a live entry it removes was written after the one it found, and expires later. |
| MemoryConcurrent.FreshEntryIsLost | pkg/cache/memory/memory.go:120-141 | A run in which the latest write of a key is live, nothing deleted or evicted it, and the table does not hold it. |
| MemoryConcurrent.UninterruptedGet | pkg/cache/memory/memory.go:111-155 | A Get with nothing in between is a run that answers and leaves what the sequential operation does, and changes no other call, no limit and not the log. |
| MemoryConcurrent.UninterruptedSet | pkg/cache/memory/memory.go:160-219 | A Set with nothing in between is a run that leaves what the sequential operation does, and appends exactly its write to the log. |
| MemoryConcurrent.LockedRemovalsAreOperations | pkg/cache/memory/memory.go:223-294 | The locked parts of Delete and removeExpired are the sequential operations. |
| MemoryConcurrent.LockedSetIsAnOperation | pkg/cache/memory/memory.go:160-219 | The locked part of Set is the sequential Set with an expiry stamped before the lock. |
| Wrappers.BloomLayer.Get | pkg/cache/bloom/bloom.go:47-71 | A key that fails the test is missing without a layer call; otherwise the layer's answer. Each of the three counters moves exactly when it should, and rejected + false positives never exceed queries. |
| Wrappers.BloomLayer.Set | pkg/cache/bloom/bloom.go:74-84 | The key joins the filter before the layer is written, so no false negative appears even if the write fails. |
| Wrappers.BloomLayer.Delete | pkg/cache/bloom/bloom.go:87-89 | Only the layer changes, and no false negative appears. |
| Wrappers.BloomLayer.Reset | pkg/cache/bloom/bloom.go:97-106 | Filter and counters are emptied; nothing is said about false negatives afterwards. |
| Wrappers.BloomLayer.Stats | pkg/cache/bloom/bloom.go:109-132 | Both rates are proportions between 0 and 1 of the right totals. |
| Wrappers.NegativeCacheLayer.constructor | pkg/cache/negative.go:29-46 | No negative entries; a non-positive lifetime becomes one minute. |
| Wrappers.NegativeCacheLayer.IsNegativeCached | pkg/cache/negative.go:100-115 | True exactly for an entry that has not expired. |
| Wrappers.NegativeCacheLayer.CacheNegative | pkg/cache/negative.go:118-128 | The entry is stored for one lifetime from now: a Set of the TTL table. |
| Wrappers.NegativeCacheLayer.RemoveNegative | pkg/cache/negative.go:131-136 | The entry is gone: a Delete of the TTL table. |
| Wrappers.NegativeCacheLayer.CleanupExpired | pkg/cache/negative.go:156-166 | Deleting while scanning in any order leaves exactly the unexpired entries. |
| Wrappers.NegativeCacheLayer.Get | pkg/cache/negative.go:54-73 | A live negative entry answers without a layer call and is not renewed; otherwise a miss is remembered and a hit forgotten; the answer agrees with the wrapped layer; "entry implies absent" and "present implies in the filter" are kept. |
| Wrappers.MissesOnce | pkg/cache/negative.go:54-73 | After a miss the next Get within the lifetime does not ask the layer. |
| Wrappers.NegativeCacheLayer.Set | pkg/cache/negative.go:76-80 | The entry is dropped before the write, whatever the write does; the invariant is kept. |
| Wrappers.NegativeCacheLayer.Delete | pkg/cache/negative.go:83-90 | The key is remembered as missing if and only if the removal succeeded; the invariant is kept. |
| Wrappers.RunStack | pkg/cache/negative.go:54-90 | In every sequential run through a negative layer over a Bloom layer over a map-like layer (with failures, cancellations, cleanups and forgetting) every read agrees with the bare layer at that point, and the contents end the same. |
| Wrappers.RunOne | pkg/cache/bloom/bloom.go:47-89 | One operation of such a run: same effect on the contents as on the bare layer. |
| NegativeConcurrent.MaskingIsBounded | pkg/cache/negative.go:54-128 | In every run of interleaved Gets, Sets, Deletes, cleanups and out-of-band writes, a Get whose check comes more than one lifetime after its key was last cached as missing answers what the wrapped layer held when the Get asked it. |
| NegativeConcurrent.LateCheckAsks | pkg/cache/negative.go:100-128 | A check more than one lifetime after the run's last caching of the key is not answered by the map. |
| NegativeConcurrent.CachedIsLastRemembered | pkg/cache/negative.go:118-128 | The recorded time is that of the last step of the run that cached the key. |
| NegativeConcurrent.SetIsMasked | pkg/cache/negative.go:54-80 | A run in which a Get misses, a Set of the key completes without error, the miss is then remembered, and the next Get reports the present key as missing. |
| NegativeConcurrent.ApartIsTransparent | pkg/cache/negative.go:54-136 | If no Set of the key is ever between its two steps while a miss or removal of the key waits to be remembered, and nothing writes it out of band, no present key has a live negative entry and every Get of the key answers what the layer held when it was asked, or when the check answered in its place. |
| NegativeConcurrent.OverlapMasks | pkg/cache/negative.go:54-90 | Conversely, from every state with such an overlap some continuation completes the Set and has the next Get report the present key as missing. |
| NegativeConcurrent.CleanUpIsInvisible | pkg/cache/negative.go:156-166 | A cleanup inserted anywhere in a run changes no answer, no later masking and not the layer. |
| NegativeConcurrent.UninterruptedGet | pkg/cache/negative.go:54-73 | A Get with nothing in between is a run that answers and leaves what the sequential layer's contract says of its map. |
| NegativeConcurrent.UninterruptedSet | pkg/cache/negative.go:76-80 | The same for a Set, |
| NegativeConcurrent.UninterruptedDelete | pkg/cache/negative.go:83-90 | and for a Delete. |
| Batch.BatchAdapter.GetMulti | pkg/cache/batch.go:59-90 | For every order of the goroutines an uncancelled batch returns stored values of requested keys live at the window's start whose calls did not fail, and every such key live throughout; the reads change no value and drop only expired entries. |
| Batch.BatchAdapter.SetOne | pkg/cache/batch.go:93-124 | One goroutine stores its item with an expiry inside the window, or fails; in a full cache other entries only go. |
| Batch.BatchAdapter.SetMulti | pkg/cache/batch.go:93-124 | For every order, and calls that may fail with or without effect: an uncancelled batch reports an error if and only if some call failed, and one of theirs; the table holds only old entries and stored items; with room for all, exactly the old entries and the items whose calls took effect. |
| Batch.BatchAdapter.DeleteMulti | pkg/cache/batch.go:127-158 | For every order an uncancelled batch leaves the old table without the keys whose calls took effect, and reports an error if and only if some call failed. |
| Batch.RoomForOne | pkg/cache/memory/memory.go:180-201 | While MaxSize exceeds the number of existing and new keys together, no goroutine of the batch finds the cache full. |
| Batch.SetThenGetMulti | pkg/cache/batch.go:59-124 | SetMulti then GetMulti of the same keys, in any orders, returns exactly the items. |
| Keys.ValidateKey | pkg/cache/keys.go:17-40 | Accepts exactly the keys of 1 to 250 characters without control characters and without a blank at an end. |
| Keys.RemoveControl | pkg/cache/keys.go:45-65 | The builder loop keeps exactly the printable characters, in order. |
| Keys.SanitizeKey | pkg/cache/keys.go:45-65 | The result is the printable characters of the trimmed key, in order, the first 250 of them; and whether it is valid. |
| Keys.TrimCutsBlanks | pkg/cache/keys.go:47-48 | Trimming cuts off blanks at both ends and nothing else. |
| Keys.FixedPointIff | pkg/cache/keys.go:17-65 | Sanitizing leaves a key alone if and only if it is valid or empty. |
| Keys.TwoPassesSuffice | pkg/cache/keys.go:17-65 | Two passes always give a valid key or the empty string, and a third changes nothing. |
| Keys.OnePassSufficesIff | pkg/cache/keys.go:45-65 | One pass gives a valid key or the empty string if and only if the trimmed key has no blank preceded only by control characters, followed only by control characters, or in the last place that fits. |
| Keys.OnePassIsNotEnough | pkg/cache/keys.go:45-65 | A non-blank control character and a space before any valid key make a key whose single pass gives an invalid, non-empty key. |
| Keys.KeyPattern.constructor | pkg/cache/keys.go:75-83 | An empty separator becomes a colon. |
| Keys.KeyPattern.Build | pkg/cache/keys.go:87-97 | The loop gives the prefix followed by each part behind its separator. |
| Keys.BuildIsInjectiveIff | pkg/cache/keys.go:87-97 | Part lists free of the separator that build the same key are always equal if and only if no proper beginning of the separator is also an end of it. |
| Keys.BuildIsInjective | pkg/cache/keys.go:87-97 | In particular a one-character separator makes Build injective on parts without it. |
| Keys.BorderCollides | pkg/cache/keys.go:87-97 | A separator that overlaps itself gives two different part lists, free of it, with one key. |

## Left out

- ChainCoherence.Coherence: entries carry no clock; expiry, eviction and cleanup are one step that may forget any entry at any time.
- ChainConvergence.Convergence: as for Coherence, so an expiry is a step that forgets the entry; that each stale item is some time processed is assumed of the schedule.
- Chain.CacheChain.GetWithFallback: whether a writer takes an offered warm-up is a parameter, since it depends on the writer's workers; the writer itself is modelled separately.
- Batch.BatchAdapter.GetMulti: each goroutine's call on the cache is atomic, as in SetMulti and DeleteMulti; calls that interleave inside a read are covered by MemoryConcurrent.
- Wrappers.RunStack: runs are sequential and contain no Reset and no write that bypasses the wrappers; failing layers do not report a key they hold as missing. The concurrent negative cache is modelled over a plain layer, without a Bloom filter between.
- Redis, Postgres, the HTTP server, Prometheus, logging and the examples: I/O and plumbing.
- The inside of gobreaker, singleflight and the Bloom filter library. The breaker is its contract (phases, generations, counts); singleflight's joined callers get the leader's result and its entry check of the context is not modelled; a key's filter bits are an arbitrary function.
- Real time: timers, tickers, deadlines and latencies are clock arguments, nondeterministic outcomes or spontaneous steps.
- TTL strategies: an arbitrary function of layer index and base TTL. The exponent of DecayingTTLStrategy is always zero in the code, so its documented decay is not there to model.
- Keys outside ASCII: truncation at byte 250 and rewriting of invalid bytes are not modelled.
- The substring search of ClassifyError: errors are a small datatype, classified by constructor.
- LayerConfig, CacheEntry, the With functions of the resilience configuration, MustBuild: easy members.
- MemoryCache and NegativeCacheLayer after Close, and double Close.
- Overflow of the counters: they are unbounded.
- ResilientLayer.Clear, the collector's circuit states, queue depths, asynchronous-write counters, latencies, Snapshot and Reset.
- The timestamps of queued writes and the default timeout of each layer.
