# Verified model of the metrics agent and server

A Dafny model of the agent and server that collect, ship, store and show runtime metrics,
with machine-checked proofs of what the system promises. The modules follow the program:

- **Storage** (`Model`, `Storage`, `MemStorage`, `Service`): the in-memory backend, int64
  wrap-around included, and the meaning of every update history, however it is cut into calls.
- **Persistence** (`FileStorage`, `Durability`): snapshots to one JSON file; then any number of
  goroutines updating and saving at once, as a transition system over the two locks.
- **Database** (`Retry`, `Database`): upserts on a table with nullable columns, transactions
  and retries under arbitrary fault schedules, proved to refine the memory backend.
- **Agent** (`Collector`, `Pipeline`, `Delivery`, `Trace`, `LastReport`): workers, reporter,
  collectors, bounded channel, cancellation and close as a transition system whose event
  sequences are all interleavings; then what the server ends up holding.
- **Reset generator** (`ResetGenerator`, `ResetMachine`, `ResetRules`, `ResetLimits`): the
  translation from Go field types to Reset statements, an interpreter of the generated methods
  over aliased heaps, the documented reset rules, and exactly where the code meets them.
- **Wire** (`Envelope`, `Wire`, `Transport`, `Sender`): the encrypted envelope, the layers of a
  request and of a signed response, gRPC against HTTP, and retried sends.
- **Dashboard** (`Order`, `Dashboard`): the rows of the HTML page.

## Conventions

- Go map iteration order, `select` choices, goroutine scheduling, faults, replies and the moment
  of cancellation are nondeterministic: every theorem is for all of them.
- A method that runs under a mutex is one atomic step. Concurrent protocols are transition
  systems, `Enabled` and `Next` over events, and `Exec` runs an event sequence.
- gzip, HMAC, AES-GCM and RSA-OAEP (section 7.1 of RFC 8017) are function values; the laws asked
  of them are the predicates `Envelope.Inverse` and `Wire.Lawful`, shown satisfiable by
  `Wire.LawfulExists`. JSON text is represented by the list it decodes to, and can carry finite
  numbers only.
- Sampled values, clocks, random keys, parsed numbers and number formatting are parameters.

## Where the code does not do what one might expect

Where a promise breaks, a lemma shows a concrete input and another the exact condition under
which it holds.

- With more than one worker an older report can be applied after a newer one (`StaleWins`): the
  server surely ends with the last snapshot's gauges iff the rate limit is one
  (`LastSnapshotWinsIff`).
- `AckCounter` is never called, so the cumulative poll counter is added whole at every report: two
  polls and two reports can be counted as three (`PollCountCanBeWrong`). The total is right iff the
  polls before the earlier reports sum to a multiple of 2^64 (`PollCountIsTrueIff`); while reports
  times polls stay below 2^64, iff no report but the last was snapped after a poll
  (`PollCountIsTrueIfUnpolled`).
- Memory wraps a counter where PostgreSQL refuses it (`OverflowSeparatesBackends`); the backends
  agree iff no running total leaves int64 (`ExecAllRefines`).
- SQLSTATE 08007 is retried although the transaction may have committed, so a batch can be added
  twice with a nil result (`AmbiguousCommitAddsTwice`). A batch is committed once on nil and never
  on an error iff no attempt made reports a commit as failed that took effect (`CommittedOnceIff`);
  `ScheduleKeepsPromiseIff` says which fault schedules keep that promise for all tables and batches.
- A database read that is given up on looks like an absent metric (`GetMetric`).
- A single infinite or NaN gauge, which the text endpoint accepts, makes every save fail until it
  is overwritten (`NaNBlocksSaving`); saving works iff every gauge's last valid write is finite
  (`SaveableIff`).
- Regenerating `reset.gen.go` can change it when an unmarked struct embeds a marked one: a Reset
  gained by promotion, or lost by ambiguity (`RegenerationCanChange`). It does not iff the methods
  to be written leave the shallowest embedding depth of every field type undisturbed
  (`RegenerationStableIff`).
- The project README asks that every non-nil pointer have its value reset by the same rules. The
  generator does so for pointers to Reset-bearing types and for pointers written out to basic types
  only: a pointer to a slice, a map or another pointer, and a named pointer type, is left alone
  (`PointerRuleFails`). `RulesMetIff` gives the exact field types for which the rules hold on all
  heaps.
- On a cyclic object graph the generated methods recurse forever (`CyclicResetDiverges`,
  `ResetTerminatesIff`).
- A retried `SendMetrics` can add a counter's delta once per pass and still return nil
  (`RetriedSendAddsTwice`); a counter is as if the list were applied once iff the earlier passes'
  effects on it sum to a multiple of 2^64 (`SendMetricsMeaning`).
- HTTP triggers a save for a non-empty batch with no valid entry, gRPC does not
  (`BothTransports`).

## Model

| member | source | states |
|---|---|---|
| Model.WrapAdd | internal/repository/storage.go:46-51 | int64 addition may wrap at any point of a sum; only the exact total matters |
| Model.WrapEqualIff | internal/repository/storage.go:46-51 | two totals are the same int64 iff they differ by a multiple of 2^64 |
| Storage.CounterHistory | internal/repository/storage.go:54-71 | after any history a counter is the wrapped sum of its valid deltas and exists iff it did before or some valid update named it |
| Storage.GaugeHistory | internal/repository/storage.go:54-71 | after any history a gauge is its last valid write, otherwise unchanged, and exists iff it did before or some valid update named it |
| Storage.CountersIgnoreOrder | internal/repository/storage.go:45-71 | permuting a history leaves all counters unchanged |
| MemoryBackend.MemStorage.UpdateGauge | internal/repository/storage.go:38-43 | the store becomes the old store with the gauge replaced |
| MemoryBackend.MemStorage.UpdateCounter | internal/repository/storage.go:46-51 | the store becomes the old store with the delta added, from zero when absent, with wrap-around |
| MemoryBackend.MemStorage.UpdateBatch | internal/repository/storage.go:54-71 | the loop applies every entry in order and ignores entries without their value or of another type |
| MemoryBackend.MemStorage.GetMetric | internal/repository/storage.go:74-89 | exactly the stored metric of that type and name, nothing for other types |
| MemoryBackend.MemStorage.Snapshot | internal/repository/storage.go:125-139 | lists every metric exactly once, in some order |
| MemoryBackend.SnapshotRestores | internal/repository/storage.go:125-139 | applying a snapshot taken in any map order to an empty store reproduces both maps |
| Service.MetricService.NotifyUpdate | internal/service/metrics.go:30-34 | the callback runs once iff one is registered |
| Service.MetricService.UpdateMetric | internal/service/metrics.go:37-60 | refuses unparsable values and unknown types without effect, otherwise updates and then notifies once |
| Service.MetricService.UpdateMetricFromModel | internal/service/metrics.go:63-84 | refuses missing values and unknown types without effect, otherwise updates and then notifies once |
| Service.MetricService.UpdateBatch | internal/service/metrics.go:87-96 | applies the list and notifies once; an empty list does neither |
| Service.RefusedIff | internal/service/metrics.go:37-84 | a call succeeds iff it is a batch or carries a gauge with a value or a counter with a delta; each refusal has its exact cause |
| Service.CallMeaning | internal/service/metrics.go:30-96 | a refused call leaves the store alone, an accepted one has the effect of its entries, and the callback runs for exactly the accepted calls that are no empty batch |
| Service.TextMeaning | internal/service/metrics.go:37-60 | an accepted text update replaces that gauge or adds to that counter and touches nothing else |
| Service.CutsDoNotMatter | internal/service/metrics.go:37-96 | any run of text, single and batch calls equals its update history applied entry by entry |
| Service.RunMeaning | internal/service/metrics.go:37-96 | after any run of calls each gauge is its last valid write, each counter its wrapped sum, and keys exist iff named |
| Service.ReadAfterRun | internal/repository/storage.go:74-89 | what a reader of any type and name gets after any run of calls: the last valid write, the wrapped sum, or nothing |
| FileBackend.EncodableIffFinite | internal/repository/filestorage.go:66-69 | a snapshot in any order marshals iff every stored gauge is finite |
| FileBackend.SaveableIff | internal/service/metrics.go:37-60 | after any run of calls the store can be saved iff the last valid write of every gauge is finite |
| FileBackend.NaNBlocksSaving | internal/service/metrics.go:37-48 | one accepted text update with NaN after which no snapshot marshals, and the update that repairs it |
| FileBackend.FileBackedStorage.Save | internal/repository/filestorage.go:62-71 | succeeds iff the gauges are finite and the file writable; then the file lists the store, otherwise it is untouched |
| FileBackend.FileBackedStorage.Load | internal/repository/filestorage.go:75-106 | a missing file is no error, an unreadable one changes nothing, a saved one acts like the batch of its entries |
| FileBackend.FileBackedStorage.Reopen | internal/repository/filestorage.go:62-106 | save then load into a fresh store reproduces the store exactly, whenever the save succeeds |
| Durability.InvNext | internal/repository/filestorage.go:62-71 | every step of every goroutine keeps the lock discipline and never moves the file to an older history position |
| Durability.FileNeverGoesBack | internal/repository/filestorage.go:62-71 | in every run the file is as it was found until the first save and then (at once when it was restored) the store as of one history position, which never decreases |
| Durability.AcknowledgedIsDurable | internal/service/metrics.go:30-96 | over a whole run: a synchronous update, then the same goroutine's release after its write; from then on a restart loads a history position that includes that very update |
| Durability.AcknowledgementIsEarned | internal/repository/filestorage.go:129-133 | only a release after a successful write acknowledges an update, and the file has reached it by then |
| Durability.MemoryIsUpdates | internal/service/metrics.go:37-96 | in every run memory is the start-up store with the lists of all updates applied, synchronous or not, however the saves go |
| Durability.SaversNeverDeadlock | internal/repository/filestorage.go:62-71 | in every reachable state an idle goroutine can update at once, and while one is saving some saver can take its next step |
| Durability.FinalSaveIsComplete | cmd/server/main.go:255-259 | after any run gone quiet the last save succeeds iff the gauges are finite, and then a restart loads the start-up store with every update of the run |
| Retry.DoContract | pkg/retry/retry.go:10-33 | at most four attempts in order, each but the last failed retriably, the last outcome is returned, giving up on a retriable error means all four were used |
| Database.DBStorage.RunTransaction | internal/repository/db.go:80-114 | one attempt: the statement loop on a private copy, rolled back on any failure, published by the commit |
| Database.DBStorage.UpdateBatch | internal/repository/db.go:79-115 | the retried transaction follows the retry contract over attempts |
| Database.DBStorage.UpdateGauge | internal/repository/db.go:55-64 | a retried autocommit upsert of the gauge, which may fail before or after taking effect |
| Database.DBStorage.UpdateCounter | internal/repository/db.go:67-76 | a retried autocommit additive upsert, which may fail before or after taking effect |
| Database.SingleIsBatch | internal/repository/db.go:55-76 | a single update has, for every fault schedule, the table, outcome and attempts of a one-entry batch |
| Database.DBStorage.GetMetric | internal/repository/db.go:118-149 | the row of that id and type with its non-null columns iff one of the first four reads succeeds after retriable failures only, otherwise absent |
| Database.LookupsAgree | internal/repository/db.go:118-149 | a table that agrees with a store answers every lookup of every type and name as memory does |
| Database.ExecAllRefines | internal/repository/db.go:86-112 | the statements succeed iff no running counter total leaves int64, and then table and memory store agree, with gauge rows without delta and counter rows with delta and without value |
| Database.OverflowSeparatesBackends | internal/repository/db.go:67-76 | a concrete overflow that memory wraps and the database refuses |
| Database.BatchIsAtomic | internal/repository/db.go:79-115 | for every fault schedule at most four attempts, each but the last retried, and one whole copy of the batch per commit that took effect |
| Database.RetriedOnConnectionErrorsOnly | internal/repository/db.go:36-42 | for every fault schedule every attempt but the last returned one of the seven connection-class codes, a last one that did was the fourth, and nil means the last succeeded |
| Database.SecondAttemptIff | internal/repository/db.go:36-42 | after one fault at the begin, a statement or the commit a second attempt is made for those codes and for no other error |
| Database.SecondReadIff | internal/repository/db.go:118-149 | the same for reads |
| Database.CommittedOnceIff | internal/repository/db.go:79-115 | for every table, batch and schedule: committed once on nil and never on an error, iff no attempt made ends in a commit that took effect and was reported as failed |
| Database.BatchExactlyOnceOrNotAtAll | internal/repository/db.go:79-115 | in that case nil and applied exactly once, or an error and the table unchanged |
| Database.ScheduleKeepsPromiseIff | internal/repository/db.go:36-42 | a fault schedule keeps that promise for every table and batch iff no attempt it allows, after retried faults only, loses a commit |
| Database.DatabaseRefinesMemory | internal/repository/db.go:55-149 | over every history of calls and fault schedules in which no commit is lost, every lookup equals that of a memory store fed the calls that returned nil |
| Database.AmbiguousCommitAddsTwice | internal/repository/db.go:36-42 | a concrete schedule in which a batch is added twice and nil returned |
| Collecting.Collector.Collect | internal/agent/collector.go:33-69 | the sampled keys are overwritten, all others kept, the poll counter incremented |
| Collecting.Collector.CollectExtra | internal/agent/collector.go:72-93 | memory and per-CPU gauges are overwritten, or nothing changes when sampling fails |
| Collecting.ExtraSampleValues | internal/agent/collector.go:72-93 | the memory gauges and the gauge of each CPU hold the sampled values, and there is one for every CPU and no more |
| Collecting.CpuNames | internal/agent/collector.go:87-91 | CPU gauges are numbered from one, distinct, and no memory gauge |
| Collecting.NewestSampleWins | internal/agent/collector.go:33-93 | every sampled name holds its newest value, the others keep theirs, and only a runtime poll counts |
| Collecting.Collector.GetSnapshot | internal/agent/collector.go:96-108 | an exact copy of the current state |
| Collecting.Collector.AckCounter | internal/agent/collector.go:112-116 | subtracts the acknowledged polls and touches nothing else |
| Collecting.AckKeepsLaterPolls | internal/agent/collector.go:110-116 | acknowledging a snapshot's counter leaves exactly the polls made since |
| Collecting.ConvertToModelMetrics | internal/agent/agent.go:173-193 | every gauge once in some order, then the poll counter |
| Collecting.ReportEffect | internal/agent/agent.go:173-193 | on any server a report replaces its gauges, adds its counter and changes nothing else |
| Pipeline.InvNext | internal/agent/agent.go:54-170 | every step of every goroutine keeps the channel, worker and flush invariants |
| Pipeline.EverythingPushedIsAttempted | internal/agent/agent.go:132-170 | when Run returns every pushed batch was passed to SendBatch exactly once in push order and returned; exactly one is a final flush, pushed after the cancel and last |
| Pipeline.NoPanicOnClosedChannel | internal/agent/agent.go:83-88 | in no reachable state can the channel be sent on or closed after its close |
| Pipeline.UnfinishedIsBounded | internal/agent/agent.go:55-66 | at most rateLimit batches queued, rateLimit sends in flight and twice that many pushed batches unfinished |
| Pipeline.ShutdownStepsDecrease | internal/agent/agent.go:139-170 | after a Done branch every reporter or worker step strictly decreases a measure and no other step changes it |
| Pipeline.ShutdownProgress | internal/agent/agent.go:139-170 | until everything is drained some reporter or worker step is enabled, so the flush pushes cannot hang |
| Pipeline.ShutdownTerminates | internal/agent/agent.go:135-170 | after a Done branch the number of reporter and worker steps is bounded in every interleaving, and a run stops only when drained |
| Pipeline.NeverStuck | internal/agent/agent.go:94-170 | no reachable state before completion is stuck, even without a cancel |
| Trace.RunIsItsEvents | internal/agent/agent.go:54-170 | in every interleaving what was pushed (its snapshot, its batch, whether final, whether after the cancel), what the workers took and what the server holds are functions of the event sequence |
| Trace.InnerDoneFlushesOffer | internal/agent/agent.go:145-154 | the inner Done branch flushes the batch it had on offer, without a new snapshot |
| Trace.CollectorsNeverBlock | internal/agent/agent.go:94-130 | no state of reporter, workers or server holds up a collector or the cancel |
| Trace.PollCountOfApplied | internal/agent/agent.go:54-193 | however often each batch took effect the server's PollCount is the wrapped sum over everything applied |
| LastReport.TickAfterCancel | internal/agent/agent.go:139-157 | for every rate limit a complete run in which the ticker branch is chosen after the cancel and pushes a report that is not the final flush |
| Delivery.ServerCounters | internal/agent/agent.go:54-193 | for every rate limit and interleaving with successful sends the server's PollCount is the wrapped sum of all pushed counters, and its only counter |
| Delivery.PushedCounters | internal/agent/collector.go:33-69 | in every run a report's counter is the wrapped number of polls before its snapshot |
| Delivery.PollCountIsTrueIff | internal/agent/agent.go:185-190 | the server's PollCount is the wrapped sum over the reports of the polls before each, and equals the agent's at the last push iff the earlier ones sum to a multiple of 2^64 |
| Delivery.PollCountIsTrueIfUnpolled | internal/agent/agent.go:135-170 | while reports times polls stay below 2^64 it is right iff every report but the last was snapped before the first poll |
| LastReport.PollCountCanBeWrong | internal/agent/agent.go:185-190 | for every rate limit a complete run with two polls after which the server counts three |
| LastReport.OneWorkerKeepsLast | internal/agent/agent.go:54-193 | with one worker the server's gauges are exactly the last pushed snapshot's once the last batch was applied, whatever happened to the earlier ones and however often each was applied |
| LastReport.StaleWins | internal/agent/agent.go:59-66 | for every rate limit above one a complete run ends with an older snapshot's gauges on the server |
| LastReport.LastSnapshotWinsIff | internal/agent/agent.go:54-193 | when every send succeeds, perhaps more than once, the last snapshot's gauges always win iff the rate limit is one |
| ResetGenerator.FindMarked | cmd/reset/generate/generate.go:148-175 | exactly the marked names, strictly ascending |
| ResetGenerator.MethodSets | cmd/reset/generate/generate.go:292-308 | a declared Reset hides embedded ones, one embedded declaring type gives it, several make it ambiguous, an interface behind a pointer has none |
| ResetGenerator.PromotionIsTransitive | cmd/reset/generate/generate.go:269-308 | a type that embeds just one other has Reset iff that one does, through any number of levels |
| ResetGenerator.FileHoldsMethods | cmd/reset/generate/generate.go:192-215 | the written file gives each marked struct its own method, once, and no other type one |
| ResetGenerator.FileIgnoresMapOrder | cmd/reset/generate/generate.go:152-175 | the generated file does not depend on map iteration order |
| ResetGenerator.HitsAfter | cmd/reset/generate/generate.go:292-308 | writing the file adds to the Reset methods found at each embedding depth exactly the marked types there that do not declare it yet |
| ResetGenerator.StatusKeptIff | cmd/reset/generate/generate.go:269-308 | an unmarked type keeps its Reset status iff the shallowest depth at which Reset is or will be found is undisturbed, a condition on the package before generation |
| ResetGenerator.FieldStableIff | cmd/reset/generate/generate.go:224-308 | a field's code survives regeneration iff its type is undisturbed |
| ResetGenerator.RegenerationStableIff | cmd/reset/generate/generate.go:192-308 | the output is the same with the earlier output present iff every field type of every marked struct is undisturbed |
| ResetGenerator.NoEmbeddingSameFile | cmd/reset/generate/generate.go:269-308 | where no unmarked struct held by a marked one embeds a marked struct at any depth, generation gives the same methods with and without the earlier output |
| ResetGenerator.GeneratedTwiceIsStable | cmd/reset/generate/generate.go:192-308 | in every package the third generation gives what the second gave |
| ResetGenerator.RegenerationCanChange | cmd/reset/generate/generate.go:269-308 | two concrete packages whose second generation differs, one gaining and one losing a call |
| ResetMachine.PlainField | cmd/reset/generate/generate.go:238-266 | the statement generated for a field without Reset clears exactly what the rules name for its type |
| ResetMachine.ObjectEffect | cmd/reset/generate/generate.go:203-215 | a Reset call on a well-typed, partly cleared heap clears exactly its call tree's locations |
| ResetMachine.CodeByField | cmd/reset/generate/generate.go:208-212 | the method of a marked struct has one entry a field, in field order, each the statement for that field's type |
| ResetMachine.RunsTheFile | cmd/reset/generate/generate.go:203-215 | a Reset call on a marked object runs, field by field, the code the written file holds for its type |
| ResetMachine.ResetTerminatesIff | cmd/reset/generate/generate.go:203-236 | the generated code is never stuck on a well-typed heap and terminates iff no chain of Reset calls meets an object twice |
| ResetMachine.ResetClearsExactly | cmd/reset/generate/generate.go:203-266 | it clears exactly the locations owned by objects reachable through Reset calls, nothing else, and a second call changes nothing |
| ResetRules.RulesMet | README.md:525-533 | in every object reached, a field of a supported type is reset by all the rules, its own value and every value its pointers lead to, whatever else points there |
| ResetLimits.RulesMetIff | README.md:525-533 | the rules hold of a field on all well-typed heaps iff its type has Reset, is no pointer, is a pointer written out to a basic type, or leads to nothing the rules name |
| ResetLimits.PointerRuleFails | cmd/reset/generate/generate.go:245-254 | a concrete heap with a pointer to a slice of length three that Reset leaves as it is |
| ResetLimits.CyclicResetDiverges | cmd/reset/generate/generate.go:227-236 | a concrete cyclic heap on which Reset returns at no stack depth |
| ResetMachine.ResetCallsHandwritten | cmd/reset/generate/generate.go:227-236 | every object with a hand-written Reset that a reached field holds or points to has had it called |
| ResetMachine.ResetKeepsTheRest | cmd/reset/generate/generate.go:254-266 | pointers, struct layouts, map variables and unsupported kinds are never changed |
| Envelope.Assemble | pkg/crypto/cipher.go:54-59 | filling the buffer at computed offsets gives the framed envelope |
| Envelope.Encrypt | pkg/crypto/cipher.go:27-60 | the envelope of the wrapped key, nonce and ciphertext, or an error when the wrapped key does not fit its length field |
| Envelope.Decrypt | pkg/crypto/cipher.go:64-101 | the parts unwrapped and opened, with every error in the order of the checks and all slices in bounds |
| Envelope.DecryptsIff | pkg/crypto/cipher.go:64-101 | for every byte string decryption returns b iff the string frames a wrapped AES key, a nonce and a ciphertext that opens to b under that key |
| Envelope.RefusedBecause | pkg/crypto/cipher.go:64-101 | which check refuses which string |
| Envelope.LengthIsBigEndian | pkg/crypto/cipher.go:55-70 | the length field is two bytes, most significant first, as written and as read |
| Envelope.ParseFrame | pkg/crypto/cipher.go:54-94 | parsing inverts framing for every wrapped key up to 65535 bytes, nonce and ciphertext |
| Envelope.FrameParse | pkg/crypto/cipher.go:65-94 | an accepted envelope's parts reassemble to it byte for byte |
| Envelope.DecryptEncrypt | pkg/crypto/cipher.go:25-101 | decryption inverts encryption |
| Wire.HexRoundTrip | pkg/hash/hash.go:11-25 | hex decoding inverts hex encoding, two digits a byte |
| Wire.HexText | pkg/hash/hash.go:11-16 | two lower-case digits a byte, high nibble first |
| Wire.SignEqual | pkg/hash/hash.go:18-25 | a header equals a signature iff it decodes to that MAC |
| Wire.NewRequest | internal/agent/sender.go:81-117 | gzip, then encrypt, then headers; the signature covers the plain body; fails only when the envelope cannot be built |
| Wire.Request.Decode | internal/middleware/crypto.go:17-45 | unmarked requests pass, marked ones are replaced by their plaintext and unmarked, or answered 400 |
| Wire.Request.Inflate | internal/middleware/gzip.go:28-39 | gzip bodies are replaced by their contents, other bodies pass, a bad header is answered 400 |
| Wire.Request.Verify | internal/middleware/hash.go:48-62 | an unreadable body is answered 500, a wrong signature 400, an absent one passes |
| Wire.Request.Serve | cmd/server/main.go:35-50 | the middleware chain in router order |
| Wire.LayersUndone | internal/middleware/crypto.go:17-45 | the server recovers the agent's plain body and keeps its signature header |
| Wire.DeliveredIff | internal/middleware/hash.go:41-69 | every body reaches the handler byte for byte iff one side does not sign or the MACs agree; otherwise 400 |
| Wire.MatchedConfigurationDelivers | cmd/server/main.go:35-50 | in every matched configuration of signing and encryption the handler gets exactly the bytes marshalled |
| Wire.ServedIff | cmd/server/main.go:35-50 | any request reaches the handler with body d iff the layers decode to d and the signature holds; otherwise 400, or 500 for a body that breaks off |
| Wire.ForgedEnvelopeIsRefused | internal/middleware/crypto.go:21-44 | a request marked encrypted whose body is no envelope under the server's key is answered 400 |
| Wire.OutgoingPlainHeaders | internal/agent/sender.go:98-115 | the request says JSON, accepts gzip and carries the agent's address |
| Wire.HashResponseWriter.Flush | internal/middleware/hash.go:28-37 | the signature of the whole buffer is set before the status and the body go out |
| Wire.Respond | internal/middleware/hash.go:64-66 | however a handler interleaves headers, statuses and writes, the sent hash is the MAC of all it wrote, and unzipping the body gives all it wrote unless the status allows no body |
| Transport.ConvertBatch | internal/agent/grpc_sender.go:42-62 | keeps exactly the entries with a known type and a value, in order |
| Transport.UpdateMetrics | internal/grpcserver/server.go:34-52 | an unknown type refuses the request without effect, otherwise the converted batch is applied |
| Transport.UpdateMetricsBatch | internal/handler/handler.go:240-265 | applies a decoded list, an empty one without effect |
| Transport.GrpcKeepsMeaning | internal/agent/grpc_sender.go:41-62 | crossing gRPC and back has the effect of the original batch on every store |
| Transport.SendBatchGrpc | internal/grpcserver/server.go:34-52 | the whole gRPC path applies the batch and notifies iff some entry is valid |
| Transport.SendBatchHttp | internal/agent/sender.go:156-188 | the whole HTTP path applies the batch iff JSON can carry it |
| Transport.BothTransports | internal/handler/handler.go:240-265 | equal stores stay equal over either transport; the callbacks differ iff the batch is non-empty with no valid entry |
| Sender.HttpSender.SendOnce | internal/agent/sender.go:121-128 | requests in order up to the first failure |
| Sender.HttpSender.SendMetrics | internal/agent/sender.go:120-129 | one request a metric under the retry contract, appended to what was sent before |
| Sender.HttpSender.SendBatch | internal/agent/sender.go:156-164 | nothing for an empty list, otherwise one request with the list under the retry contract |
| Sender.PassShape | internal/agent/sender.go:121-128 | a pass is a prefix of the list in order, only its last request can have failed, and it is complete unless it did |
| Sender.SendContract | internal/agent/sender.go:120-153 | at most four passes and nil iff the last pass got everything accepted, every earlier one ending in a retriable error |
| Sender.CounterGain | internal/agent/sender.go:120-188 | after any number of passes a counter has gained every part's deltas times the number of effective requests for that part |
| Sender.SuccessfulSend | internal/agent/sender.go:120-188 | on nil every part took effect at least once and at most once a pass, gauges are as if applied once, and so is a counter iff the earlier passes added a multiple of 2^64 |
| Sender.SendMetricsMeaning | internal/agent/sender.go:120-153 | for every list and failure schedule a counter gains each metric's delta times its effective requests; on nil these are one to four each, gauges are as if applied once, and a counter is iff the earlier passes' effects on it vanish |
| Sender.SecondPassIff | internal/agent/sender.go:70-76 | after one failing request the list is sent again iff it was a timeout or temporary network error; a bad status ends the send after one pass with exactly what it had done |
| Sender.RetriedSendAddsTwice | internal/agent/sender.go:70-76 | a concrete schedule, a timeout after the server had applied the request, in which nil is returned and the counter has gained two copies |
| Order.SortSlice | internal/handler/handler.go:412-417 | a permutation in strictly ascending order |
| Order.AscendingUnique | internal/handler/handler.go:412-417 | an ascending list is determined by its elements, whatever the input order |
| Order.LessIsLexicographic | internal/handler/handler.go:412-417 | strings compare at the first place they differ |
| Dashboard.KeySplits | internal/handler/handler.go:401-408 | splitting at the first slash inverts the type/name key for every name |
| Dashboard.GetAllMetrics | internal/repository/storage.go:110-122 | the map holds exactly the stored metrics under their keys |
| Dashboard.ListMetrics | internal/handler/handler.go:396-417 | the rows are exactly the stored metrics, one each, strictly sorted by type and name |
| Dashboard.RowOrder | internal/handler/handler.go:412-417 | every counter row comes before every gauge row and names ascend within a type |
| Dashboard.RowsAreUnique | internal/handler/handler.go:396-417 | the page does not depend on map order |

## Left out

- Configuration parsing, trusted-subnet checks, audit, logging, build info, key loading, migrations, the HTML template, the linter and the object pool: plumbing that would only add easy members.
- Text formatting of gauges: memory and database print them differently, so typed values are compared.
- Delays between retry attempts, timeouts and all wall-clock behaviour.
- A crash or failure in the middle of a file write: a file write is one step that happens or does not.
- Names that are not valid UTF-8 (changed by JSON) or contain a NUL character (refused by PostgreSQL).
- `GetAllMetrics` of the database.
- The service is modelled over the memory backend, whose updates cannot fail.
- Single-metric JSON and value endpoints of the HTTP handler, and the Content-Length bookkeeping of the middleware.
- Requests that fail before they are sent are covered as replies without effect.
- Reset generation for unsafe pointers, blank fields, type aliases, fields named Reset, Reset methods with parameters, and Reset dependencies on another package generated in the same walk; the nil-receiver guard of a generated method is represented by the nil checks at its call sites.
- Hand-written Reset methods are functions of their own object's state; what Reset clears (not that it ends) is stated for those where calling one twice has the effect of calling it once.
- An unmarked struct whose Reset is promoted from an embedded marked one is an object with an opaque Reset of its own, so the generated method it really runs on its embedded part is not modelled there.
- Wire.Respond: is stated for handlers that do not overwrite Content-Encoding and use valid status codes.
