# Proofs about the tail sampler, the disk cache and the data structures around them

A Dafny 4.11 model of the parts of the repository whose correctness rests on an argument
that no single function shows:

- the **tail sampler** (`aggregate`): a query compiler that decides sampling pipelines from a
  seven-field summary instead of walking every span, a 3600-slot timing wheel, and a spiller that
  moves big payloads out of memory;
- **diskcache**: a first-in-first-out queue in a directory, with a position file that survives restarts;
- the **wire codec** of `DataPacket` and `DataBatch`;
- the **window cache**, shared by goroutines that add and goroutines that harvest;
- the **key-value checker** of `point`, which rewrites fields through shared pointers while it compacts
  the slice it scans;
- two **mergeable aggregates**: standard deviation and distinct count.

`dafny verify dfyconfig.toml` checks everything.

## How it is built

Each part has a specification on values (`Sampler.dfy`, `DiskQueue.dfy`, `TsData.dfy`, `KvCheck.dfy`, …),
lemmas about it, and, where the source changes things in place, classes and methods with loops
that are proved to compute the specification (`GlobalSampler.dfy`, `DiskCache.dfy`, `TsPackets.dfy`,
`TsBatch.dfy`, `KvChecker.dfy`, `Stdev.dfy`, `CountDistinct.dfy`). The files, in reading order:

| part | files |
|---|---|
| filter language and summaries | `Filter`, `FilterProofs`, `SpanSummary`, `Hashing`, `Packets` |
| compiler and decisions | `Compiler`, `CompilableProofs`, `CompilerProofs`, `ExactnessProofs`, `DisjunctionProofs`, `Decisions`, `DecisionProofs`, `Backfill`, `Boundaries` |
| sampler | `Sampler`, `WheelProofs`, `ConservationProofs`, `SpillProofs`, `SpillRuns`, `SpillFiles`, `SpillMemory`, `GroupProofs`, `TenantProofs`, `EndToEnd`, `VerdictProofs`, `SamplerFailures`, `GlobalSampler` |
| disk cache | `Framing`, `DiskQueue`, `DiskProofs`, `DiskRuns`, `DiskRestart`, `DiskRestartRuns`, `DiskDelivery`, `DiskReplay`, `DiskFailures`, `DiskSize`, `DiskCache` |
| codec | `Varint`, `TsData`, `TsPackets`, `TsBatch`, `TsWire`, `TsUnknown` |
| window cache | `WindowCache`, `WindowProofs`, `WindowRuns`, `WindowSums`, `WindowExpiry`, `WindowFailures` |
| key-value checker | `KvCheck`, `KvProofs`, `KvValues`, `KvChecker` |
| aggregates | `Stdev`, `CountDistinct`, `CountEstimate` |

Conventions. A Go string is a sequence of bytes, except in the filter language, where it is a Dafny
string of ASCII characters. `float64` is `real`. 32-bit and 64-bit wrap-around is written out where the
source can reach it (group hashes, point counters, varints, record lengths). Panics of the filter
evaluator are a third verdict beside yes and no. Compression, xxhash, the regular-expression engine and the PBPoints
decoder are parameters (`Packets.Env`); what is assumed of them stands in the lemmas that need it
(`Packets.Lawful`, `CompilerProofs.HttpTextsMean4xx5xx`). Configuration, clocks, write failures and
rename failures are arguments of the operations, so a theorem over runs covers every choice of them.

## What turned out false of the code

Each of these has a lemma with the failing input, for stateful parts a run from the start, and the
general theorem carries the exact condition.

- Flags and maxima forget their span. A conjunction of two flags, or of a flag and a duration, is met by
  two different spans; a flag with a `parent_id` test and no duration loses the test
  (`ExactnessProofs.ScatteredTells`). The compiled predicate still never misses a match
  (`DecisionProofs.FastNeverMisses`). For any nesting of AND and OR it is exact if and only if every set of
  summary tests that it can pass by has one test that alone implies a conjunction of the condition
  (`DisjunctionProofs.ConditionExactly`); for a conjunction that means one flag alone, or no flag
  (`ExactnessProofs.ConjunctionExactly`).
- Spans that are not well-typed part the two as well: a `body_code` that is not a string, a float
  duration, a duration without `parent_id`; `Boundaries.SpanExactly` says exactly which.
- A span without `parent_id` satisfies `parent_id != "0"` in the evaluator
  (`Boundaries.MissingParentIsNotCounted`). The comment at aggregate/tail-sampling.go:580-583 says that
  missing fields never match; the model follows the evaluator.
- Spilling is not invisible for a spilled, uncompressed payload whose first point does not decode: with a
  trusted summary and a keeping pipeline it is kept, in memory it would be dropped
  (`SamplerFailures.DivergingRun`; exact conditions `SpillFiles.RunSameOutcomes` and `RunSameDecisions`).
- A merge that fails into a spilled group leaves the old file in the store for ever
  (`SamplerFailures.LeakingRun`, `SpillFiles.LeakedForEver`; exact condition `SpillFiles.RunFilesExact`). The
  payload is then back in memory, above the threshold (exact condition `SpillMemory.RunLight`).
- A group's point counter wraps at 32 bits (`SamplerFailures.WrappingRun`); exactly otherwise points are
  conserved (`ConservationProofs.StepConserves`).
- diskcache, dropping the file that is being read: the next switch passes over the following file
  (`DiskRuns.DropKeepsOrderExactly`), and with no following file the batch sealed next is lost
  (`DiskFailures.AcceptedRecordLost`; exact condition `DiskRuns.DroppingPutExactly`).
- diskcache, `.pos`: after an empty record or a buffer that is too small the remembered offset falls behind the
  reader, and the next offset written may be no record start, so that a restart loses a record
  (`DiskRestartRuns.RecordLost`; exact condition `DiskRestartRuns.StepGood`).
- diskcache, format: a record whose length is 0xdeadbeef, or 2^32 and more, does not come back
  (`Framing.FrameRoundTripExactly`).
- diskcache, sizes: a sealed empty batch is a file the counter ignores (`DiskSize.StepSize`). A Put is refused
  for the sealed bytes only, so Puts whose renames fail make the write file grow without end
  (`DiskSize.StuckIsUnbounded`). The bound holds in every state if and only if every Put that is stored has
  room for its data beside the unsealed batch (`DiskSize.RunBounded`); failing renames of Rotate and Get
  never break it (`DiskSize.RenamesGiveRoom`).
- Window cache: counts add up to the accepted calculators exactly when no window saw two kinds of
  calculator under one hash (`WindowFailures.UncountedRun`, `WindowRuns.CountsAreAccepted`).
- Key-value checker: checking is not idempotent, because a tag value is cut after its backslashes are trimmed
  (`KvValues.CutLeavesBackslash`; exact condition, and that a third check changes nothing, `KvValues.CheckedTwice`).
- Distinct count: the hash that takes the last free bit of the bitmap makes the count fall
  (`CountEstimate.LastBitDrops`; exact condition `CountEstimate.MoreHashes`).

## Model

| member | source | states |
|---|---|---|
| `Filter.CollectItems` | filter/eval.go:312-338 | The loop that collects the right-hand list yields exactly the operands of the literal members, in order, members of other kinds skipped. |
| `FilterProofs.InMeans` | filter/eval.go:399-424 | IN holds of a present value if and only if one of the literals of the list equals it, floats up to 10^-9 and regular expressions by matching, and NOT_IN is its negation; an absent key is IN when the first literal is null, and NOT_IN when null is not listed; a null value panics unless the list has only regular expressions. |
| `FilterProofs.MatchMeans` | filter/eval.go:384-397 | MATCH holds of a string that one of the expressions matches, NOT_MATCH of one that some expression does not match, and neither of anything else. |
| `FilterProofs.EqualityMeans` | filter/eval.go:146-224 | Equality is by value of one type, and inequality is not its negation: it needs a literal of the value's type or null; an absent key equals null alone, and a null value panics. |
| `FilterProofs.OrderMeans` | filter/eval.go:226-296 | The four comparisons hold by the order of integers, floats or strings, by first difference, of a value and a literal of one type, and never of an absent key. |
| `FilterProofs.OrderLaws` | filter/eval.go:250-296 | That order is strict, total and transitive on integers, floats and strings. |
| `FilterProofs.LiteralLeft` | filter/eval.go:355-372 | A literal on the left compares as a key that holds it, and null on the left equals null alone. |
| `FilterProofs.ConnectivesMean` | filter/eval.go:43-88 | AND, OR and parentheses from the left, panics included: the right side is not looked at when the left decides. |
| `FilterProofs.WhereMeans` | filter/ast.go:867-883 | A {} list holds if and only if all its members are binary expressions that hold, and panics exactly at a panic behind members that hold. |
| `FilterProofs.AnyMeans` | filter/ast.go:921-936 | Several {} lists hold if and only if one of them does and those before it are lists that do not. |
| `FilterProofs.MalformedFails` | filter/eval.go:43-102 | What is no condition, an operator that is none, and AND or OR with a side that is no condition do not hold and do not panic. |
| `FilterProofs.ListsWhereTheyBelong` | filter/eval.go:298-440 | Without a list MATCH and NOT_MATCH panic and IN and NOT_IN take it as empty; equality and order with a list panic. |
| `SpanSummary.SummarizeConcat` | aggregate/timewheel.go:233-252 | Summary homomorphism: the summary of concatenated span lists is the merge of the two summaries. |
| `SpanSummary.MergeLaws` | aggregate/timewheel.go:233-252 | Merging summaries is commutative, associative and idempotent, and the zero summary is its unit on non-negative summaries. |
| `SpanSummary.MergeAllIsSummaryOfAll` | aggregate/tail-sampling.go:601-716 | Merging the own summaries of any number of packets gives the summary of all their spans together. |
| `SpanSummary.SummaryCharacterised` | aggregate/tail-sampling.go:601-667 | Each flag is set exactly when some span has the fact, and each maximum exceeds a threshold exactly when some span of that kind does. |
| `SpanSummary.TrustedMeans` | aggregate/pipeline_predicates.go:20-28 | The summary of a list is trusted exactly when one of its spans has a flag or a positive duration, that is, when it says anything at all. |
| `SpanSummary.TruncatedAbove` | aggregate/tail-sampling.go:630-648 | A float duration is above a whole threshold exactly when it reaches the next whole number. |
| `SpanSummary.HttpErrorMeans` | aggregate/tail-sampling.go:719-729 | A status counts as an HTTP error exactly when it is the decimal form of a number from 400 to 599. |
| `Hashing.ScrambleInvertible` | aggregate/point.go:126-128 | Multiplying by the hash constant modulo 2^64 is undone by multiplying with its inverse. |
| `Hashing.SeedInjective` | aggregate/point.go:126-128 | HashCombine is injective in the seed. |
| `Hashing.HashInjective` | aggregate/point.go:126-128 | HashCombine is injective in the hash. |
| `Hashing.HashConstants` | aggregate/point.go:126-128 | For every seed: with a zero hash HashCombine is the seed shifted by 0x9e3779b9 times 0x517cc1b727220a95 modulo 2^64, and with a hash equal to the shifted seed it is zero. |
| `Hashing.GroupMapKeyInjective` | aggregate/timewheel.go:185-190 | For a fixed token, data type and group key, two groups have the same map key exactly when their group hashes are equal. |
| `Hashing.GroupMapKeyTokens` | aggregate/timewheel.go:185-190 | For a fixed group hash, data type and group key, two tokens have the same map key exactly when their sums are equal. |
| `Hashing.GroupMapKeyDataTypes` | aggregate/timewheel.go:185-190 | The same for two data types. |
| `Hashing.GroupMapKeyDimensions` | aggregate/timewheel.go:185-190 | The same for two group keys. |
| `Packets.CompressThenDecompress` | aggregate/zstd.go:43-78 | Decompressing what CompressPointsPayload produced, with the compression it chose, gives the payload back. |
| `Packets.CompressIsShorter` | aggregate/zstd.go:43-58 | What is kept is no longer than the payload and no longer than its compressed form, and is one of the two. |
| `Compiler.ScanBizErrorList` | aggregate/pipeline_predicates.go:311-333 | The scan accepts exactly the lists that hold "0", "200" and null in some order. |
| `Compiler.CompileConditionLoop` | aggregate/pipeline_predicates.go:83-105 | The accumulating loop computes the recursive conjunction compiler, whose meaning is ConditionSound and ConditionExact. |
| `Compiler.CompilePipelineLoop` | aggregate/pipeline_predicates.go:45-80 | The loop over the conditions of a pipeline computes CompilePipeline: all conditions compile or none is used. |
| `Compiler.CompileAllLoop` | aggregate/tail-sampling.go:152-165 | The loop compiles every pipeline, or gives up as a whole at the first that does not compile. |
| `CompilableProofs.NodeCompiles` | aggregate/pipeline_predicates.go:108-178 | A tree compiles if and only if its tests are known ones, no AND joins a root test with a non-root test, and no OR has a side of parent tests alone. |
| `CompilableProofs.ConditionCompiles` | aggregate/pipeline_predicates.go:83-205 | A condition list compiles if and only if its members do, no root test meets a non-root test among them, and they are not parent tests alone. |
| `CompilableProofs.HttpTextsCompile` | aggregate/pipeline_predicates.go:286-308 | Exactly six texts of the regular expression for HTTP errors compile. |
| `CompilerProofs.BizErrorAtom` | filter/eval.go:411-439 | On a span whose body_code is a string or absent, the NOT_IN list evaluates to the summary's business-error fact. |
| `CompilerProofs.HttpErrorAtom` | aggregate/pipeline_predicates.go:286-308 | The accepted regular expressions evaluate to the summary's 4xx/5xx fact, on every span. |
| `CompilerProofs.AtomMeaning` | aggregate/pipeline_predicates.go:208-257 | An atom that compiles evaluates, without panic, to the span fact its compiled form stands for. |
| `CompilerProofs.NodeSound` | aggregate/pipeline_predicates.go:108-178 | An AND/OR/parenthesis tree that compiles never panics, and wherever it holds of a span its compiled conjunction holds. |
| `CompilerProofs.ConditionSound` | aggregate/pipeline_predicates.go:83-205 | If a condition matches some span, its predicate holds of the summary of the whole list. |
| `CompilerProofs.FinishExact` | aggregate/pipeline_predicates.go:180-205 | A conjunction of parent and duration tests holds of the summary exactly when one span passes them all. |
| `CompilerProofs.PartExact` | aggregate/pipeline_predicates.go:108-205 | On one flag, or a parent test with a duration test, or an OR of such parts, the compiled predicate holds of the summary exactly when some span matches. |
| `CompilerProofs.ConditionExact` | aggregate/pipeline_predicates.go:83-205 | The same for a whole condition list. |
| `ExactnessProofs.ConjunctionMeaning` | aggregate/pipeline_predicates.go:108-178 | A conjunction of atoms that compiles evaluates, on one span, to all its flags, its parent test and its duration test on that span. |
| `ExactnessProofs.OneTestDecides` | aggregate/pipeline_predicates.go:180-205 | One flag alone, or no flag and a duration, is decided by the summary on every list of well-typed spans. |
| `ExactnessProofs.ScatteredTells` | aggregate/pipeline_predicates.go:180-205 | For every other conjunction, five concrete well-typed spans pass the summary though none of them matches. |
| `ExactnessProofs.ConjunctionExactly` | aggregate/pipeline_predicates.go:83-205 | A conjunction that compiles is decided by the summary on all well-typed span lists if and only if it is one flag alone or has no flag. |
| `DisjunctionProofs.ConjunctionsMean` | aggregate/pipeline_predicates.go:108-178 | A condition of any AND/OR nesting that compiles evaluates, on one span, to one of the conjunctions of its disjunctive form passing. |
| `DisjunctionProofs.TestSetsMean` | aggregate/pipeline_predicates.go:108-205 | The compiled predicate holds of a summary exactly when all tests of one of its test sets do. |
| `DisjunctionProofs.ImpliedDecides` | aggregate/pipeline_predicates.go:83-205 | If every test set has one test that alone implies a conjunction of the condition, summary and walk agree on every list of well-typed spans. |
| `DisjunctionProofs.BareSpansTell` | aggregate/pipeline_predicates.go:83-205 | If a test set has no such test, one span for each of its tests gives a list of well-typed spans on which they disagree. |
| `DisjunctionProofs.ConditionExactly` | aggregate/pipeline_predicates.go:83-205 | A condition of any AND/OR nesting that compiles is decided by the summary on all well-typed span lists if and only if every test set has a test that alone implies one of its conjunctions. |
| `DisjunctionProofs.ExactIsDecided` | aggregate/pipeline_predicates.go:83-205 | One flag, a parent test with a duration test, and every OR of such parts are among the conditions decided. |
| `Decisions.SampledShare` | aggregate/tail-sampling.go:207-223 | A rate decides by the residue of the group hash alone and keeps exactly its share, rounded down, of the 10000 residues. |
| `Decisions.NormalizeLoop` | aggregate/tail-sampling.go:446-461 | The filtering loop keeps exactly the pipelines that are not probabilistic with a non-positive rate, in order. |
| `Decisions.DecideLoop` | aggregate/timewheel.go:539-555 | The loop decides by the first pipeline whose predicate holds of the summary, or not at all when one does not compile. |
| `Decisions.MarkLoop` | aggregate/tail-sampling.go:81-147 | One point of the walk marks the pipelines it matches and leaves the others alone, or panics as the evaluator does. |
| `Decisions.WalkLoop` | aggregate/tail-sampling.go:81-147 | The walk with its in-place match array computes WalkDecision, whose meaning is WalkDecisionMeaning. |
| `Decisions.WalkIsScans` | aggregate/tail-sampling.go:81-147 | The joint walk over all pipelines is every pipeline's own scan of the points. |
| `Decisions.WalkDecisionMeaning` | aggregate/tail-sampling.go:81-147 | The walk decides by the first pipeline that some decodable point matches; it fails only on a panic, and a broken frame behind fully decoded points decides nothing. |
| `Decisions.NormalizeKeepsWalkDecision` | aggregate/tail-sampling.go:446-461 | Normalising the pipeline list does not change what a walk that does not panic decides. |
| `DecisionProofs.PipelineSound` | aggregate/pipeline_predicates.go:45-80 | If the walk would match a pipeline, its compiled predicate holds of the summary. |
| `DecisionProofs.PipelineExact` | aggregate/pipeline_predicates.go:45-80 | For conditions that the summary decides, well-typed spans and a positive rate, predicate and walk agree on one pipeline. |
| `DecisionProofs.FastEqualsWalk` | aggregate/tail-sampling.go:81-147 | Compiler exactness: for all conditions that the summary decides, the fast decision equals the slow walk, including which pipeline wins and whether it keeps or drops. |
| `DecisionProofs.EvaluateEqualsWalk` | aggregate/tail-sampling.go:81-165 | evaluatePipelines as a whole, fast path or not, decides as the walk does, for the same conditions. |
| `DecisionProofs.FastNeverMisses` | aggregate/timewheel.go:539-555 | Over-approximation for arbitrary nesting: whenever the walk finds a match, deciding from the summary finds one too. |
| `VerdictProofs.MatchMeans` | aggregate/tail-sampling.go:185-204 | A pipeline with conditions matches a span that meets one of them, one without matches every span if it is probabilistic, and one with a rate that is not positive matches nothing. |
| `VerdictProofs.BrokenPayload` | aggregate/tail-sampling.go:101-147 | The walk of a payload with a point that does not decode decides by the points in front of it. |
| `VerdictProofs.NothingToDecide` | aggregate/tail-sampling.go:81-111 | Nothing is decided without a payload, or with one that does not decompress and no summary to go by. |
| `VerdictProofs.DroppersNeverKeep` | aggregate/tail-sampling.go:207-238 | Where all pipelines are conditions that drop, no outcome keeps anything, in any state, for any packet and summary, spilled or not. |
| `Backfill.ComputeSpanPredicates` | aggregate/tail-sampling.go:676-716 | A packet without summary gets the summary of its whole payload, or, exactly when the payload does not decode, is left unchanged. |
| `Boundaries.MissingParentIsNotCounted` | aggregate/tail-sampling.go:650-666 | A span without parent_id and with a duration above 1 passes "not the root" in the walk and is in neither summary maximum. |
| `Boundaries.NonStringBodyCode` | aggregate/tail-sampling.go:618-622 | A body_code of any kind that is not a string satisfies NOT_IN in the walk and is no error for the summary. |
| `Boundaries.FloatDuration` | filter/eval.go:156-161 | A float duration that truncates above 1 enters the summary and never compares with an integer literal in the walk. |
| `Boundaries.SpanExactly` | aggregate/tail-sampling.go:601-667 | A span without null is decided by the summary, for every exact condition that compiles, if and only if its body_code is absent or a string, no float duration truncates above 1 and no integer duration above 1 lacks a parent_id. |
| `Boundaries.SpilledGarbageIsKept` | aggregate/timewheel.go:438-508 | Any spilled payload above the threshold whose first point does not decode is kept from its summary; in memory it is dropped. |
| `Sampler.Ttl` | aggregate/timewheel.go:274-309 | A packet is refused exactly without a positive configured time to live, and otherwise gets the configured one, cut at 3599 seconds. |
| `Sampler.FindDimensionLoop` | aggregate/timewheel.go:511-535 | The loop finds the pipelines of the first group dimension with the key, or none. |
| `WheelProofs.IngestKeepsConsistent` | aggregate/timewheel.go:320-400 | Ingest keeps groups and list elements in one-to-one correspondence, each element in the slot its group records. |
| `WheelProofs.AdvanceKeepsConsistent` | aggregate/timewheel.go:404-436 | A tick keeps that correspondence and takes out exactly the groups of the next slot. |
| `WheelProofs.RunKeepsConsistent` | aggregate/timewheel.go:254-436 | Wheel consistency in every state a new sampler can reach. |
| `WheelProofs.IngestStartsTimer` | aggregate/timewheel.go:372-399 | An accepted ingest, of a new group or an old one, sets its timer to the clamped time to live. |
| `WheelProofs.StepCountsDown` | aggregate/timewheel.go:404-436 | A tick lowers every timer by one and returns the groups whose timer was one; other operations leave other timers alone. |
| `WheelProofs.RunCountsDown` | aggregate/timewheel.go:404-436 | Over a run without re-ingest a timer is down by the number of ticks. |
| `WheelProofs.ReturnedByExactlyTheLastTick` | aggregate/timewheel.go:305-436 | Wheel timing: a group ingested with time to live t is frozen by its shard at exactly the t-th tick after that ingest and at no earlier one. |
| `ConservationProofs.OneTenantIsHomed` | aggregate/timewheel.go:185-190 | Packets of one token, data type and dimension with equal map keys are routed to the same shard. |
| `ConservationProofs.FrozenAllMeaning` | aggregate/timewheel.go:404-436 | Without collisions across shards the map AdvanceTime returns holds every frozen group of every shard. |
| `ConservationProofs.ReturnedInTheMap` | aggregate/timewheel.go:305-436 | Wheel timing in the map that AdvanceTime returns: without collisions across shards the group is not in it before the t-th tick, and is in it then. |
| `ConservationProofs.StepConserves` | aggregate/timewheel.go:320-436 | Points active after plus handed out are points active before plus brought in, if and only if the operation is not an accepted merge whose counter leaves int32; otherwise they differ by a multiple of 2^32. |
| `ConservationProofs.RunConserves` | aggregate/timewheel.go:254-436 | Over every run, points active plus points returned are the points accepted plus what wrapped around, a multiple of 2^32. |
| `ConservationProofs.RunConservesExactly` | aggregate/timewheel.go:254-436 | Over every run in which no merge overflows its counter, points active plus points returned are exactly the points accepted. |
| `GroupProofs.MergeJoins` | aggregate/timewheel.go:195-231 | Two packets merge if and only if both payloads decompress, and the merged payload decompresses to the one behind the other. |
| `GroupProofs.MergedJoins` | aggregate/timewheel.go:195-231 | The same for any list: its merge holds all the payloads in order. |
| `GroupProofs.MergedCollects` | aggregate/timewheel.go:335-364 | The merge of a list has an error when one has, the latest end, point time and version, the earliest set start, the first non-empty names, and the identity of the first packet. |
| `GroupProofs.RunCollects` | aggregate/timewheel.go:254-436 | Over every run a group is the merge of exactly the packets accepted for it since it was last returned, in their order. |
| `GroupProofs.SpilledRunCollects` | aggregate/timewheel.go:254-436 | The same with a spiller, once the spilled bytes are read back. |
| `TenantProofs.NeverMerged` | aggregate/timewheel.go:320-400 | In every state of every run, a packet that differs from a group in its token alone, with another sum, or in data type, dimension or group hash alone, leaves that group as it is. |
| `TenantProofs.CollectedAlike` | aggregate/timewheel.go:185-190 | The packets collected in one group all have its key and shard, and no two of them differ in one of these alone. |
| `TenantProofs.RoutedByResidue` | aggregate/timewheel.go:260-260 | Packets go to one shard exactly when their group hashes agree modulo the number of shards, and every shard has its share. |
| `TenantProofs.SectionDecides` | aggregate/timewheel.go:511-535 | Only the section of the packet's token and data type decides what Ingest does with it and which pipelines judge it: other sections and tokens may change. |
| `TenantProofs.DataTypeNames` | aggregate/timewheel.go:511-535 | The three data types by name. |
| `TenantProofs.TraceSection` | aggregate/timewheel.go:274-309 | A trace gets the time to live of the trace section, cut at 3599 seconds, or is refused without a positive one, and is judged by its pipelines. |
| `TenantProofs.DimensionSection` | aggregate/timewheel.go:274-309 | Logging and RUM packets get the time to live of their own section in the same way, and are judged by its first dimension with their key. |
| `TenantProofs.AcceptedExactly` | aggregate/timewheel.go:254-400 | A packet is accepted if and only if it has a time to live and its group is new or both payloads decompress. |
| `SpillProofs.SpillIsPlain` | aggregate/timewheel.go:118-161 | A spilled packet reads back as itself, also after the old file is released. |
| `SpillProofs.StepPlain` | aggregate/timewheel.go:254-508 | One step of the spilling sampler, read through its store, is the step of the sampler without spiller. |
| `SpillProofs.DecidePlain` | aggregate/timewheel.go:438-508 | A spilled group keeps the packet it would keep in memory, if and only if it is not an uncompressed payload without decodable first point that its summary keeps; and its decision is the one in memory, if and only if it is not such a payload that its summary matches. |
| `SpillRuns.StepFilesExact` | aggregate/timewheel.go:320-400 | A step keeps the stored files exactly those of the undecided groups, if and only if it is not a failing merge into a spilled group. |
| `SpillMemory.StepLight` | aggregate/timewheel.go:118-135 | A step leaves no group with more payload bytes in memory than the threshold, if and only if it is neither a failing merge into a spilled group nor a bigger payload that cannot be written. |
| `SpillMemory.RunLight` | aggregate/timewheel.go:118-161 | Over every run of any packets the same for all states. |
| `SpillRuns.RunPlain` | aggregate/timewheel.go:254-508 | Over every run the spilling sampler, read through its store, is in the state of the sampler without spiller. |
| `SpillRuns.ResultsPlain` | aggregate/timewheel.go:438-508 | The outcomes of any operation agree with and without spilling exactly when no decided group diverges. |
| `SpillRuns.DecisionsPlain` | aggregate/timewheel.go:438-508 | The decisions of any operation agree with and without spilling exactly when its groups hold no undecodable first point that a summary matches. |
| `SpillRuns.MergeHonest` | aggregate/timewheel.go:195-252 | Merging packets that carry their own summaries succeeds and gives a packet that carries the summary of the merged payload. |
| `SpillRuns.RunGenuine` | aggregate/timewheel.go:195-400 | Over every run of packets that carry their own summaries, every group carries the summary of its whole payload. |
| `SpillRuns.SpillTransparent` | aggregate/timewheel.go:438-508 | In every run of packets that carry their own summary, each operation returns the same decisions and the same kept packets as without spiller, and the files are those of the undecided groups. |
| `SpillFiles.RunSameOutcomes` | aggregate/timewheel.go:438-508 | Over every run of any packets, all operations return the same as without spiller if and only if no decided group is a spilled, uncompressed payload without decodable first point that its summary keeps. |
| `SpillFiles.RunFilesExact` | aggregate/timewheel.go:118-161 | Over every run of any packets whose keys do not collide across shards, the stored files are exactly those of the undecided groups if and only if no step was a failing merge into a spilled group. |
| `SpillFiles.LeakMakesOrphan` | aggregate/timewheel.go:320-337 | A failing merge into a spilled group leaves its file in the store with nobody referring to it. |
| `SpillFiles.LeakedForEver` | aggregate/timewheel.go:118-161 | Such a file stays in the store through every continuation of the run. |
| `SpillFiles.RunSameDecisions` | aggregate/timewheel.go:438-508 | Over every run of any packets all decisions, panics and drops told apart, are those without spiller if and only if no decided group is a spilled, uncompressed payload without decodable first point that its summary matches. |
| `SamplerFailures.LeakingRun` | aggregate/timewheel.go:320-337 | From a new sampler, a spilled packet and a packet of its group under an unknown compression leave a file that nobody refers to, and the payload back in memory above the threshold. |
| `SamplerFailures.WrappingRun` | aggregate/timewheel.go:335-364 | From a new sampler, two packets of one group whose points together are no int32: the points do not add up. |
| `SamplerFailures.DivergingRun` | aggregate/timewheel.go:438-508 | From a new sampler, a spilled packet whose first point does not decode, one tick and its outcomes: the packets kept with the spiller are not those kept without. |
| `EndToEnd.MergedSound` | aggregate/timewheel.go:195-252 | The merge of packets that carry well-typed spans and their summary carries all their spans and the summary of them all. |
| `EndToEnd.OutcomeFromSpans` | aggregate/timewheel.go:254-508 | End to end, spilling or not: the decision on a group is that of the first pipeline that matches one of the spans of the packets accepted for it, and a kept group is the merge of exactly those packets; the pipelines compile to conditions that the summary decides, or some do not compile and no scan of those spans panics. |
| `VerdictProofs.OutcomeByWinner` | aggregate/timewheel.go:254-508 | The same by kind of pipeline: a winning condition keeps the group unless its action is to drop, a winning rate keeps it exactly when the residue of its hash is below the share, and without a winner nothing is decided. |
| `VerdictProofs.KeepersKeepMatches` | aggregate/tail-sampling.go:207-238 | Where all pipelines are conditions that do not drop, a group is kept if and only if one of them matches one of its spans, and it is never dropped. |
| `GlobalSampler.ShardWheel.Hang` | aggregate/timewheel.go:372-399 | A new element is pushed on the slot ttl ahead and recorded in the group. |
| `GlobalSampler.ShardWheel.Tick` | aggregate/timewheel.go:404-436 | The pointer moves one slot on and the list there is drained into the result. |
| `GlobalSampler.GlobalSampler.SpillIfNeeded` | aggregate/timewheel.go:118-135 | The in-place form computes the spilled packet, key and store of the specification. |
| `GlobalSampler.GlobalSampler.Hydrate` | aggregate/timewheel.go:137-151 | The in-place form computes the hydrated group of the specification. |
| `GlobalSampler.GlobalSampler.Release` | aggregate/timewheel.go:153-165 | The in-place form removes the file of the specification. |
| `GlobalSampler.GlobalSampler.MergeInto` | aggregate/timewheel.go:320-384 | The branch of Ingest for an existing group computes IngestOld, failing hydration and failing merge included. |
| `GlobalSampler.GlobalSampler.Ingest` | aggregate/timewheel.go:254-400 | Ingest changes the routed shard and the store as the specification says, and no other shard. |
| `GlobalSampler.GlobalSampler.AdvanceTime` | aggregate/timewheel.go:404-436 | Every shard ticks, and the returned map is the drained groups of all of them. |
| `GlobalSampler.GlobalSampler.DecideGroup` | aggregate/timewheel.go:438-508 | The decision for one frozen group, reading its file only when needed. |
| `GlobalSampler.GlobalSampler.TailSamplingOutcomes` | aggregate/timewheel.go:438-508 | Whatever the iteration order, every group gets its outcome from the store before the call, and exactly the files of the batch are removed. |
| `Framing.SealedRoundTrip` | diskcache/put.go:61-83 | A sealed file is read back as exactly the records put into it. |
| `Framing.FrameRoundTripExactly` | diskcache/put.go:61-83 | A record survives the format if and only if its length is below 2^32 and is not the end marker. |
| `Framing.FormatBytes` | diskcache/put.go:61-83 | The bytes themselves: lengths lowest byte first, and the end marker 0xdeadbeef the same way. |
| `Framing.PosRoundTrip` | diskcache/pos.go:72-99 | A position is read back exactly when it names a file; a reset one reads as none. |
| `DiskProofs.RotateKeeps` | diskcache/rotate.go:38-144 | Rotation moves the whole write file to the end of the sealed records under a new highest number; a failed rename changes nothing. |
| `DiskProofs.PutKeeps` | diskcache/put.go:24-100 | Put appends its record at the end of the queue or leaves the queue alone, after dropping at most one whole file at its head. |
| `DiskProofs.SwitchKeeps` | diskcache/switch.go:67-112 | Moving on from a finished file, or opening the first one, loses no record. |
| `DiskProofs.LoopGoesOn` | diskcache/get.go:119-160 | At the end of a file the retry loop goes on with the next one, with fewer files left and the same records. |
| `DiskProofs.GetKeeps` | diskcache/get.go:70-220 | Get hands over the oldest record and removes it, or, when the callback fails with fallback on, leaves the queue unchanged; a buffer that is too small costs at most the record it does not fit; no data is reported only when no sealed record is left. |
| `DiskDelivery.GetExactly` | diskcache/get.go:70-220 | What a Get answers, for every buffer, callback and clock, in every state without torn files: with the write file idle it sees the whole queue, unsealed records included, and fails only on a batch it cannot rename; otherwise it sees the sealed records and leaves the write file alone. |
| `DiskDelivery.NoDataMeans` | diskcache/get.go:95-122 | An idle Get that can rename reports no data only when the whole queue is empty, in every state; one that is not idle leaves the write file alone. |
| `DiskDelivery.RunIntact` | diskcache/put.go:61-93 | Every run keeps files free of torn records and the reader between two records. |
| `DiskDelivery.ReopenIntact` | diskcache/open.go:86-189 | So does opening again. |
| `DiskDelivery.OpenFresh` | diskcache/open.go:86-189 | Where .pos is none, or names a file that is gone, opening forgets it and starts from the beginning of the lowest file. |
| `DiskDelivery.IdleGetDelivers` | diskcache/get.go:95-122 | After every run from an empty directory, an idle Get with room is given the oldest record, sealed or not. |
| `DiskDelivery.Drained` | diskcache/get.go:70-220 | As many accepting idle Gets as there are records deliver them all, in order, and leave nothing. |
| `DiskRuns.StepInOrder` | diskcache/get.go:70-220 | Every operation keeps the invariant, and the queue before plus what was added is what was handed over or lost plus the queue after. |
| `DiskRuns.RunInOrder` | diskcache/get.go:70-220 | Over every allowed run, drops and small buffers included, what left the queue followed by the queue is the first queue followed by the accepted records. |
| `DiskRuns.RunIsFifo` | diskcache/get.go:70-220 | First in, first out over every run without losses: delivered records followed by the queue are the first queue followed by the accepted records. |
| `DiskRuns.RefusesAllows` | diskcache/put.go:24-60 | A cache that refuses data when full allows every run whose records the format can hold. |
| `DiskRuns.InputsLossless` | diskcache/put.go:24-100 | A cache that refuses data when full, records the format can hold and buffers as long as the longest record lose nothing, so delivery is first in, first out; no condition on the states passed through. |
| `DiskRuns.Redelivered` | diskcache/get.go:183-206 | A record whose callback failed with fallback on is handed over by the next Get that has room for it and accepts it, whatever is put or rotated in between. |
| `DiskRuns.StaleSwitchExactly` | diskcache/rotate.go:146-184 | When a drop has left a file noted as current, the next switch finds all sealed records if and only if the file it takes off the list holds none and the file it removes is not a listed one with records. |
| `DiskRuns.DropKeepsOrderExactly` | diskcache/drop.go:18-56 | After dropping the lowest file the next switch finds all the other sealed records if and only if it was not being read, or no other file follows, or the following one holds no record. |
| `DiskRuns.DropWhileReadingSkipsAFile` | diskcache/drop.go:29-36 | The file passed over leaves the list, unread and still on disk. |
| `DiskRuns.SealedAfterDropIsLost` | diskcache/rotate.go:62-66 | When the dropped file was the only one, the batch sealed next is lost to the next switch: removed unread if it took over the number 0, and otherwise left on disk in no list. |
| `DiskRuns.DroppingPutExactly` | diskcache/put.go:41-93 | A Put that drops the file being read: the next switch finds all sealed records if and only if a file without records follows, or none follows and the batch is not sealed. |
| `DiskFailures.AcceptedRecordLost` | diskcache/put.go:41-93 | From an empty directory: a record is put and read, a second Put is accepted and drops the file still open, and the next Get reports no data with the accepted record gone from disk. |
| `DiskRestart.RestartReplays` | diskcache/open.go:86-189 | When .pos is none or a record start of the open file that leads to the reader, closing and opening again gives the old queue preceded by a suffix of the records already read from that file; none is skipped. |
| `DiskRestart.SwitchSynced` | diskcache/switch.go:67-112 | Opening a file records its start in .pos at once. |
| `DiskRestart.PassGood` | diskcache/get.go:194-216 | Passing a record keeps .pos good if and only if .pos is not written or the offset written is a record start that leads to the reader. |
| `DiskRestartRuns.GetGood` | diskcache/get.go:70-220 | The same for a whole Get, whatever its record and buffer, empty records and too small buffers included. |
| `DiskRestartRuns.StepGood` | diskcache/pos.go:101-177 | The same for every allowed operation. |
| `DiskRestartRuns.GetSynced` | diskcache/get.go:70-220 | The remembered offset stays the reader's if and only if the Get passes no empty record and gives up none for its length. |
| `DiskRestartRuns.RunSynced` | diskcache/pos.go:101-177 | Over every run of non-empty records and large enough buffers the remembered offset is the reader's and .pos is good. |
| `DiskRestartRuns.RestartByInputs` | diskcache/open.go:86-189 | So after every such run closing and opening again gives the queue preceded by records already read. |
| `DiskRestartRuns.RestartForCallers` | diskcache/open.go:86-189 | The same from an empty directory for a cache that refuses data when full, with nothing asked of the run but its records and buffers. |
| `DiskReplay.RunFew` | diskcache/pos.go:158-177 | Over every run of non-empty records and large enough buffers the dump counter counts the delivered records, and no more of them lie between .pos and the reader than its remainder. |
| `DiskReplay.FewReplayed` | diskcache/pos.go:158-177 | After such a run from an empty directory, opening again gives the queue preceded by fewer than dumpCount records, and by none when every position is dumped. |
| `DiskRestartRuns.RecordLost` | diskcache/get.go:167-210 | From an empty directory, an empty first record or one too long for its buffer makes the second Get write a .pos that is no record start; the third record is still queued, and after a restart it is gone. |
| `DiskRestartRuns.EmptyIsReady` | diskcache/open.go:86-189 | A new, empty directory meets the conditions of the run theorems. |
| `DiskSize.RotateExcess` | diskcache/rotate.go:110-118 | Sealing an empty batch adds a file of four bytes that the counter does not count. |
| `DiskSize.DropExcess` | diskcache/drop.go:38-44 | Dropping subtracts every file, also one that was never counted. |
| `DiskSize.RemoveExcess` | diskcache/rotate.go:162-168 | Removing a read file subtracts it only if it holds records. |
| `DiskSize.OpenExcess` | diskcache/open.go:163-169 | Opening counts every file. |
| `DiskSize.StepExcess` | diskcache/put.go:17-100 | What the counter has beyond the files with records changes by exactly the bytes of a file without records that the operation drops. |
| `DiskSize.StepSize` | diskcache/put.go:17-100 | Where every queued file holds records, the counter stays the bytes of the queued files if and only if no empty write file is sealed. |
| `DiskSize.PutAnswers` | diskcache/put.go:17-93 | While the counter is the bytes of the queued files, these decide: data is refused, or the lowest file dropped for it, exactly when they exceed the capacity together; too long data and a failed rotation are answered exactly where they happen. |
| `DiskSize.StepBounded` | diskcache/put.go:17-93 | With data refused when full, every operation, whether its rename succeeds or fails, keeps the bound if and only if it stores no data or size, unsealed batch and data together are below capacity plus batch size. |
| `DiskSize.RunBounded` | diskcache/put.go:17-93 | Over every run of a cache that refuses data when full, whatever renames fail, every state is within the bound if and only if every Put that is stored has that room; then the counted files and the write file take at most capacity plus batch size plus 7 bytes. |
| `DiskSize.BatchBelow` | diskcache/put.go:61-93 | Below a full batch any data has room, and a Put that can rename leaves the batch there; failing renames of Rotate and Get do not matter. |
| `DiskSize.RenamesGiveRoom` | diskcache/put.go:17-93 | So in a run whose Puts can rename, every Put that is stored has room. |
| `DiskSize.RunUse` | diskcache/put.go:17-93 | Where every stored Put has room and no empty batch is sealed, disk use is at most capacity plus batch size plus 7 bytes. |
| `DiskSize.StuckIsUnbounded` | diskcache/rotate.go:96-109 | Puts without room exist: every one-byte Put whose rename fails adds five bytes to the write file, without end. |
| `DiskSize.EmptyIsBounded` | diskcache/open.go:86-189 | A new, empty directory meets the conditions of the bound. |
| `DiskCache.DiskCache.constructor` | diskcache/open.go:86-189 | Opening computes the files, size and position of the specification, and a valid object when .pos names the lowest file or none. |
| `DiskCache.DiskCache.Close` | diskcache/open.go:194-244 | Closing releases the reader and leaves the directory unchanged. |
| `DiskCache.DiskCache.Rotate` | diskcache/rotate.go:38-144 | The in-place rotation is that of the specification. |
| `DiskCache.DiskCache.DropBatch` | diskcache/drop.go:18-56 | The in-place drop is that of the specification, the empty list and the missing file included. |
| `DiskCache.DiskCache.Put` | diskcache/put.go:24-100 | The in-place Put is that of the specification; a closed cache refuses. |
| `DiskCache.DiskCache.RemoveCurrentReadingFile` | diskcache/rotate.go:146-184 | The read file is removed from disk, list and counter. |
| `DiskCache.DiskCache.SwitchNextFile` | diskcache/switch.go:67-112 | The in-place switch is that of the specification. |
| `DiskCache.DiskCache.Pass` | diskcache/get.go:194-216 | Position, counter and .pos after a record are those of the specification. |
| `DiskCache.DiskCache.Get` | diskcache/get.go:70-220 | The in-place Get, wake-up rotation included, is that of the specification; a closed cache refuses. |
| `DiskCache.DiskCache.ReadRecord` | diskcache/get.go:145-220 | The part behind the header, buffer check, callback and position, computes one step of the read loop. |
| `DiskCache.DiskCache.ReadNext` | diskcache/get.go:119-160 | The retry loop computes the recursive read loop. |
| `Varints.SovIsLength` | aggregate/tsdata.pb.go:834-836 | The size computed from the bit length is the length of the varint. |
| `Varints.EncodeVarint` | aggregate/tsdata.pb.go:726-736 | The loop writes the varint so that it ends at the offset, returns where it starts and touches no other byte. |
| `Varints.ReadVarintOfVarint` | aggregate/tsdata.pb.go:899-912 | Decoding at the start of a varint gives its 64-bit value and its end, ten-byte varints included. |
| `Varints.DecodeVarint` | aggregate/tsdata.pb.go:899-912 | The decoding loop computes ReadVarint, overflow and truncation errors included. |
| `TsData.SizeIsLength` | aggregate/tsdata.pb.go:737-813 | Size of a packet is the length of its encoding. |
| `TsData.RoundTrip` | aggregate/tsdata.pb.go:894-1426 | Decoding an encoded message gives the message back. |
| `TsWire.VarintMeans` | aggregate/tsdata.pb.go:726-736 | A varint has its number in groups of seven bits, lowest first, a mark on all bytes but the last, and no byte too many. |
| `TsWire.PacketOnTheWire` | aggregate/tsdata.pb.go:520-680 | A packet on the wire is its fields, each behind the literal bytes of its own tag, in order, zero and empty ones left out. |
| `TsWire.BatchOnTheWire` | aggregate/tsdata.pb.go:697-724 | A batch on the wire is its collector id under number 1 and its packets under number 2, in order. |
| `TsUnknown.UnknownIsPassed` | aggregate/tsdata.pb.go:1405-1621 | A field of a newer schema, of any wire type and with any groups inside it, is passed over wherever it stands in whatever buffer, and the message stays as it was. |
| `TsPackets.PacketRoundTrip` | aggregate/tsdata.pb.go:520-1426 | Every packet, negative int32 and int64 fields included, is unmarshalled from its own bytes. |
| `TsPackets.MarshalToSizedBuffer` | aggregate/tsdata.pb.go:520-680 | Writing backwards fills exactly the last Size() bytes with the encoding and touches no other byte. |
| `TsPackets.SkipField` | aggregate/tsdata.pb.go:1544-1621 | The loop over an unknown field, nested groups included, computes Skip. |
| `TsPackets.Unmarshal` | aggregate/tsdata.pb.go:894-1426 | The loop computes Decode on every input, malformed ones with their error. |
| `TsBatch.BatchSizeIsLength` | aggregate/tsdata.pb.go:815-833 | Size of a batch is the length of its encoding. |
| `TsBatch.BatchRoundTrip` | aggregate/tsdata.pb.go:697-1543 | Every batch is unmarshalled from its own bytes. |
| `TsBatch.MarshalBatch` | aggregate/tsdata.pb.go:697-724 | Packets from the last to the first and then the id fill exactly the last Size() bytes, and no other byte changes. |
| `TsBatch.UnmarshalBatch` | aggregate/tsdata.pb.go:1428-1543 | The loop computes DecodeBatch on every input, malformed ones with their error. |
| `WindowProofs.StepKeeps` | aggregate/windows.go:36-174 | Every step of every goroutine keeps the invariant: mutexes, buckets, places of windows, and accepted calculators. |
| `WindowRuns.Run` | aggregate/windows.go:116-174 | Every state of every interleaving of adders and harvesters satisfies the invariant. |
| `WindowRuns.MappedIsOpen` | aggregate/windows.go:160-174 | A mapped bucket is open, unless a harvester stands between closing and unmapping that very bucket. |
| `WindowRuns.LookupFindsOpen` | aggregate/windows.go:116-136 | The bucket an adder looks up is open at that moment. |
| `WindowRuns.OneOpenBucket` | aggregate/windows.go:116-124 | There is at most one open bucket for each expiry. |
| `WindowRuns.RunFreezes` | aggregate/windows.go:62-94 | Once a bucket is closed it stays closed and empty, and its windows keep their contents through every later step, whatever adders still know the bucket. |
| `WindowRuns.ListedOnce` | aggregate/windows.go:62-94 | A window of a bucket is listed once and in no harvester's result. |
| `WindowRuns.HandedOutOnce` | aggregate/windows.go:160-174 | No window is handed out twice. |
| `WindowRuns.AcceptedOnce` | aggregate/windows.go:116-157 | The windows hold exactly the accepted calculators, each once and in a window of its own token and expiry. |
| `WindowRuns.LiveOrHarvested` | aggregate/windows.go:160-174 | With no harvester under way every window is in an open mapped bucket or was handed out. |
| `WindowRuns.WindowCounts` | aggregate/windows.go:36-46 | The counts of a window add up to the calculators added to it if and only if no two kinds share a hash. |
| `WindowRuns.CountsAreAccepted` | aggregate/windows.go:36-174 | Over every run the counts of live and harvested SUM and COUNT calculators add up to the number accepted, under the same exact condition. |
| `WindowSums.EntryMeans` | aggregate/algo_sum.go:18-27 | A window has an entry for exactly the hashes added, and each holds how many calculators of the kind that came first were added under its hash, the sum of their values and their latest time. |
| `WindowSums.EntriesHold` | aggregate/windows.go:36-46 | The same for every entry of every window, live or harvested, in every run. |
| `WindowSums.WindowSum` | aggregate/algo_sum.go:18-27 | The sums of a window are what its SUM calls bring, less those under a hash of another kind. |
| `WindowSums.SumsAreAccepted` | aggregate/windows.go:36-174 | Over every run the sums of live and harvested windows add up to the values of the accepted SUM calls, less those lost to another kind under their hash; without a clash none is lost. |
| `WindowExpiry.HarvestExact` | aggregate/windows.go:160-174 | Over every run a harvest hands out only windows that had expired when it read the clock, and every window that had is handed out then or was before. |
| `WindowExpiry.RejectedLate` | aggregate/windows.go:116-132 | A call is rejected only after some clock has passed its expiry. |
| `WindowExpiry.RetryExactly` | aggregate/windows.go:116-132 | A call that found its bucket closed is rejected exactly when the clock has passed its expiry, and otherwise begins again. |
| `WindowExpiry.CallsConserved` | aggregate/windows.go:116-132 | Over every run each call that began is accepted once, rejected once, or still under way. |
| `WindowFailures.UncountedRun` | aggregate/windows.go:36-46 | A schedule from the start: two calculators of different kinds under one hash, for one expiry and token, are both accepted and count as one. |
| `KvProofs.NoConflict` | point/check.go:188-206 | With keys apart, the scan for the field being checked finds its key once. |
| `KvProofs.SkipChangesNothing` | point/check.go:60-133 | With distinct input keys, skipping the conflict scans gives the same fields, contents and warnings, despite compaction and rewriting. |
| `KvProofs.FastPathIsLegacy` | point/check.go:60-133 | So the checker with its fast path computes what it would without it, on every input. |
| `KvProofs.FinalKeyClean` | point/check.go:168-257 | The key a field ends with has no newline, no trailing backslash, no dot when dots are off, and keeps its limit. |
| `KvProofs.PassedMeans` | point/check.go:210-420 | A field that passes holds its rewritten key and value, is neither empty-keyed nor disabled, and, where conflicts are scanned for, shares its key with nobody in the slice. |
| `KvProofs.CheckedKeys` | point/check.go:86-102 | For every input, shared keys and shared pointers included, the surviving fields have pairwise distinct keys, each non-empty, enabled, clean and within its limit. |
| `KvProofs.KeptInOrder` | point/check.go:86-102 | With distinct pointers, compaction keeps the order and every survivor is its own rewritten original. |
| `KvValues.FieldValueMeans` | point/check.go:319-408 | A field is refused exactly for an unsigned number above the int64 range, or a string, where those are off; otherwise it keeps its number, an infinity becomes finite, a string is cut at its limit; a warning is given exactly for a change, a refusal or null. |
| `KvValues.TagValueMeans` | point/check.go:258-281 | A tag's value has spaces for newlines, no backslashes at its end before it is cut at its limit, and checking it again changes it exactly when the cut left one. |
| `KvValues.CutLeavesBackslash` | point/check.go:258-281 | A tag value with a backslash in front of its cut, for which a second check changes what the first left. |
| `KvValues.FinalKeyMeans` | point/check.go:210-317 | Byte by byte: a key is cut at its own limit, loses the backslashes at its end, and has spaces for newlines and, where dots are off, underscores for dots. |
| `KvValues.CheckedValues` | point/check.go:86-102 | For every input, every surviving field has a value that can be stored. |
| `KvValues.LimitsKept` | point/check.go:86-102 | The four length limits, those of tags and of fields told apart, hold of every surviving field. |
| `KvValues.CheckedTwice` | point/check.go:60-102 | For every input, a second check keeps every field, and changes one if and only if the first cut a tag value behind a backslash; a third check never changes anything. |
| `KvValues.NoSilentChange` | point/check.go:60-102 | A check that adds no warning keeps every field in its place and as it was, but for unsigned numbers made signed. |
| `KvChecker.TrimSuffixAll` | point/check.go:410-420 | The loop removes every trailing backslash. |
| `KvChecker.AdjustKV` | point/check.go:166-178 | Trailing backslashes go and newlines become spaces. |
| `KvChecker.Get` | point/kvs.go:213-221 | Found exactly when some element of the slice has the key. |
| `KvChecker.Occurrences` | point/check.go:188-206 | The scan counts the elements that have the key. |
| `KvChecker.CanSkipKeyConflicts` | point/check.go:112-133 | True exactly from 16 elements on with pairwise distinct keys. |
| `KvChecker.Checker.RenameTo` | point/check.go:210-257 | A different key is taken over unless it is in use, through the shared pointer, with its warnings. |
| `KvChecker.Checker.Rewrite` | point/check.go:210-317 | The three rewritings in the order of the field's kind, up to the first clash. |
| `KvChecker.Checker.Admit` | point/check.go:188-206 | Empty, disabled and conflicting keys are refused with their warnings. |
| `KvChecker.Checker.CheckKV` | point/check.go:180-420 | One field is checked as the specification says, and no other field changes. |
| `KvChecker.Checker.CheckKVs` | point/check.go:82-102 | The in-place loop leaves the kept pointers first and nil behind them, with the heap and warnings of the specification. |
| `Stdev.SampleStdDev` | aggregate/algo_stdev.go:115-136 | The two loops compute the sample standard deviation, or an error below two values. |
| `Stdev.DescribesMeans` | aggregate/algo_stdev.go:98-113 | The running numbers are the mean of the samples and the sum of squared deviations from it. |
| `Stdev.MergeDescribes` | aggregate/algo_stdev.go:26-48 | The pairwise merge of two descriptions describes the samples of both. |
| `Stdev.AlgoStdev.AddValue` | aggregate/algo_stdev.go:98-104 | One more value is described too. |
| `Stdev.AlgoStdev.Add` | aggregate/algo_stdev.go:26-48 | After a merge, with another calculator or itself, the object describes the samples of both. |
| `Stdev.AlgoStdev.SampleStdDev` | aggregate/algo_stdev.go:106-113 | The running result is the two-pass standard deviation of every value added, in any tree of adds and merges. |
| `CountDistinct.StateUnique` | aggregate/algo_count_distinct.go:99-132 | The state is determined by the set of hashes: the set itself up to 4096, above it the bitmap with bit i set exactly when some hash is i modulo 2^18. |
| `CountDistinct.SketchUnique` | aggregate/algo_count_distinct.go:129-132 | A set of hashes has one bitmap, word for word. |
| `CountDistinct.OrSketches` | aggregate/algo_count_distinct.go:30-46 | Or-ing the words of two bitmaps gives the bitmap of the union. |
| `CountDistinct.ZeroBits` | aggregate/algo_count_distinct.go:134-151 | The loop counts exactly the bits that no hash falls on, full words skipped. |
| `CountDistinct.AlgoCountDistinct.Count` | aggregate/algo_count_distinct.go:134-159 | Exact up to the limit, above it the estimate from the number of free bits; so it depends on the set of hashes alone. |
| `CountEstimate.ExactUpTo` | aggregate/algo_count_distinct.go:134-159 | Up to 4096 hashes are counted exactly; above, the number of free bits of 2^18 decides. |
| `CountEstimate.EstimateRounds` | aggregate/algo_count_distinct.go:148-159 | The estimate is -m ln(z/m) for z free bits of m, rounded to the nearest. |
| `CountEstimate.MoreHashes` | aggregate/algo_count_distinct.go:134-159 | In the bitmap more hashes are never reported as fewer while a bit is free; when the last is taken they are, if and only if more than the bitmap has bits were reported before. |
| `CountEstimate.LastBitDrops` | aggregate/algo_count_distinct.go:148-159 | The hash that takes the last free bit makes the reported count fall. |
| `CountDistinct.AlgoCountDistinct.EnsureSketch` | aggregate/algo_count_distinct.go:117-127 | The exact hashes, in any order, become their bitmap. |
| `CountDistinct.AlgoCountDistinct.AddHash` | aggregate/algo_count_distinct.go:99-115 | The state becomes that of the set with the hash. |
| `CountDistinct.AlgoCountDistinct.Add` | aggregate/algo_count_distinct.go:30-46 | The state becomes that of the union, also when a calculator is merged into itself. |
| `CountDistinct.SameSeenSameState` | aggregate/algo_count_distinct.go:30-132 | Two calculators that saw the same hashes, through whatever adds and merges, are in the same state; so merging is commutative, associative and idempotent. |

## Left out

Simplifications inside what is modelled:

- Packets and groups are values in the sampler: that Ingest stores and changes the caller's own packet object, and object pools, are not captured.
- The sampler's `FirstSeen`, `ExpiredTime` and metrics are not part of the state; `UpdateConfig` is modelled by giving each operation its configuration; shard locks are not modelled, operations are whole.
- The spiller's keys are counting numbers, and the file system behind aggregate/spill.go is a map.
- SpillRuns.SpillTransparent: requires packets that carry their own summary and keys that do not collide across shards; SpillFiles.RunSameOutcomes and SpillFiles.RunFilesExact state exactly what holds for any packets. Reads of the spiller succeed.
- A dropped outcome's source packet is compared by its decision only: when spilled, its payload may already be out of memory.
- `float64` to `int64` conversion is modelled inside the int64 range; NaN, overflow and rounding of `float64` are not.
- Value types of points other than the six PBPoints kinds, and the lexer and parser of the filter language, are not modelled; the model starts from the syntax tree.
- diskcache: file names are numbers, directory listings are sorted, and I/O errors other than a failed rename or a missing file are not modelled; `StreamPut`, the `noPos` option, file locks and concurrent callers are not modelled.
- Decisions.NormalizeKeepsWalkDecision: leaves out walks in which the evaluator panics.
- TsPackets.MarshalToSizedBuffer: one loop over a field table stands for the generated code's twenty-one blocks, which differ only in field number and kind.
- The codec's round trips require that sizes fit an `int`, as the buffer's length does.
- The window cache is modelled on values as steps of goroutines, so its loops over the map are steps too; window objects are numbered instead of pooled, and calculators other than SUM and COUNT are not modelled.
- KvChecker.Checker.CheckKVs: trimming to the maximum numbers of tags and fields, required keys and the point pool are not modelled; a tag's value must be a string, as the code's type assertion demands; value objects are not shared between fields; warnings carry kind, quoted text and length, not the formatted message.
- Stdev.AlgoStdev.SampleStdDev: takes the square root as a parameter.
- CountDistinct.AlgoCountDistinct.Count: takes the logarithm as a parameter; hashing of values is not modelled.

Parts of the repository that are not modelled:

- aggregate: `PickTrace` and `pickByGroupKey`, derived and builtin metrics, quantiles, histograms, first/last/min/max/avg, `aggrbatch.pb.go` (the same codec with maps and floats).
- point: builders, encoders, line protocol and JSON; only the checker of key-values is modelled.
- dialtesting, otlp, lineproto, prom2metrics, pprofparser, network, system, tracer, traceroute, logger, metrics, oss and the command-line programs.
