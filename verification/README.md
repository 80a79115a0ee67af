# Verification of the ITB C binding and its loop harness

The repository is a C binding over a cipher library (libitb3, written in Go and reached
through a C ABI) together with a stress harness that runs many threads over shared pipeline
handles. This project models both in Dafny 4.11 and proves what they promise, over every
input, every run and every answer of the parts that are not modelled: the cipher library, the
allocator, the operating system's random bytes and the scheduler.

    dafny verify dfyconfig.toml

## The parts

**The harness as a concurrent protocol** (`HarnessModel`, `HarnessSafety`, `HarnessCounts`,
`HarnessRun`, `HarnessHistory`, `HarnessProgram`, `HarnessTheorems`, `HarnessLiveness`,
`HarnessFair`, `HarnessDeadline`). Up to ten workers and the main thread
share two pipeline handles, their retained session blobs, a reader-writer lock, two barriers, a
stop flag, the done mutex and a countdown to the finish stamp. `HarnessModel.Step` is one atomic
action of one thread; the thread, the status of every library call, fresh keys and handles,
random bytes, clock readings and the arrival of a signal are arbitrary. `HarnessHistory` and
`HarnessProgram` tie the state a run ends in to the steps it took: who was refused, what was
counted, who asked for the stop, which instants were stamped, and every step in its place. `StepIterate` follows
`iterate` (loop/worker.c:246-395), `StepGate` and `StepReturn` follow `worker_main` and
`worker_done` (loop/worker.c:403-450), `StepRekey` and `StepReopen` follow loop/ops.c:27-145, and
`StepMain` follows loop/main.c:944-999. A call whose handle is freed or rekeyed under it yields
arbitrary bytes, so the absence of a data mismatch is a theorem about the locking. Whether the
lock holds new readers back behind a waiting writer is a parameter; everything is proved for
both policies. `HarnessOps` is the imperative form of the construction, rotation and reopen on
the run state, call by call against the binding, tied to the steps of the protocol.

**Streams and accumulators** (`CHeap`, `Accumulators`, `StreamPump`). The doubling buffer on an
explicit heap where any allocation may fail, and both pumps against a session that releases any
amount of its available output at each read; the calls of a pump are part of what is proved.

**The opts query builder** (`Percent`, `Opts`), **buffer calls and handle lifecycle** (`Engine`,
`BufCall`, `Lifecycle`), **seeded plaintext** (`Bits`, `Payload`, `Distinct`, with worked draws of
the generator in `Hexadecimal`, `Exclusive` and `Worked`), **durations and sizes**
(`Numerals`, `Durations`, `Sizes`), **JSON strings** (`Summary`), **the per-thread diagnostic slot**
(`LastError`), and **the hash-name check** (`Registry`).

## What turned out false, and when it holds

- "No two encrypt calls see the same plaintext" (comment at loop/payload.c:18-19). From eight bytes
  on, the calls of any two workers see the same plaintext exactly when the draws between them make
  up for the distance of the worker ids, whatever the seed (`Distinct.CallsDifferExactly`). Up to
  ten workers are safe while fewer than 0x0E217C1E66C88CC3 draws separate their calls
  (`Distinct.SafeDistance`), and with eight bytes that distance is exact for every seed
  (`Distinct.EightBytes`): worker 1 at its call number 0x0E217C1E66C88CC3, counted from 0, repeats
  worker 0's first (`Distinct.FirstMeeting`). With at most seven bytes the comment fails at once:
  under seed 12742620535694862291 workers 0 and 2 see the same plaintext at their first calls
  (`Distinct.ShortCallsMeet`), and under seed 4050962692105029300 workers 0 and 1 see the same six
  bytes there (`Distinct.FirstTwoCallsMeet`). With seven bytes and only two workers it fails under
  seed 5 after some 38 million calls (`Distinct.TwoWorkersMeet`); shorter runs of that kind are the
  one case left open. In every other run within the safe distance the comment holds of every seed
  if and only if the payload has at least eight bytes (`Distinct.EncryptCallsExactly`).
- "Workers hold pairwise-distinct buffers" (comment at loop/payload.c:48-50): at every equal fill
  index and for every seed this holds if and only if the payload has at least eight bytes
  (`Distinct.WorkersExactly`), two workers with exactly seven bytes being left open. A shorter fill
  drops bytes of each draw: under seed 5696591281308509160 workers 0 and 2 start with the same seven
  bytes (`Distinct.ShortFillsMeet`), and under seed 15451677511428227785 workers 0 and 1 with the
  same six (`Distinct.FirstTwoMeet`).
- "A quoted run is one complete name" (comment at loop/main.c:360-362): other texts stand between two
  quotes of the array too, namely a comma and every run of consecutive names with the quotes and
  commas between them, with or without what separates it from its neighbours. With the names
  `one` and `two`, both `,` and `one","two` pass as registered (`Registry.FalseNames`). Whatever the
  name, up to the 125 characters that fit the buffer, the check is membership if and only if the
  name is not one of those texts (`Registry.RegisteredExactly`); a longer name passes exactly when
  its first 126 characters stand behind a quote of the array (`Registry.LongNames`).
- The overflow guard of `itb_opts_set` (src/itb_opts.c:91-94) compares only the key length with
  the wrapped sum. It is exact if and only if the encoded value is at least four bytes short
  of 2^64 (`Opts.SizeGuardExactly`); no object on a 64-bit target is that long.
- `parse_duration` hands each number to `strtod`, so it also accepts exponents and hexadecimal
  numbers (`1e3ms`, `0x1.8p4s`), where its comment (loop/size.c:83-86) speaks of decimal numbers;
  `parse_size` also accepts blanks between the digits and the suffix, which its comment
  (loop/size.c:20-24) does not say. The code is followed. `human_duration` prints everything
  below one second in milliseconds, where the Go format named in its comment would use smaller
  units.

## Assumptions about what is not modelled

- Cipher library: decrypting under the keying of the encrypt undoes it (`HarnessModel.Ideal`); a
  session never revises output it has produced (`StreamPump.Causal`), and its reads behave as
  include/itb3.h:262-280 says; an OK call reports no more bytes than its buffer holds; reported
  sizes are sizes of objects; a failed rotation leaves the keying unchanged, an undersized
  construction closes what it opened, and a save repeats the bytes of the latest construction or
  rotation (`Engine.Effect`); handles are never 0 and never reused while open. The keying of a
  handle is identified with its session blob.
- POSIX: mutex, reader-writer lock, barrier and condition variable behave as specified, a timed
  wait may return at any moment, and the clock is monotone.
- Scheduling: nothing, except in `HarnessFair.EveryFairRunEnds` and `HarnessDeadline.EveryTimedRunEnds`,
  whose fairness, and the passing of time in the second, are hypotheses of the lemma.
- 64-bit `size_t`, little-endian words, the C locale's character classes.
- JSON reader: bytes from 0x80 on stand for themselves. Whether a worker error is valid UTF-8, as
  section 8.1 of RFC 8259 wants it, is not examined (one cut at 511 bytes may end inside a character).

## Model

| member | source | states |
|---|---|---|
| HarnessTheorems.ReachableInv | loop/worker.c:246-450 | every state of every run satisfies the joint invariant of workers, locks, barriers, counters, stamps and handles |
| HarnessTheorems.NoDataMismatch | loop/worker.c:258-381 | at every comparison the decrypt ran on the handle and keying of its encrypt and returned the plaintext, so the data mismatch exit is unreachable in any interleaving |
| HarnessTheorems.HandlesStayKeyed | loop/ops.c:54-145 | with no mutation under way each active handle is open and keyed as its retained blob and no other handle is open, after partial failures too; an open call or stream session always runs on an open handle with the keying it started under |
| HarnessTheorems.LockDiscipline | loop/worker.c:258-395 | a writer is alone, each lock side is held exactly inside its section, and nobody queues for the write side or returns while holding the lock |
| HarnessTheorems.CleanFinish | loop/main.c:952-1001 | when main returns every worker passed both barriers and returned, no lock is held, every handle is closed and the finish was stamped exactly once; the start is the reading of main's own stamp step and the finish the reading of the step in which the last worker returned, which comes later |
| HarnessTheorems.StampIsFinal | loop/worker.c:401-412 | once the last worker has stamped the finish, no run writes either end of the elapsed time again |
| HarnessTheorems.ExactCounts | loop/worker.c:426-447 | a run of N iterations that ends without a stop has every worker at exactly N round trips and rekeys and blob cycles equal to workers times (N-1) divided by their interval |
| HarnessTheorems.ErrorsStop | loop/worker.c:37-49 | a worker that failed has always asked the run to stop and is on its way out |
| HarnessTheorems.OutcomesExactly | loop/worker.c:246-395 | a worker has an error if and only if one of its calls was answered with failure, and then exactly one was; its counter is the number of its comparisons that found the plaintext |
| HarnessTheorems.StopsExactly | loop/main.c:958-967 | the run has been asked to stop if and only if a worker has an error, or a poll of main with a worker still out saw a signal or, without a budget, the deadline |
| HarnessTheorems.CallsOnTheirSide | loop/worker.c:270-357 | a cipher call or session is open on the handle of its surface, message or stream by shape and iteration |
| HarnessHistory.StepAnswer | loop/worker.c:246-395 | wherever the library or the system answers, a refusal makes the worker fail, sets the stop and counts nothing, and no other step of a worker does any of it |
| HarnessHistory.MainStop | loop/main.c:960-967 | main's step sets the stop exactly in a poll with a worker out that finds a signal or the deadline |
| HarnessHistory.PlainExactly | loop/worker.c:250-257 | a rotating worker encrypts what its last refill delivered, any other the buffer it started with |
| HarnessHistory.BarriersSeparate | loop/main.c:926-956 | no thread goes on behind the warmup or the release barrier before every worker and main have come to it |
| HarnessHistory.WarmupFirst | loop/main.c:926-956 | when the start is stamped every worker has completed its warmup iteration or failed in it, and none begins another before the release |
| HarnessHistory.StampsExactly | loop/worker.c:401-412 | over any run the kept start is the reading of main's stamp step and the kept finish that of the step that brought the number of workers out to zero |
| HarnessProgram.StepsInPlace | loop/worker.c:246-450 | a worker without an error has taken, in every finished iteration, exactly the steps the configuration makes due there, each once and in order, and in the present one exactly those behind it |
| HarnessTheorems.AtMostOneMore | loop/worker.c:434-447 | after a stop request a worker completes at most the round trip it is in, over any continuation |
| HarnessSafety.OwnStep | loop/worker.c:246-450 | the step of a worker keeps its own lock, data and phase facts and gives every other worker its guarantee |
| HarnessSafety.Stable | loop/worker.c:238-245 | a step that honours the guarantee cannot break what another worker relies on while it holds the read lock |
| HarnessRun.InitialInv | loop/main.c:873-943 | the state built before the threads start satisfies the joint invariant |
| HarnessRun.StepKeeps | loop/main.c:944-999 | every enabled step of any thread keeps the joint invariant |
| HarnessRun.StampBeforeRelease | loop/main.c:952-956 | while main makes its initial store to the stamps no worker can have returned, so that store never overwrites the finish |
| HarnessCounts.StepTracks | loop/ops.c:147-171 | each step moves the barrier, active, rekey and cycle counters by exactly what the worker's own progress accounts for |
| HarnessCounts.MultiplesQuotient | loop/ops.c:157-171 | the maintenance steps due below iteration N are (N-1) divided by the interval |
| HarnessLiveness.WorkDrops | loop/worker.c:419-450 | every worker step uses up work and no main step adds any, a stop request included |
| HarnessLiveness.BoundedWork | loop/worker.c:434-437 | with an iteration budget N any run takes at most workers times (33 N - 1) worker steps |
| HarnessLiveness.BarriersFull | loop/main.c:926-956 | when every worker waits or has returned each barrier has received every worker, a failed warmup included, and lacks at most main |
| HarnessLiveness.NoDeadlock | loop/main.c:944-981 | every reachable state that is not final has a step that uses up work or brings main nearer its end, in every mode and lock policy |
| HarnessLiveness.EveryRunCanFinish | loop/main.c:958-1001 | no state of a run is a trap: in every mode, with or without a budget or a stop request, some continuation reaches main's return |
| HarnessFair.EveryFairRunEnds | loop/main.c:958-981 | with a budget, or if a stop is ever requested, there is no infinite run in which every worker that can step again and again does so |
| HarnessDeadline.ComesToStop | loop/main.c:960-967 | a run that is fair to main while the clock goes on is asked to stop, by an error, a signal or the deadline, if it has no budget |
| HarnessDeadline.EveryTimedRunEnds | loop/main.c:944-981 | in every mode there is no infinite run that is fair to every thread while the clock goes on |
| HarnessOps.RotationSteps | loop/ops.c:56-85 | the in-lock steps of a successful rotation have together the effect of the whole rotation and leave the handles clean |
| HarnessOps.ReopenSteps | loop/ops.c:111-136 | likewise for load, free and swap of a reopen |
| HarnessOps.PipeSlot.Build | loop/main.c:746-798 | construction plus one save yields a side keyed as its blob; a failure of either leaves no handle, struct or block |
| HarnessOps.PipeSlot.Rekey | loop/ops.c:56-70 | on success the library has answered a rotation of this handle, the retained blob is the one it answered and the old one is freed; a failure changes nothing |
| HarnessOps.PipeSlot.Reopen | loop/ops.c:111-123 | a reopen swaps in a fresh handle with the same keying and closes the old one, or keeps the running handle |
| HarnessOps.RunState.BuildPipes | loop/main.c:873-886 | exactly the sides the shape exercises are built, and the result is the clean state the protocol starts from |
| HarnessOps.RunState.RekeyPipes | loop/ops.c:54-94 | the new run state is the protocol's rotation of both sides, each to the blob of a rotation the library answered during the call, or of none or the first on failure; each side stays keyed as its blob; count and stop flag exact; it fails only after a failed library call or a refused allocation |
| HarnessOps.RunState.BlobCyclePipes | loop/ops.c:106-145 | the same for the reopen, with every keying as it was before |
| HarnessOps.RunState.ValidIsClean | loop/loop.h:149-169 | a valid run state stands for a clean handle state of the protocol |
| Accumulators.NextCapacity | src/itb_stream.c:133-139 | the doubling loop finds a doubling that holds the need and whose half does not, or fails only when the next one would exceed size_t |
| Accumulators.DoubledIsPower | loop/worker.c:64-70 | such capacities are exactly 1 MiB times a power of two |
| Accumulators.WrapDetected | src/itb_stream.c:129-131 | the unsigned comparison finds exactly the sums that wrap |
| Accumulators.Accumulator.Reserve | src/itb_stream.c:132-146 | growing keeps the contents and the capacity stays tight; each regrow is charged the old block and all charges together stay below twice the longest content; it fails only where an allocation was refused or the doubling exceeds size_t |
| Accumulators.Accumulator.Append | src/itb_stream.c:124-150 | the contents become the concatenation, or nothing changes because room was refused |
| Accumulators.AppendAll | loop/worker.c:60-81 | any sequence of appends leaves the concatenation, with fewer than twice its bytes moved by regrows, unless room was refused |
| Accumulators.Accumulator.Release | loop/worker.c:83-89 | the block is freed once and the accumulator is empty |
| StreamPump.Session.Read | include/itb3.h:272-280 | a read releases the next bytes of the output, any number; finish means all output was released |
| StreamPump.DrainReady | src/itb_stream.c:192-208 | the drain after a write ends and appends exactly what was released, in order, up to the first read that gets nothing |
| StreamPump.DrainRest | src/itb_stream.c:215-229 | the drain after the end terminates with the first read that reports the finish, and with the whole output of the session |
| StreamPump.Feed | src/itb_stream.c:181-209 | the slicing loop feeds exactly the input in order, in 1 MiB slices with a drain after each, and keeps the accumulator equal to what the session has released |
| StreamPump.Drive | loop/worker.c:128-179 | the session is fed exactly the input in order, in slices of 1 MiB of which only the last may be shorter, is read after each until nothing comes and after the end until it reports the finish; the accumulator ends as its whole output |
| StreamPump.BindingPump | src/itb_stream.c:155-249 | success is the whole conversation of Drive and hands over exactly the session's whole output over the source in one live block, failure nothing; session, scratch and partial output are always released; the status is that of the failing begin or session call, or an internal error where memory was refused |
| StreamPump.HarnessPump | loop/worker.c:107-186 | the same conversation and output, into the reused accumulator whatever it held before; a failure relays the status of the failing call or the refused memory |
| StreamPump.PumpsAgree | loop/worker.c:95-106 | both pumps over one input give the same bytes for any two schedules; a failure has the cause of the pump that failed |
| StreamPump.StreamRoundTrip | loop/worker.c:299-316 | encrypting through one pump and decrypting through the other returns the plaintext for every slicing; a failure has the cause of the pump that failed |
| Percent.DecodeEncode | src/itb_opts.c:36-53 | percent-decoding undoes the encoding for every byte string |
| Percent.EncodedBytes | src/itb_opts.c:17-34 | encoded text consists of letters, digits, hyphen, point, underscore, tilde, comma and percent signs, so it holds no separator, equals sign or NUL, and is between once and three times the length |
| Percent.EncodedLiterally | src/itb_opts.c:17-53 | letters, digits, hyphen, point, underscore, tilde and comma cross as themselves; every other byte becomes a percent sign and its two upper-case hexadecimal digits |
| Percent.QueryLayout | src/itb_opts.c:113-121 | each pair is key, equals sign, value, behind an ampersand unless it is the first |
| Percent.QueryRoundTrip | src/itb_opts.c:113-121 | splitting the query on ampersands and first equals signs and decoding gives back exactly the pairs set, in order, empty strings included |
| Opts.EncLen | src/itb_opts.c:27-34 | the measuring pass computes the length of the encoding |
| Opts.EncWrite | src/itb_opts.c:38-53 | the writing pass writes exactly the measured bytes, staying in bounds including the transient NUL of each escape |
| Opts.SizeExact | src/itb_opts.c:90-94 | the guarded 64-bit size computation is the true size, or a refusal exactly when it does not fit |
| Opts.SizeGuardExactly | src/itb_opts.c:91-94 | the guard is right for every key and length if and only if the encoded value is at least four bytes short of 2^64 |
| Opts.Builder.LengthIsStrlen | src/itb_opts.c:120-121 | the recorded length is the string length of the buffer |
| Opts.Builder.Grow | src/itb_opts.c:95-112 | where the capacity does not hold the need it becomes its least doubling that does, the text moves and the old copy is wiped before its free; else nothing moves; a failure changes nothing |
| Opts.Builder.Set | src/itb_opts.c:83-123 | one call appends exactly its pair, in the least doubled capacity, or leaves the query unchanged; it refuses exactly NULL arguments and sizes beyond size_t, and fails otherwise only where room was refused |
| Opts.Builder.Free | src/itb_opts.c:72-81 | the text is wiped before the buffer is freed |
| Opts.BuildAll | src/itb_opts.c:55-123 | unless room was refused, reading the finished query returns the list of pairs; nothing leaks |
| CHeap.Wipe | src/internal.h:58-67 | the first len bytes become zero and no other byte changes |
| Engine.Narrow | src/itb_status.c:11-22 | exactly the codes of the status enumeration pass, every other code becomes the internal error, and no failure reads as success |
| BufCall.Dispatch | src/itb_pipeline.c:41-83 | one call at the planned capacity, and a second at exactly the reported size if and only if the first asks for more; the status is that of the last call, or internal where an allocation was refused; OK hands over exactly the payload of the successful call and the zeroed spare bytes, in a block of just that size unless the smaller one was refused, failure nothing and no handle changed; every other block is freed once and was all zeros by then |
| BufCall.OutCapExact | src/itb_pipeline.c:18-27 | the capacity is five quarters of the payload plus 128 KiB exactly when that fits size_t, else the payload, and never less than the payload |
| BufCall.CipherCall | src/itb_pipeline.c:391-433 | the same two-call protocol with realloc, from the planned capacity of OutCap, hands over exactly the output, in a block of its size unless that was refused, or nothing, relays the last status and leaks no block |
| Lifecycle.PipelineInit | src/itb_pipeline.c:118-206 | success opens one handle carried by one struct and drops the blob wiped; failure anywhere leaves no handle, struct or block, with the status of the last call or an internal error where an allocation was refused |
| Lifecycle.WrapHandle | src/itb_pipeline.c:209-222 | an opened handle gets its struct, or is released again when there is none; the status tells which |
| Lifecycle.PipelineLoad | src/itb_pipeline.c:234-254 | the new handle carries the keying of the blob; failure changes nothing and relays the load's status or the refused struct |
| Lifecycle.PipelineFree | src/itb_pipeline.c:278-290 | exactly the struct's own handle is closed, once, and the struct released |
| Lifecycle.PipelineSave | src/itb_pipeline.c:302-314 | the blob handed over is the keying of the handle and nothing changes, over the same two-call protocol |
| Lifecycle.PipelineRekey | src/itb_pipeline.c:349-378 | the blob handed over, or dropped wiped when the caller has no place for it, is the keying the handle now has; a failure leaves every keying as it was and relays its status |
| Lifecycle.StreamBegin | src/itb_stream.c:20-44 | an open session gets one struct, on the given pipeline, or nothing is left behind and the status is that of the begin or of the refused struct |
| Lifecycle.StreamFree | src/itb_stream.c:98-111 | the session and its struct are released together, once |
| Lifecycle.AnyStreamCall | src/itb_stream.c:20-111 | any begin or release keeps sessions and stream structs, and pipelines and theirs, one to one |
| Lifecycle.AnyHistory | src/itb_pipeline.c:118-290 | after any sequence of constructions, loads, rotations, session begins and frees live handles and sessions correspond one to one with live structs |
| Lifecycle.WholeLifetime | src/itb_pipeline.c:278-290 | and freeing what is then left closes every handle and session |
| Payload.MixBijective | loop/payload.c:57-63 | the output step of splitmix64 is a bijection on 64-bit words, with its inverse |
| Payload.FullPeriod | loop/payload.c:57-63 | two draws from one state agree exactly when their indices agree modulo 2^64 |
| Payload.EveryWordDrawn | loop/payload.c:57-63 | every word is drawn within one period, at a computed index |
| Payload.Generator.Next | loop/payload.c:57-63 | a draw advances the state by one step of the sequence and returns its value |
| Payload.FillRandom | loop/payload.c:69-80 | success leaves exactly the bytes the system delivered, in order, however the reads were split; it fails exactly when a read fails or delivers nothing, and at once |
| Payload.FillPayload | loop/payload.c:87-115 | content of every mode, byte for byte; the seeded modes draw exactly one word per eight bytes and nothing else touches the generator; it fails exactly when a read of the system's bytes does |
| Payload.FillDetermines | loop/payload.c:96-100 | from eight bytes on, equal buffers mean equal generator states |
| Payload.FillsFollow | loop/worker.c:250-256 | the next fill starts where the previous one left the generator |
| Payload.RotatingRepeats | loop/worker.c:250-256 | two fills of a rotating worker agree exactly when a multiple of 2^64 draws lies between them |
| Payload.RotatingExactly | loop/payload.c:18-19 | the fills of one worker repeat no buffer within 2^64 draws if and only if the payload has at least eight bytes |
| Distinct.TwoFills | loop/payload.c:57-63 | two fills of any two generators at any two indices are equal exactly when states and draws differ by a multiple of 2^64 |
| Distinct.CallsDifferExactly | loop/worker.c:250-256 | from eight bytes on, all encrypt calls of a run see different plaintexts if and only if no two of them meet arithmetically, whatever the seed |
| Distinct.SafeDistance | loop/payload.c:48-55 | up to ten workers do not meet while fewer than 0x0E217C1E66C88CC3 draws separate their calls |
| Distinct.EightBytes | loop/payload.c:18-19 | with eight bytes and two to ten workers no two calls see the same plaintext if and only if no worker makes more than 0x0E217C1E66C88CC3 calls |
| Distinct.FirstMeeting | loop/payload.c:18-19 | at that distance worker 1 repeats the first call of worker 0, for every seed |
| Distinct.ShortCallsMeet | loop/payload.c:18-19 | a seed under which workers 0 and 2 see the same one to seven bytes at their first encrypt calls |
| Distinct.TwoWorkersMeet | loop/payload.c:18-19 | the same for workers 0 and 1 under seed 5, at two later calls |
| Distinct.FirstTwoCallsMeet | loop/payload.c:18-19 | a seed under which workers 0 and 1 see the same one to six bytes at their first encrypt calls |
| Distinct.EncryptCallsExactly | loop/payload.c:18-19 | within the safe distance no two encrypt calls see the same plaintext under any seed if and only if the payload has at least eight bytes, two workers with seven bytes only once the run reaches the calls of TwoWorkersMeet |
| Distinct.ShortFillsMeet | loop/payload.c:48-50 | a seed under which workers 0 and 2 start with the same buffer of one to seven bytes |
| Distinct.FirstTwoMeet | loop/payload.c:48-50 | a seed under which workers 0 and 1 start with the same buffer of one to six bytes |
| Distinct.WorkersExactly | loop/payload.c:48-55 | workers hold pairwise-distinct buffers at every equal fill index under every seed if and only if the payload has at least eight bytes, but for two workers with seven bytes |
| Numerals.NumeralStop | loop/size.c:103-106 | every number `strtod` takes behind a digit or point, decimal or hexadecimal, with or without point and exponent, is read whole and as written before any text that does not go on with it |
| Numerals.NumeralFits | loop/size.c:103-106 | what is read is such a number and stands at the start of the text |
| Numerals.PointMeans | loop/size.c:103-106 | the value of a number with a point is that of all its digits over ten or sixteen to the number behind the point |
| Numerals.ScaleMeans | loop/size.c:103-106 | an exponent multiplies by ten, or two in a hexadecimal number, to its digits, or divides where its sign is negative |
| Numerals.HexDenotes | loop/size.c:103-106 | hexadecimal digits in either case denote the number they spell |
| Durations.OneReading | loop/size.c:83-130 | no text can be taken for two different sequences of numbers with units |
| Durations.ParseDuration | loop/size.c:87-130 | the loop accepts exactly the non-empty sequences of numbers with units that denote at most 9.2e18 ns, and returns the value denoted |
| Durations.UnitMeans | loop/size.c:92-129 | a number followed by ns, us, ms, s, m or h is read as that number times 1, 10^3, 10^6, 10^9, 60 * 10^9 or 3600 * 10^9, cut to whole nanoseconds, exactly up to 9.2e18 |
| Durations.LetterBlocks | loop/size.c:113-114 | a unit counts exactly where no letter of either case follows it |
| Durations.FindUnit | loop/size.c:111-119 | the table search returns the first matching row, one that no letter follows, and none only where no row matches |
| Durations.TrimmedFraction | loop/size.c:196-201 | trimming trailing zeros loses nothing of the value and leaves none |
| Durations.AppendFraction | loop/size.c:191-204 | nothing is appended for zero, else a point and digits that denote exactly the remainder |
| Durations.HumanDuration | loop/size.c:212-250 | the text denotes exactly the magnitude of the input in the documented layout, fits 24 characters, and parses back to it exactly when it is at most 9.2e18 |
| Sizes.ParseExact | loop/size.c:20-81 | a text is accepted with a value if and only if it is blanks, digits, blanks, a suffix, blanks, with at most 63 inner characters, and the value is the digits times 1, 1024, 1024^2 or 1024^3 by the letters of the suffix in any case, and fits int64 |
| Sizes.ParseSize | loop/size.c:25-81 | the trimming, table and digit loops compute that reading |
| Sizes.KiloMeans | loop/size.c:50-53 | digits with K, KB or KiB, in any case, are read as 1024 times the digits, or refused where that does not fit |
| Sizes.MegaMeans | loop/size.c:50-53 | with M, MB or MiB as 1024 times 1024 times the digits |
| Sizes.GigaMeans | loop/size.c:50-53 | with G, GB or GiB as 1024 to the third times the digits |
| Sizes.BytesMean | loop/size.c:43-54 | digits alone or with B are read as they are |
| Sizes.SuffixSteps | loop/size.c:20-24 | KB, MB and GB are each 1024 times the step before |
| Sizes.LeadingCharacter | loop/size.c:27-33 | in front of a count exactly the six blanks are skipped, and anything but a digit refuses the text |
| Sizes.FirstIsLongest | loop/size.c:45-61 | the first suffix of the table that matches is the longest one that does |
| Sizes.TestBeforeMultiply | loop/size.c:75-77 | the division test refuses exactly the products beyond INT64_MAX |
| Summary.EscapedLiterally | loop/summary.c:145-175 | quote and backslash go behind a backslash, newline, return and tab become their letters, the other control characters four lower-case hexadecimal digits, and every other byte crosses as it is |
| Summary.LiteralDecodes | loop/summary.c:145-175 | what the escaper writes is a JSON string literal (section 7 of RFC 8259) that decodes to the original, whatever follows it |
| Summary.ConcatenatedSplits | loop/summary.c:145-175 | consecutive literals split back into exactly the strings written |
| Summary.JsonString | loop/summary.c:145-175 | the byte loop appends exactly that literal |
| Summary.WorkerErrors | loop/summary.c:260-273 | a JSON reader of the array gets back exactly the errors of the failed workers in order, and the verdict passes exactly when there is none |
| LastError.Conservation | src/itb_status.c:36-86 | over any moves of any threads only live blocks are freed, the live blocks are exactly those owned, each by one thread, at most one per thread and none by an exited one, and a returned pointer reads its answer |
| LastError.NothingLeaks | src/itb_status.c:50-53 | when every thread has exited no block is left |
| LastError.EveryoneLeaves | src/itb_status.c:50-53 | from any state without a fetch under way every thread can exit, and then no block is left |
| LastError.FetchEnds | src/itb_status.c:55-86 | a fetch returns after at most eight moves of its thread, whatever fails |
| LastError.InBounds | src/itb_status.c:63-79 | no text with its terminator ever exceeds its buffer, and a block is asked for only for a text the inline buffer does not hold |
| LastError.PointerStays | src/itb_status.c:36-39 | a returned pointer reads the same text until the thread's next fetch or exit, whatever the others do |
| LastError.AnswersWhole | src/itb_status.c:63-86 | a returned text is empty or one whole diagnostic, never a truncation or mixture |
| LastError.AnswersOfThisFetch | src/itb_status.c:55-86 | a fetch answers the empty text or a diagnostic the library held during that fetch, never one from before |
| LastError.RefusedIsEmpty | src/itb_status.c:63-86 | a fetch whose query fails, or that gets no memory for a long diagnostic, returns the empty text, whatever it returned before |
| LastError.FetchAnswers | src/itb_status.c:55-86 | an undisturbed fetch returns the whole diagnostic, one of less than 2048 bytes without an allocation |
| Registry.RegisteredExactly | loop/main.c:363-374 | every name of up to 125 characters, quotes included: it passes exactly when it is registered or is a comma or run of names between two quotes of the array, and the check is membership exactly for the names that are not such a text |
| Registry.LongNames | loop/main.c:368-371 | a name too long for the buffer passes exactly when its first 126 characters stand behind a quote of the array |
| Registry.RegisteredNames | loop/main.c:360-362 | for every name of the registry's alphabet that fits the buffer the check is membership |
| Registry.FalseNames | loop/main.c:363-374 | two names that pass without being registered |

## Left out

- Cipher, MAC, blob format and profile validation: inside the library; only the contracts above.
- Throughput, percentages, byte and rate rendering, pool statistics, logging, `/proc`, environment,
  runtime knobs, usage text, files: display and I/O.
- Flag parsing and profile selection: decisions without state that span no other operation.
- Signals: an arbitrary request in main's polling step. That step is the only one that may repeat
  without bringing the run on, as the poll does in the source.
- `pthread_create` failure and errors before the threads start: the process ends at once.
- The timing and byte counters of an iteration: only the iteration counter is modelled.
- HarnessTheorems.StampIsFinal: says nothing about wall-clock values beyond a monotone clock.
- Lifecycle.PipelineFree: the struct's handle is constant in the model; the source also zeroes it before freeing the struct.
- Lifecycle.AnyHistory: a client that frees a pipeline before its sessions is not excluded; that order is the client's duty, and HarnessTheorems.HandlesStayKeyed shows the harness keeps it.
- Opts.Builder.Set: encoded lengths are taken to fit size_t, the value at least four bytes short of 2^64 (see above), and the builder struct's own allocation is not a separate block.
- Distinct.WorkersExactly: of a run with exactly two workers and payloads of exactly seven bytes neither a seed with equal buffers at an equal fill index nor its absence is shown.
- Distinct.EncryptCallsExactly: the same runs are left open below the 37924539 calls of `Distinct.TwoWorkersMeet`.
- Distinct.EightBytes: payloads of more than eight bytes have `Distinct.SafeDistance`, but their first meeting is not worked out.
- Durations.ParseDuration: numbers are exact rationals instead of doubles, so a sum within rounding of a whole nanosecond or of the limit may be cut or refused differently.
- Durations.HumanDuration: INT64_MIN is excluded, where the source's negation overflows.
- Registry.RegisteredExactly: names that do not fit the 128-byte buffer have `Registry.LongNames` instead.
- LastError.Conservation: the one-time creation of the key is taken to have happened; its failure is not modelled.
- NULL-argument checks of one-line wrappers, benches, tests, build scripts and the eitb CLI: thin.
