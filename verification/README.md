# Verification of the edge gateway

A Dafny model of the parts of the gateway whose correctness does not show in any single function: the lock-free
frame path of the AI engine, the ping-pong shared memory, the byte-level protocols and hashes, and the state
machines that keep processes, models, requests and records in order. `dafny verify dfyconfig.toml` checks it.

## What is modelled

**Threads.** Concurrent code is a state machine under sequential consistency. One step is one access to shared
memory (or one lock, unlock, eventfd operation or socket write) by one thread; a run is any interleaving. Weak
compare-and-swap may fail spuriously. Where the source has an object, a class with the same fields and loops stands
beside the state machine, and lemmas named `Undisturbed...` say that the interleaved steps of a call that nobody disturbs
have exactly the effect that the method of the class promises. In `FramePool` and `SharedMemory` that holds from any point
of the call, and after any number of failed exchanges or attempts.

- `SpscQueue` is the ring under one producer and one consumer, for every capacity. A popped cell keeps its value, as in
  common/SpscQueue.h:38, and `Layout` says exactly what the cells hold.
- `FramePool` is the compare-and-swap free list, one getter and any number of releasers.
- `Pipeline`, with `PipelineCounting`, `PipelinePlaces` and `PipelineFlow` (what each kind of step keeps) and
  `PipelineSafety` (what follows), runs capture, preprocess, inference, postprocess and `Pipeline::stop` over three such
  rings; the inference thread starts with its model loaded, or sleeps without one. Use counts of shared pointers are
  counted over variables, ring cells and copies being made. Taking and returning a frame are single steps there, which is
  what `FramePool` proves them to be. `PipelineShutdown` proves that stop returns, `PipelineDeadlocks` exactly when it
  does not, `PipelineAfterStop` what it leaves behind, `PipelineRecovery` that the pool does not stay exhausted.
  `PipelineRuns` builds the runs that show the states in question to occur.
- `SharedMemory` has one publisher and any number of readers that copy word by word; counters wrap at 2^32.
- `WakeupBridge` has any number of driver threads, a mutex, an eventfd counter and the epoll loop.
- `DbWriter` puts the pushing thread and the database thread on the ring of `SpscQueue`.

**Bytes.** `LinearRegister` is the theory of a 16-bit feedback register over GF(2) for any representation that obeys
its laws; `ModbusCrc` proves the laws for `uint16_t` and the generator 0xA001, and `ModbusErrors` draws the conclusions
for frames. `ModbusFrame` has the RTU and TCP frames, `MbapStream` the re-framing of a TCP stream. `Sha256` is FIPS
180-4 over any word type, with the code's arrays and loops proved against it; `Sha256Words` supplies the words, checks
the constants against the roots they are defined from, and prints the digest. What the functions on words do to each
binary digit follows from `Bits`, which is about any kind of words, and `Sha256Functions`, which has them on 32 bits.

**Loops with invariants.** `RestartLimit` and `Watchdog` are the restart limiter on values and in place;
`ModelSwitch` the hot switch with rollback; `GreedyChoice` and `Nms` suppression over reals; `ReplayWindow` the window
of request ids.

Clock readings, pids, file contents, the answers of the RKNN runtime, and what a text scanner finds are parameters.

## Where the code and its own words differ

- Pipeline.cpp:31-33 and 70 say that draining the queues releases the frames. Popping does not clear a cell:
  `PipelineAfterStop.HeldAfterStopIff` says exactly which frames stay referenced, `AllReleasedIffNothingSent` that none
  does only if none was sent, and `FrameStaysOut` builds a run after which one does.
- InferenceStage.cpp:200-206 announces waiting for a hot switch or the end. The thread only waits for the end, and while
  it sleeps `Pipeline::stop` can wait for ever: `PipelineDeadlocks.StopReturnsIff` gives the exact condition,
  `StopCanHang` a run.
- ModbusTcpDriver.cpp:96-101 reconnects after a failed write without clearing the receive buffer, unlike every other
  reconnect. `MbapStream.FailedWriteIsHarmlessIffNothingKept` gives the exact condition under which that is harmless.
- ModbusTcpDriver.cpp:140 takes 256 for the largest length field; an answer of 127 registers, which fits its byte count
  but which no server may send, has 257 and ends the connection (`MbapStream.ReplyArrives`).
- ModbusRtu.cpp:19 ignores the function code of the request (`ModbusFrame.RequestArrives`), and an RTU answer without
  registers is five bytes and always refused (`ModbusFrame.ReplyDecodes`).
- gateway_watchdog/main.cpp:240 is never entered, and the cap of 16 s at line 249 is never reached by a defined shift
  (`Watchdog.Monitor.Reap`): exactly if the second clock reading is more than 30 s later than the first, no attempt
  counts any more and the shift is by -1 (`Watchdog.Monitor.BackoffCount`). In the first 30 s of the clock every attempt
  is refused, because slots never written count (`RestartLimit.RingDecides`).
- DbWriter.cpp:139-147 may flush a last batch larger than 50 (`DbWriter.DbThread.Finish`), and a push after the final
  drain is accepted and never written (`DbWriter.LatePushIsStranded` builds the run).
- InferenceStage.cpp:128 and 156 read the model file twice. A switch with a hash that succeeds has loaded what was asked
  for, whatever the hash function, exactly if the file was not changed in between (`ModelSwitch.HonestIffUntouched`);
  `WrongModelIsLoaded` is a switch that goes wrong.

## Model

| member | source | states |
|---|---|---|
| `SpscQueue.FifoOverRuns` | common/SpscQueue.h:18-41 | for every capacity and interleaving, what was popped is a prefix of what was pushed, at most capacity - 1 items lie between, and the two threads are never about to touch the same cell |
| `SpscQueue.StepRefinesFifo` | common/SpscQueue.h:18-41 | the queue changes exactly at the two index stores: one appends, the other removes the head |
| `SpscQueue.RefusesExactlyWhenFullOrEmpty` | common/SpscQueue.h:20-37 | push fails iff full, and pop iff empty, at the moment the other side's index is loaded |
| `SpscQueue.NoCellRace` | common/SpscQueue.h:26-38 | the two threads are never about to touch the same cell |
| `SpscQueue.SizeIsOccupancy` | common/SpscQueue.h:45-47 | the index difference modulo capacity is the number of queued items |
| `SpscQueue.StepRetains` | common/SpscQueue.h:26-39 | the cells depend on the writes alone: no pop clears one |
| `SpscQueue.LayoutHolds` | common/SpscQueue.h:26-38 | each of the last capacity items written is still in its cell |
| `SpscQueue.LayoutOnlyHolds` | common/SpscQueue.h:26-38 | every other cell is still blank: a cell holds one of the last capacity items or nothing |
| `SpscQueue.ContentsAreCells` | common/SpscQueue.h:18-41 | in every reachable state the cells from the read to the write index, around the end, are the items in between |
| `SpscQueue.UndisturbedPush` | common/SpscQueue.h:18-29 | the interleaved steps of a push left alone do what the method does |
| `SpscQueue.UndisturbedPop` | common/SpscQueue.h:31-41 | the same for pop |
| `SpscQueue.Queue.constructor` | common/SpscQueue.h:12-16 | a fresh queue is empty |
| `SpscQueue.Queue.Push` | common/SpscQueue.h:18-29 | succeeds iff there is room, appends, and overwrites one cell and no other |
| `SpscQueue.Queue.Pop` | common/SpscQueue.h:31-41 | nothing iff empty, otherwise the oldest item; the cells stay as they are |
| `SpscQueue.Queue.Size` | common/SpscQueue.h:45-47 | the number of queued items |
| `SpscQueue.PushDropOldest` | gateway_engine/pipeline/PipelineQueue.h:17-23 | undisturbed: a full queue loses its oldest item only, the new one is last |
| `FramePool.FreeListOverRuns` | gateway_engine/pipeline/FramePool.cpp:36-56 | under every interleaving the chain from the head is acyclic, ends in -1, is unique, holds exactly the free slots, and equals the stack the completed operations built; every other slot is held, if it was taken once more than dropped, or under release, if dropped once more than put back; every get is under way or answered; when the getter's exchange can succeed, its successor is right and its slot free |
| `FramePool.StepKeepsInv` | gateway_engine/pipeline/FramePool.cpp:36-56 | every single access keeps the chain and acts on it as push, pop or nothing; a slot becomes held only by a get that takes it off the top, comes under release only by the drop of its last reference, and leaves the hands of its releaser only onto the chain |
| `FramePool.RunBalance` | gateway_engine/pipeline/FramePool.cpp:36-56 | over any run from any state, per slot: taken less dropped is whether it is held now and was not, dropped less put back whether it is under release |
| `FramePool.CallBalance` | gateway_engine/pipeline/FramePool.cpp:36-47 | get_frame calls begun are those answered and the one under way: a failed exchange is tried again |
| `FramePool.StaysUnderRelease` | gateway_engine/pipeline/FramePool.cpp:49-56 | from the drop of its last reference a slot stays under release until its own releaser puts it on the chain, whatever the others do |
| `FramePool.GetterCasIsSound` | gateway_engine/pipeline/FramePool.cpp:38-42 | no ABA: when the getter's exchange meets the head it loaded, the successor it read is still right and the slot free |
| `FramePool.NullExactlyWhenExhausted` | gateway_engine/pipeline/FramePool.cpp:39-40 | null iff no slot is free at the load |
| `FramePool.NothingIsLost` | gateway_engine/pipeline/FramePool.cpp:36-56 | when all slots are free the list holds the whole pool |
| `FramePool.FailureMeansProgressElsewhere` | gateway_engine/pipeline/FramePool.cpp:41-55 | lock freedom: an exchange that fails for a real reason means that another operation completed |
| `FramePool.UndisturbedGet` | gateway_engine/pipeline/FramePool.cpp:38-42 | the interleaved steps of a get left alone take the top of the list, after any number of failed exchanges |
| `FramePool.GetCompletes` | gateway_engine/pipeline/FramePool.cpp:38-47 | the same from any point of the call, with whatever it has loaded by then |
| `FramePool.UndisturbedRelease` | gateway_engine/pipeline/FramePool.cpp:51-55 | from any point of the call and after any number of failed exchanges, those of a release put the slot on top and change one link |
| `FramePool.Pool.constructor` | gateway_engine/pipeline/FramePool.cpp:21-33 | the fresh list is 0, 1, ..., n - 1 |
| `FramePool.Pool.GetFrame` | gateway_engine/pipeline/FramePool.cpp:36-47 | undisturbed: takes the top of the list, or nothing if it is empty, however many exchanges fail spuriously |
| `FramePool.Pool.Release` | gateway_engine/pipeline/FramePool.cpp:49-56 | undisturbed: the slot becomes the top, one link changes |
| `PipelineSafety.StepKeepsInv` | gateway_engine/pipeline/Pipeline.cpp:43-78 | every step of every thread keeps use counts, program counters, queue contents and capture order in agreement |
| `PipelineSafety.StepIsOneAccess` | gateway_engine/pipeline/PipelineQueue.h:24-32 | a pipeline step is at most one access to one ring |
| `PipelineSafety.CapturedFrameIsExclusive` | gateway_engine/pipeline/stages/CaptureStage.cpp:127-132 | in every reachable state the frame capture would get is referenced by no variable, no ring cell (popped ones included) and no copy under way |
| `PipelineSafety.DeliveryInCaptureOrder` | gateway_engine/pipeline/stages/PreprocessStage.cpp:50-89 | capture sends every frame it captures, in order, none missing; frames reach the callback in capture order, without duplicates, all of them captured; preprocess drops none |
| `PipelineSafety.InferenceLosesNothing` | gateway_engine/pipeline/stages/InferenceStage.cpp:213-287 | over any run the frames inference has taken are those it has sent or is sending, those it chose to skip, and those stop popped instead |
| `PipelineSafety.IdlePinsAtMostSixteen` | common/SpscQueue.h:38 | in every reachable state where the pipeline has run dry the cells of queue 2 equal those of queue 1 and at most 16 slots are out |
| `PipelineSafety.PoolRecovers` | gateway_engine/pipeline/types.h:50 | in every reachable state where the pipeline has run dry and releases have ended, the next get finds a frame |
| `PipelineRecovery.PoolNeverStaysExhausted` | gateway_engine/pipeline/types.h:50 | the pool of 18 cannot stay exhausted in a first run: while the pipeline serves with a model, every schedule of 386 fair rounds makes a slot free at some point |
| `PipelineRecovery.SomebodyServes` | gateway_engine/pipeline/PipelineQueue.h:25-27 | while no slot is free and no release under way, some stage has work that it can do |
| `PipelineAfterStop.HeldAfterStopIff` | gateway_engine/pipeline/Pipeline.cpp:70-77 | when stop has returned a slot is still out iff it holds one of the last eight frames that went through a queue |
| `PipelineAfterStop.AllReleasedIffNothingSent` | gateway_engine/pipeline/Pipeline.cpp:70-77 | stop releases every frame iff none was ever sent |
| `PipelineAfterStop.FrameStaysOut` | gateway_engine/pipeline/Pipeline.cpp:70-77 | a run that captures one frame and stops, after which stop has returned and a slot is out |
| `PipelineShutdown.StepAdvances` | gateway_engine/pipeline/PipelineQueue.h:25-27 | during stop every step does work, or leaves whoever is able to go on able, no later than before |
| `PipelineShutdown.StepKeepsSafe` | gateway_engine/pipeline/stages/InferenceStage.cpp:200-206 | no step takes away the room that the queue before a sleeping inference thread has for the frames on their way |
| `PipelineShutdown.SomebodyIsAble` | gateway_engine/pipeline/Pipeline.cpp:63-68 | no deadlock: until stop has returned some thread can do work, if the model is loaded or that room is there |
| `PipelineShutdown.StopTerminates` | gateway_engine/pipeline/Pipeline.cpp:63-78 | from any reachable state, with the model loaded or that room there, 384 fair rounds end stop, with all stages exited and all queues empty |
| `PipelineShutdown.LeftIsBounded` | gateway_engine/pipeline/Pipeline.h:42-44 | the weighted work left when stop begins is at most 384 |
| `PipelineDeadlocks.StopReturnsIff` | gateway_engine/pipeline/stages/InferenceStage.cpp:200-206 | exactly when stop returns under every fair schedule: the model is loaded, or the queue before the sleeping inference thread has room for every frame that preprocess may still have to send |
| `PipelineDeadlocks.LoadedIsSafe` | gateway_engine/pipeline/stages/InferenceStage.cpp:200-208 | with a loaded model that condition holds in every reachable state |
| `PipelineDeadlocks.StopCanHang` | gateway_engine/pipeline/Pipeline.cpp:63-68 | a run without a model, eight frames and then stop, after which stop need not return |
| `PipelineDeadlocks.ReverseOrderDeadlocks` | gateway_engine/pipeline/Pipeline.cpp:14-19 | with postprocess gone and its queue full, inference stays in its push whatever the stages do |
| `PipelineDeadlocks.ReverseOrderHangs` | gateway_engine/pipeline/Pipeline.cpp:14-19 | such a state is reached: after a run from the start, telling postprocess to leave first strands inference for ever |
| `SharedMemory.StepKeepsInv` | gateway_core/ShmPublisher.cpp:49-62 | every access of publisher and readers keeps the seqlock invariant: who owns which block, what a copy is a prefix of, what every return so far was worth |
| `SharedMemory.ReadsAreWhole` | common/ShmReader.cpp:46-61 | a successful read is exactly one published block unless the block's counter made 2^32 steps during the attempt |
| `SharedMemory.ReadsAreFresh` | common/ShmReader.cpp:47-61 | it is no older than the last publication committed when the read began and no newer than the last one started |
| `SharedMemory.StepsBackByAtMostOne` | common/ShmReader.cpp:47-61 | of two successive reads, by the same or different readers, the later steps back by at most one publication |
| `SharedMemory.StepsBackByOne` | gateway_core/ShmPublisher.cpp:59-62 | stepping back by one does happen |
| `SharedMemory.GivesUpOnlyUnderBurst` | common/ShmReader.cpp:46-65 | read returns false only if five publications began after the last one it found committed; that every other call returns true or goes on is `UndisturbedRetries` and `EveryCallIsLogged` |
| `SharedMemory.TornReadAfterWrap` | common/ShmReader.cpp:58 | the bound is tight: at every multiple of 2^32 counter steps a read can return a block nobody published |
| `SharedMemory.UndisturbedPublish` | gateway_core/ShmPublisher.cpp:49-62 | a publish left alone has the effect promised by the object |
| `SharedMemory.UndisturbedRead` | common/ShmReader.cpp:41-66 | a read left alone returns exactly once: the indexed block if its counter is even, giving up otherwise; in every state of a run it is the publication committed last |
| `SharedMemory.UndisturbedRetries` | common/ShmReader.cpp:46-65 | the same from the beginning of each of the four attempts |
| `SharedMemory.ReadReturns` | common/ShmReader.cpp:46-65 | from the middle of an attempt, one that is going to fail included, a read left alone returns exactly once |
| `SharedMemory.EveryCallIsLogged` | common/ShmReader.cpp:41-66 | over any run a reader has logged one return for each call it has begun, but for the one it is in |
| `SharedMemory.Region.constructor` | gateway_core/ShmPublisher.cpp:29-34 | two zero blocks, both counters and the index zero |
| `SharedMemory.Region.Publish` | gateway_core/ShmPublisher.cpp:49-62 | the other block gets the data, its counter moves on by two modulo 2^32, the index flips, the old block is untouched |
| `SharedMemory.RegionReader.Read` | common/ShmReader.cpp:41-66 | undisturbed: the indexed block iff its counter is even; the last index changes only on success |
| `LinearRegister.TurnsAreBits` | common/ModbusRtu.cpp:66-72 | adding a byte and turning eight times is feeding its eight bits |
| `LinearRegister.TurnsLinear` | common/ModbusRtu.cpp:67-72 | turning is linear over GF(2) |
| `LinearRegister.TurnsFaithful` | common/ModbusRtu.cpp:67-72 | turning is injective: only zero turns into zero |
| `LinearRegister.BurstLeavesMark` | common/ModbusRtu.cpp:66-72 | a nonzero pattern within sixteen bits never leaves the register empty |
| `LinearRegister.OddErrorLeavesMark` | common/ModbusRtu.cpp:66-72 | nor does a pattern with an odd number of ones |
| `ModbusCrc.Lawful` | common/ModbusRtu.cpp:69-70 | uint16_t with 0xA001 satisfies all the laws |
| `ModbusCrc.Crc16` | common/ModbusRtu.cpp:63-75 | the nested loops compute the register over the whole message |
| `ModbusCrc.CheckValue` | common/ModbusRtu.cpp:63-75 | the CRC of the digits 1 to 9 is 0x4B37, the check value of CRC16-Modbus |
| `ModbusErrors.RegisterIsBits` | common/ModbusRtu.cpp:63-75 | the byte-wise register is the bit-wise one over the bits in transmission order |
| `ModbusErrors.CrcMatchesIffRegisterZero` | common/ModbusRtu.cpp:35-40 | the received CRC matches iff the register over the whole frame, CRC included, is zero, for any length |
| `ModbusErrors.UndetectedIffPatternClears` | common/ModbusRtu.cpp:35-40 | exactly which errors pass: those whose pattern clears an empty register, whatever the message |
| `ModbusErrors.BurstIsCaught` | common/ModbusRtu.cpp:35-40 | every error burst of up to sixteen bits is detected |
| `ModbusErrors.OddErrorIsCaught` | common/ModbusRtu.cpp:35-40 | every odd number of flipped bits is detected |
| `ModbusErrors.AdjacentBytesAreCaught` | common/ModbusRtu.cpp:35-40 | every change within two adjacent bytes of an accepted frame is detected |
| `ModbusFrame.AppendedCrcPasses` | common/ModbusRtu.cpp:24-28 | the CRC appended low byte first makes any frame pass |
| `ModbusFrame.EncodeRequest` | common/ModbusRtu.cpp:12-30 | the request frame of eight bytes, which a slave reads as a request for holding registers |
| `ModbusFrame.RequestArrives` | common/ModbusRtu.cpp:12-30 | a slave reads back slave, address and quantity always, and the caller's request iff it asked for function code 3 |
| `ModbusFrame.DecodeResponse` | common/ModbusRtu.cpp:33-59 | accepts iff length, CRC over the whole frame, exception bit and byte count allow it; states every field on every path |
| `ModbusFrame.ReplyDecodes` | common/ModbusRtu.cpp:33-59 | round trip: a slave's answer is accepted iff it has a register, and yields its registers |
| `ModbusFrame.CorruptedReplyIsRefused` | common/ModbusRtu.cpp:33-59 | no accepted answer becomes another accepted one by a change within two adjacent bytes |
| `ModbusFrame.DecodeTcpResponse` | common/ModbusRtu.cpp:99-121 | the same for TCP frames, without CRC |
| `ModbusFrame.TcpReplyDecodes` | common/ModbusRtu.cpp:99-121 | round trip: a server's answer is accepted and yields its registers, none included |
| `ModbusFrame.TcpExceptionIsRefused` | common/ModbusRtu.cpp:106-109 | a server's refusal is not accepted |
| `ModbusFrame.EncodeTcpRequest` | common/ModbusRtu.cpp:78-96 | the request frame of twelve bytes, which a server reads as transaction and request |
| `ModbusFrame.TcpRequestArrives` | common/ModbusRtu.cpp:78-96 | round trip: a server reads back transaction and request, with a length field that counts what follows it |
| `ModbusFrame.RegistersAreRaw` | gateway_access/ModbusTcpDriver.cpp:154-161 | registers written out again are the bytes they were read from |
| `MbapStream.Driver.OnRead` | gateway_access/ModbusTcpDriver.cpp:113-168 | one read: what is delivered, kept and rejected is the parse of kept plus new bytes; at most 261 bytes are kept |
| `MbapStream.Driver.Extract` | gateway_access/ModbusTcpDriver.cpp:136-168 | the extraction loop terminates and computes the parse |
| `MbapStream.Driver.OnSilence` | gateway_access/ModbusTcpDriver.cpp:123-133 | end of stream, error and timeout drop what was kept |
| `MbapStream.Driver.OnWriteFailure` | gateway_access/ModbusTcpDriver.cpp:96-101 | a failed write reconnects and keeps the old bytes |
| `MbapStream.ParseResumes` | gateway_access/ModbusTcpDriver.cpp:136-168 | parsing can stop after any byte and go on with what was kept |
| `MbapStream.ReceiveIsParse` | gateway_access/ModbusTcpDriver.cpp:113-168 | any sequence of reads amounts to the parse of the bytes joined, up to the first impossible length |
| `MbapStream.ChunkIndependence` | gateway_access/ModbusTcpDriver.cpp:113-168 | how the stream is cut into reads never matters |
| `MbapStream.GuardNeverFires` | gateway_access/ModbusTcpDriver.cpp:117-122 | with reads of at most 256 bytes the buffer never passes 517, so the 64 KiB guard never fires |
| `MbapStream.RestIsShort` | gateway_access/ModbusTcpDriver.cpp:136-146 | what is kept is a proper part of one frame, at most 261 bytes |
| `MbapStream.RestIsTight` | gateway_access/ModbusTcpDriver.cpp:136-146 | 261 is reached |
| `MbapStream.FramesRecovered` | gateway_access/ModbusTcpDriver.cpp:136-168 | well-formed frames sent back to back come out once each and in order |
| `MbapStream.FramesAndTail` | gateway_access/ModbusTcpDriver.cpp:136-168 | of whole frames and a tail the frames are handed on; the tail is kept, or ends the connection if its length field is impossible |
| `MbapStream.StreamIsFramesAndTail` | gateway_access/ModbusTcpDriver.cpp:136-168 | every stream is of that form |
| `MbapStream.ReplyArrives` | gateway_access/ModbusTcpDriver.cpp:138-165 | a server's answer is handed on as the bytes of its registers iff it carries at most 126 |
| `MbapStream.FailedWriteIsHarmlessIffNothingKept` | gateway_access/ModbusTcpDriver.cpp:96-101 | after a failed write every new stream is delivered as it is iff nothing was kept |
| `Sha256.Transform` | common/Sha256.cpp:25-47 | the in-place schedule and the rotating variables compute section 6.2.2 |
| `Sha256.WindowIsSchedule` | common/Sha256.cpp:26-34 | the schedule is what a moving window of sixteen words shows |
| `Sha256.CompressIsTrail` | common/Sha256.cpp:35-46 | 64 rounds and the final sums are the trail of the pairs that the rounds compute, of which the other variables are earlier members |
| `Sha256.Expand` | common/Sha256.cpp:26-34 | the two loops fill in the message schedule |
| `Sha256.WriteLength` | common/Sha256.cpp:69-72 | eight shifts and truncations write the length big-endian |
| `Sha256.Finish` | common/Sha256.cpp:63-87 | the one- or two-block tail hashes exactly the padded end of the message |
| `Sha256.HashBuffer` | common/Sha256.cpp:51-87 | full blocks and tail give the hash of the padded message, for every message |
| `Sha256.PaddingIsSmallest` | common/Sha256.cpp:74-87 | the number of zero bits is the smallest solution of section 5.1.1 |
| `Sha256.PaddingBits` | common/Sha256.cpp:63-87 | bit by bit: the message, a one, that many zeros, 64 bits of length |
| `Sha256.LengthIsExact` | common/Sha256.cpp:54-72 | below 2^61 bytes the length field is the length in bits |
| `Sha256.TailNext` | common/Sha256.cpp:57-61 | a full block does not change how the rest is padded |
| `Sha256Words.Sha256Buffer` | common/Sha256.cpp:51-94 | sha256_buffer is FIPS 180-4 SHA-256, printed; the functions on words that it rests on are fixed by the rows below |
| `Sha256Words.BigSigma0Digits` | common/Sha256.cpp:40 | binary digit i of the number is the exclusive or of the digits i + 2, i + 13 and i + 22 modulo 32 |
| `Sha256Words.BigSigma1Digits` | common/Sha256.cpp:37 | of the digits i + 6, i + 11 and i + 25 modulo 32 |
| `Sha256Words.SmallSigma0Digits` | common/Sha256.cpp:31 | of the digits i + 7 and i + 18 modulo 32, and i + 3 where there is one |
| `Sha256Words.SmallSigma1Digits` | common/Sha256.cpp:32 | of the digits i + 17 and i + 19 modulo 32, and i + 10 where there is one |
| `Sha256Words.ChDigits` | common/Sha256.cpp:38 | each digit of the first number selects one of the second or of the third |
| `Sha256Words.MajDigits` | common/Sha256.cpp:41 | each digit is the majority of the three |
| `Sha256Words.WordIsValue` | common/Sha256.cpp:27-29 | a word is the big-endian value of its four bytes |
| `Sha256Words.RoundConstants` | common/Sha256.cpp:11-20 | all 64 constants, in the order in which the rounds use them, are the first 32 bits of the fractional parts of the cube roots of the first 64 primes |
| `Sha256Words.InitialValue` | common/Sha256.cpp:52-53 | the initial value comes from the square roots of the first eight |
| `Sha256Words.WordsSum` | common/Sha256.cpp:31-33 | addition is modulo 2^32, associative and commutative, so the code's order of summands does not matter |
| `Sha256Words.HexReadsBack` | common/Sha256.cpp:89-93 | the printed digest is the eight words in order, each of eight lower-case hexadecimal digits, most significant first |
| `Sha256Words.SameHexSameDigest` | common/Sha256.cpp:89-93 | comparing printed digests is comparing digests |
| `Sha256Words.PrintedTells` | common/Sha256.cpp:51-94 | two contents print the same iff they have the same digest |
| `RestartLimit.RingCountsLog` | gateway_watchdog/main.cpp:66-84 | the five slots count the recent attempts of the whole log, up to five |
| `RestartLimit.RingDecides` | gateway_watchdog/main.cpp:66-84 | exactly when should_restart refuses: five recent attempts, or a clock not past 30 |
| `RestartLimit.AttemptKeepsInv` | gateway_watchdog/main.cpp:66-84 | an attempt, approved or refused, keeps all approvals of the child spread out |
| `RestartLimit.ResetKeepsInv` | gateway_watchdog/main.cpp:87-90 | so does the reset after a cooldown |
| `RestartLimit.AtMostFourPerWindow` | gateway_watchdog/main.cpp:204-262 | over any run, across cooldowns, no 30 s hold more than four approved restarts of a child |
| `RestartLimit.FourAreApproved` | gateway_watchdog/main.cpp:66-84 | four are reached; a fifth attempt right after them would be refused, one 28 s later approved |
| `Watchdog.Monitor.constructor` | gateway_watchdog/main.cpp:180-198 | after start-up every child is alive with nothing scheduled |
| `Watchdog.Monitor.ShouldRestart` | gateway_watchdog/main.cpp:66-84 | the in-place ring decides as the full log does and records the attempt; other children are untouched |
| `Watchdog.Monitor.RestartCountInWindow` | gateway_watchdog/main.cpp:54-63 | the number of recent slots that do not hold 0; of all recent slots once the clock has passed 30 |
| `Watchdog.Monitor.Restart` | gateway_watchdog/main.cpp:206-217 | one expired cooldown: clean history, new pid, nothing scheduled |
| `Watchdog.Monitor.RetryExpired` | gateway_watchdog/main.cpp:204-218 | exactly the children whose cooldown has expired start again; no child is abandoned |
| `Watchdog.Monitor.Reap` | gateway_watchdog/main.cpp:223-266 | one reaped pid: at the loop head every child stays either alive or scheduled, the dependency branch is not entered, and the backoff is 1, 2, 4 or 8 s, or what the undefined shift gives if the second clock reading is more than 30 s later |
| `Watchdog.Monitor.Backoff` | gateway_watchdog/main.cpp:246-249 | the backoff is 1, 2, 4 or 8 for one to four recent attempts; with none, the undefined shift within 1 to 16 |
| `Watchdog.Monitor.BackoffCount` | gateway_watchdog/main.cpp:246 | an approved attempt still counts at the second clock reading iff that is at most 30 s later, and at most four do |
| `Watchdog.Monitor.RateHolds` | gateway_watchdog/main.cpp:204-262 | whatever the monitor went through, at most four approvals of a child per 30 s |
| `WakeupBridge.NoLostWakeup` | gateway_access/main.cpp:104-118 | a non-empty queue means a positive counter, a driver between push and write, or a main loop between read and drain |
| `WakeupBridge.NothingGivenIsLost` | gateway_access/main.cpp:104-118 | over every run what was pushed is an interleaving of exactly what the callbacks were called with, each driver's messages in order, but for the one a callback is still busy with |
| `WakeupBridge.UndisturbedCallback` | gateway_access/main.cpp:105-117 | the five steps of a callback left alone can be taken and do what `OnData` promises |
| `WakeupBridge.ForwardsInOrder` | gateway_access/main.cpp:221-242 | what was sent is always a prefix of what was pushed |
| `WakeupBridge.MutualExclusion` | gateway_access/main.cpp:109-110 | no two threads hold the lock |
| `WakeupBridge.QuietMeansForwarded` | gateway_access/main.cpp:221-242 | at quiescence everything the callbacks were called with has been sent, each driver's messages in order |
| `WakeupBridge.MainAdvances` | gateway_access/main.cpp:201-242 | with idle drivers the main loop is never stuck before quiescence and every step brings it closer |
| `WakeupBridge.BridgeEmpties` | gateway_access/main.cpp:201-242 | it then forwards everything within a bounded number of steps |
| `WakeupBridge.Bridge.OnData` | gateway_access/main.cpp:105-117 | the callback appends and leaves the counter positive, saturating at its maximum |
| `WakeupBridge.Bridge.OnWakeup` | gateway_access/main.cpp:221-242 | the wake-up branch sends the whole queue in order |
| `ModelSwitch.InferenceStage.InitRknn` | gateway_engine/pipeline/stages/InferenceStage.cpp:27-114 | succeeds iff file, runtime and all queries do, and then holds exactly one more context; on any failure none |
| `ModelSwitch.InferenceStage.DestroyRknn` | gateway_engine/pipeline/stages/InferenceStage.cpp:116-121 | the current context is destroyed and forgotten |
| `ModelSwitch.InferenceStage.SwitchModel` | gateway_engine/pipeline/stages/InferenceStage.cpp:123-196 | the hash passes iff none is expected or the first reading has it; all or nothing: the new model and only its context, or every field as before, with a fatal report iff there was no model to go back to |
| `ModelSwitch.InferenceStage.Replace` | gateway_engine/pipeline/stages/InferenceStage.cpp:141-195 | saving, clearing, loading and restoring amount to that |
| `ModelSwitch.NoContextLeaks` | gateway_engine/pipeline/stages/InferenceStage.cpp:123-196 | over any sequence of switches, failing anywhere, exactly the current context is live |
| `ModelSwitch.FailuresChangeNothing` | gateway_engine/pipeline/stages/InferenceStage.cpp:167-195 | failed switches leave the model alone, and are no fatal reports while one is loaded |
| `ModelSwitch.LastSuccessDecides` | gateway_engine/pipeline/stages/InferenceStage.cpp:123-196 | the last successful request decides model, path, buffers and the one live context |
| `ModelSwitch.AsAskedIffSameHash` | gateway_engine/pipeline/stages/InferenceStage.cpp:127-156 | a successful switch with a hash loaded a file with that hash iff the two readings have the same hash |
| `ModelSwitch.AsAskedIffSameDigest` | gateway_engine/pipeline/stages/InferenceStage.cpp:127-156 | with SHA-256: iff they have the same digest |
| `ModelSwitch.UntouchedFileIsAsAsked` | gateway_engine/pipeline/stages/InferenceStage.cpp:127-156 | if the file is not touched in between, it did |
| `ModelSwitch.ReplacedFileIsAccepted` | gateway_engine/pipeline/stages/InferenceStage.cpp:127-156 | if it is replaced by one with another hash in between, the switch succeeds and leaves only a context with a wrong hash |
| `ModelSwitch.WrongModelIsLoaded` | gateway_engine/pipeline/stages/InferenceStage.cpp:127-156 | such a switch, with its contents and answers |
| `ModelSwitch.HonestIffUntouched` | gateway_engine/pipeline/stages/InferenceStage.cpp:127-156 | for all hash functions: what was asked for is loaded iff the file was not changed between the two readings |
| `GreedyChoice.OnlyFairChoice` | gateway_engine/pipeline/stages/PostprocessStage.cpp:213-226 | every choice that keeps an element exactly when no kept one before it clashes is the greedy one |
| `GreedyChoice.FairChoice` | gateway_engine/pipeline/stages/PostprocessStage.cpp:213-226 | there is such a choice for every list |
| `GreedyChoice.GreedyByPosition` | gateway_engine/pipeline/stages/PostprocessStage.cpp:207-226 | the greedy result is the one fair choice of positions, and every other position is covered by a chosen one before it that scores no lower |
| `GreedyChoice.UnchangedIffApart` | gateway_engine/pipeline/stages/PostprocessStage.cpp:213-226 | a list comes through unchanged iff nothing in it clashes |
| `Nms.IouSymmetric` | gateway_engine/pipeline/stages/PostprocessStage.cpp:36-51 | the overlap measure does not depend on the order |
| `Nms.IouBounds` | gateway_engine/pipeline/stages/PostprocessStage.cpp:36-51 | it lies between 0 and 1 |
| `Nms.IouOfSame` | gateway_engine/pipeline/stages/PostprocessStage.cpp:36-51 | a box overlaps itself entirely |
| `Nms.IouCountsCells` | gateway_engine/pipeline/stages/PostprocessStage.cpp:36-51 | for boxes in whole coordinates it is the number of unit cells in both over the number in either, and 0 if there are none |
| `Nms.Suppress` | gateway_engine/pipeline/stages/PostprocessStage.cpp:213-226 | the loops over the flags compute the greedy choice |
| `Nms.SuppressAfter` | gateway_engine/pipeline/stages/PostprocessStage.cpp:219-225 | the inner loop flags exactly the later boxes that clash |
| `Nms.KeptDoNotOverlap` | gateway_engine/pipeline/stages/PostprocessStage.cpp:216-226 | two kept boxes of a class overlap by at most the threshold |
| `Nms.DroppedIsCovered` | gateway_engine/pipeline/stages/PostprocessStage.cpp:207-226 | position by position, copies included: a box is kept iff no kept box before it has its class, no lower confidence and an overlap above the threshold |
| `Nms.Idempotent` | gateway_engine/pipeline/stages/PostprocessStage.cpp:213-226 | suppressing twice changes nothing |
| `Nms.ClassesAreIndependent` | gateway_engine/pipeline/stages/PostprocessStage.cpp:221 | filtering by class commutes with suppression |
| `ReplayWindow.ReplaysAreFarApart` | gateway_core/RpcHandler.cpp:30-44 | over any history two acceptances of an id are more than 10000 acceptances apart |
| `ReplayWindow.RefusedIffReplayed` | gateway_core/RpcHandler.cpp:30-44 | for every history of requests, in terms of the requests alone: refused iff the id was accepted before and fewer than 10000 others were accepted since; an accepted id is the one new entry, anything else adds none |
| `ReplayWindow.AskedTwiceIsRefused` | gateway_core/RpcHandler.cpp:34-43 | whatever came before, an id that has just been asked for is refused |
| `ReplayWindow.ForgottenAfterTenThousand` | gateway_core/RpcHandler.cpp:37-41 | an id is refused iff fewer than 10000 others were accepted since |
| `ReplayWindow.RpcHandler.Dispatch` | gateway_core/RpcHandler.cpp:18-53 | a request is answered as a duplicate iff it is a replay of the requests so far, in that sense; set and deque agree, every reply; an unknown method uses up its id |
| `DbWriter.NothingLost` | gateway_core/DbWriter.cpp:79-150 | over every interleaving accepted records are the flushed ones, then those in hand, then those queued |
| `DbWriter.BatchesAreSmall` | gateway_core/DbWriter.cpp:123-136 | every batch but that of the final drain holds 1 to 50 records |
| `DbWriter.FlushedIffQuiet` | gateway_core/DbWriter.cpp:139-147 | when the thread has ended every accepted record was flushed exactly once and in order iff none was accepted after the final drain found the queue empty |
| `DbWriter.LatePushIsStranded` | gateway_core/DbWriter.cpp:79-80 | a run from the start in which stop comes first and a push later is accepted, and whose record is never flushed |
| `DbWriter.StopFlushesAll` | gateway_core/DbWriter.cpp:98-147 | with pushing ceased the thread ends within a bounded number of steps, everything flushed |
| `DbWriter.UndisturbedPass` | gateway_core/DbWriter.cpp:123-136 | the interleaved steps of a pass left alone flush what `Pass` promises |
| `DbWriter.DbThread.Push` | gateway_core/DbWriter.cpp:79-87 | accepts iff there is room; wakes the thread iff a batch is waiting |
| `DbWriter.DbThread.Pass` | gateway_core/DbWriter.cpp:123-136 | the oldest records, up to 50, become one batch |
| `DbWriter.DbThread.Finish` | gateway_core/DbWriter.cpp:139-147 | all the rest becomes one batch, however large |

## Left out

- The Qt monitor, HTTP dashboard, MQTT, curl, serial set-up, configuration and JSON scanning, `OtaManager`,
  `RingBuffer`, `RuleEngine` and the `InternalMessage` codec: no further hard property.
- SQLite, UDS writes, GStreamer, RKNN and JPEG internals: oracles, logs or handle sets; writes succeed.
- Weak memory orders: the model is sequentially consistent.
- Pipeline and the modules named after it are on values: the stages are threads, whose interleaving a class cannot
  express; so is every other state machine beside a class.
- Several getters on one `FramePool`, and concurrent DropOldest: production has one getter and blocking queues.
- A second run of `Pipeline` over ring cells that still refer to the frames of the first one's pool.
- The race of the first model load with a switch (it is not under the lock).
- Pixel work: letterbox, box decoding, JPEG. IoU and confidence are reals, so float rounding is not modelled.
- `std::sort` before suppression: the list is given, sorted where the property needs it.
- FramePool.Pool.constructor: requires a pool of at least one slot; with none the source would index an empty list.
- SpscQueue.PushDropOldest: requires a capacity of at least two; with one the source never leaves its loop.
- Watchdog.Monitor.constructor: fork failures, during start-up and later, are not modelled.
- Watchdog.Monitor.Reap: assumes that forks succeed, and takes the pids of new processes as given.
- Watchdog.Monitor.Backoff: a shift by a negative count, undefined in the source, is a parameter; the overflow of the
  attempt counter after 2^31 attempts is not modelled.
- SharedMemory.RegionReader.Read: does not model `has_new_data`, nor what the output block holds when read fails.
- ModelSwitch.InferenceStage.Allocate: the unused quotient at InferenceStage.cpp:101, which divides by an element count.
- Sha256.HashBuffer: addresses and allocation of the buffer; a length that does not fit 64 bits cannot be called.
- Sha256Words.RoundConstants: takes the list of the first 64 primes as given.
- WakeupBridge.BridgeEmpties: messages still queued when the process is told to exit are not forwarded by the source.
- MbapStream.Driver.OnRead: the polling loop around it, its requests and its pacing.
