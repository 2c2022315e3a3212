# cpu-bench, modelled and proved

A Dafny model of the parts of the cpu-bench benchmark and its hub on which results depend, and
proofs of what those parts promise. The module comments name the files they model.

* **Lining threads up** (`Barrier.dfy`, `WorkerRun.dfy`, `BarrierSystem.dfy`). The barrier of
  `platform.h` is a class; a worker's run is a method proved against its trace of crossings,
  warm-ups and measurements; any number of workers around one barrier are a step system with
  spurious wake-ups. Safety, the wrapping generation, absence of deadlock and termination are
  proved over every interleaving.
* **Numbers that agree with themselves** (`Geomean.dfy`, `Dispatch.dfy`, `Results.dfy`,
  `Consistency.dfy`, `Honest.dfy`, `Edits.dfy`, `MachineScore.dfy`). The C side derives and
  prints, the Python side recomputes and compares. No honest document is refused. In a
  complete record a single edit of more than a percent is refused in any of the thirteen columns
  the check reads, in a total row without a thread count in the nine it then reads; it never
  reads `mem_gbps`, `disp_cap`, `disp_gain` and `mhz`, and edits to those pass. Logarithms are
  any pair of functions with their laws; means are compared through powers.
* **Chases and kernels** (`Shuffle.dfy`, `Chase.dfy`, `Walk.dfy`, `Sweep.dfy`, `Kernels.dfy`,
  `MemPhases.dfy`). The generator, the in-place builder, the kernels that walk and sweep the buffer, the
  batch driver, and both chase phases from building to the last load.
* **Replies** (`Text.dfy`, `Chunked.dfy`, `Reply.dfy`). When a chunked reply has arrived, how
  it is decoded in place, and that reading it in any fragments gives the sender's data.
* **SHA-256 and the puzzle** (`Powers.dfy`, `Sha256.dfy`, `ShaStream.dfy`, `PageSha.dfy`,
  `ProofOfWork.dfy`, `ShaBits.dfy`, `ShaVectors.dfy`, `ShaExample.dfy`). FIPS 180-4 as functions,
  proved bit by bit and on the standard's example; the streaming C context and the page's one-shot
  hash proved against it; the page and the hub agree on what solves the puzzle.
* **Hub state** (`RateLimit.dfy`, `Challenges.dfy`, `Releases.dfy`, `BuildTable.dfy`). The
  rate limiter, the challenge store and the table of verified builds as classes whose answers
  are proved to be functions of the history of calls, and what holds of every history.
* **Upload text** (`Utf8.dfy`, `Submission.dfy`). Trimming, tagging and percent-encoding.

Where the code and what is written about it differ, the model follows the code:

* `bench.c` says the whole-machine score is about n times one core's (lines 1908-1910 and
  1761-1762). The span term does not grow with n. Of n identical cores, n > 1, that is so if and
  only if no dispatch ladder was measured (`MachineScores.TimesCoresIffNoLadder`). With a ladder
  and k other terms the factor is n^(k/(k+1)), so n^(5/6) with everything measured: 64 cores that
  score 16000 each score 512000 together (`MachineScores.SixtyFourCores`).
* `server.py` says release keys make newest mean newest (line 679). That holds between tags
  with equally many components; the key of `v1.0` lies above the key of `v1.0.1`
  (`Releases.RankOrderMixed` says exactly when).
* `server.py` says the limiter's sweep bounds memory on a busy host (line 1377). The sweep drops
  something if and only if there are more than 10000 keys and an empty queue among them
  (`RateLimit.RateLimiter.Sweep`), and only a key last asked about under a non-positive limit can
  have one. Under positive limits the table is every key ever asked about
  (`RateLimit.TableIsKeysAsked`), and n callers leave n entries (`RateLimit.Crowd`).
* `bench.c` says each way is one full cycle (lines 594-596). That needs node numbers to fit
  `uint32_t`, which is proved to be the exact condition (`Chases.BuildChases`); it is exceeded
  from 256 GiB and 512 bytes on (`Chases.NarrowBelow256GiB`).

To check everything: `dafny verify dfyconfig.toml`.

## Model

| member | source | states |
|---|---|---|
| PlatBarrier.Barrier.Init | bench/src/platform.h:118-129 | A barrier for no threads is refused and left alone; otherwise it starts empty at generation 0. |
| PlatBarrier.Barrier.Arrive | bench/src/platform.h:131-140 | One arrival under the lock: the caller learns the generation it arrived in, and exactly the arrival that makes up the limit resets the count, moves to the next generation (modulo 2^32) and is told it is the serial one. |
| PlatBarrier.ArrivedIs | bench/src/platform.h:131-140 | For every count below the limit and every 32-bit generation: one more is counted, and the last arrival empties the counter and moves on, from 4294967295 to 0. |
| BarrierSystem.StepKeeps | bench/src/platform.h:131-147 | Every step of every thread (lock, arrive, broadcast, sleep, spurious wake, test, leave, join) keeps the invariant that ties counter and generation to the rounds entered and left. |
| BarrierSystem.BarrierSafety | bench/src/platform.h:131-147 | In every state reachable under any interleaving: nobody has returned from its k-th wait before everybody entered its k-th; completed waits differ by at most one; a round names at most one serial thread, and exactly one once all are out of it. |
| BarrierSystem.GenerationDecides | bench/src/platform.h:92-95 | Rounds one apart never share a generation, even across the wrap at 2^32. |
| BarrierSystem.GenerationLag | bench/src/platform.h:92-95 | Every waiting thread read the current generation or the one before; they differ exactly when its round has opened; and a sleeper whose round has opened is about to be woken. |
| BarrierSystem.NeverStuck | bench/src/platform.h:131-147 | Unless everything is joined, a step other than a spurious wake is enabled, provided all threads owe equally many crossings. |
| BarrierSystem.QuietIsFinished | bench/src/platform.h:131-147 | With the lock free, nobody wanting it and nobody with work left, nobody is asleep. |
| BarrierSystem.StepPays | bench/src/platform.h:131-147 | Every step but a spurious wake strictly lowers a bounded potential; a spurious wake raises it by a constant. |
| BarrierSystem.RunIsBounded | bench/src/platform.h:131-147 | So a run is at most as long as its starting potential plus a constant for each spurious wake. |
| BarrierSystem.CanFinish | bench/src/bench.c:1544 | From every reachable state some continuation joins every thread. |
| BarrierSystem.DoneMeansAllCrossed | bench/src/bench.c:1544 | When every thread is joined each has crossed as often as its program says. |
| BarrierSystem.CompletesIffEven | bench/src/bench.c:530-537 | Threads with any programs can all finish if and only if they cross equally often: the rule stated above phase_begin, in both directions. |
| BarrierSystem.MeasuredRunCompletes | bench/src/bench.c:1512-1549 | Any number of workers, whatever their allocations did: after any run so far some step is possible until all are joined, the run is bounded, and some continuation without spurious wakes joins every worker, each having crossed 2 * reps * 22 times. |
| BarrierSystem.NoMixedPhases | bench/src/bench.c:526-537 | Two workers at work at the same moment are at the same work: the same repetition of the same measurement, or the warm-up of the same phase. So nobody measures while another still warms up. |
| WorkerRun.Worker | bench/src/bench.c:702-848 | The crossings, warm-ups, builds and measurements of a whole worker, in order, for every mix of failed allocations and failed builds. |
| WorkerRun.EveryMeasurementOnce | bench/src/bench.c:702-844 | Of every phase each repetition is measured exactly once, and no other: the five compute phases always, the fourteen rungs with their selectors, the three memory phases in a buffer of at least 512 KiB, each chase only if its links were built. |
| WorkerRun.EveryWarmupOnce | bench/src/bench.c:526-569 | Exactly one warm-up for each compute phase and for the first rung, and one for each memory phase, of which only the one for bandwidth writes. |
| WorkerRun.EveryBuildOnce | bench/src/bench.c:814-832 | One chase and eight chases are each built exactly once in a buffer that can hold them, never otherwise; 44 crossings per repetition, whatever failed. |
| WorkerRun.WorkStandsAt | bench/src/bench.c:702-844 | How many barriers lie before each measurement, warm-up and build, as a number. |
| WorkerRun.MeasurementsInOrder | bench/src/bench.c:702-844 | Measurements follow the order of the suite, and within a phase that of the repetitions. |
| WorkerRun.ChaseFollowsItsBuild | bench/src/bench.c:805-845 | Before every chase measurement stands the build of its own chases, and between the two nothing links anew, sweeps, or warms up by writing. |
| WorkerRun.EveryWorkerCrossesEqually | bench/src/bench.c:526-577 | The number of crossings depends on the repetitions alone. |
| WorkerRun.WorkIsAligned | bench/src/bench.c:526-577 | Every warm-up lies between the two crossings that begin its phase, and every measurement after exactly the crossings of its own phase and repetition. |
| WorkerRun.ChasesFindTheirLinks | bench/src/bench.c:540-577 | When a chase phase measures, the buffer still holds the links built for it: no writing warm-up came in between. |
| Geomean.Geomean | bench/src/bench.c:1782-1789 | The loop returns the geometric mean of the positive terms, zero when there are none, for any logarithm and exponential that obey their laws. |
| Geomean.HubGeomeanIsGeomean | web/server.py:387-391 | The hub computes the same mean. |
| Geomean.GeomeanUnique | web/server.py:387-391 | There is only one such number, so the two agree. |
| Geomean.MeanOfSix | bench/src/bench.c:1782-1789 | The mean of six positive numbers is the sixth root of their product. |
| Geomean.WithoutTerm | bench/src/bench.c:1782-1789 | A term that is not positive changes nothing, wherever it stands; the mean of none is zero. |
| Dispatch.DispSummary | bench/src/bench.c:1810-1843 | The out-parameters and status of the ladder reduction for every ladder, missing points included. |
| Dispatch.ReadOut | bench/src/bench.c:1810-1843 | The four outcomes in numbers: nothing when one of rungs 0 to 3 or the last is missing; an integrated curve when the best of rungs 1 to 3 is at least 1.15 times the last; a capacity of 4, or none, by whether rung 0 is. |
| Dispatch.SpanIsArea | bench/src/bench.c:246-266 | The span times the plateau's height is the area between curve and floor over rungs 1 to 12, clipped at both: linear in every rung between the two. |
| Dispatch.SpanRange | bench/src/bench.c:246-266 | With gain at least 1.15 the span lies between 1 and 12. |
| Dispatch.ScalingIsInvisible | bench/src/bench.c:253-262 | Scaling every rate leaves status, span, gain and capacity as they were. |
| Dispatch.SpanIsMonotone | bench/src/bench.c:253-262 | Raising a rung beyond the plateau points never lowers the span, nor, for any rising power of two, the capacity. |
| Dispatch.IdealCoreReadsExactly | bench/src/bench.c:259-262 | A core at the plateau up to rung m and at the floor beyond reads span m and exactly the period of rung m. |
| Results.CoreScore | bench/src/bench.c:1861-1875 | The score is the geometric mean of the six component terms, a missing ladder dropping its term. |
| Results.Summarize | bench/src/bench.c:1923-1940 | The row that one worker turns into: copied rates, guarded ratios, ladder summary, score. |
| Results.MachineScore | bench/src/bench.c:1911-1921 | The whole-machine score: the same mean with the miss rate multiplied by the threads. |
| Results.Aggregate | bench/src/bench.c:2148-2187 | Rates are summed; each latency is averaged over the rows that have it, the capacity over those that measured one; gain and span are averaged over all; the status tells whether any measured or any predicts nothing; ratios and score are derived from the result. |
| Results.AggregateOfTwo | bench/src/bench.c:2148-2187 | Two cores in full: every column of the total from the columns of the two rows, with a latency or capacity that only one of them has. |
| Consistency.CheckConsistency | web/server.py:437-457 | Rows are accepted exactly when every one is consistent, that is, when its three ratios and, where the number of threads is known, its score lie within a thousandth of what its own numbers make them (RowHolds); otherwise the first inconsistent row is named, with the first of ilp, filp, mlp and score that disagrees in it. |
| Consistency.AgreesIffPowersDo | web/server.py:424-434 | The tolerance test against a geometric mean of m terms is the comparison of m-th powers with their product. |
| Consistency.AgreesWithinThousandth | web/server.py:424-434 | A positive number agrees with what is wanted exactly from 999 to 1001 thousandths of it; with nothing wanted, nothing positive agrees. |
| Consistency.ScoreWithin | web/server.py:424-457 | A score passes exactly if it lies within a thousandth of every geometric mean of its six terms. |
| Consistency.ConsistentIffHolds | web/server.py:437-457 | The check by powers is the one spelled out on the row's own columns. |
| Consistency.FailureNames | web/server.py:437-457 | The named key is the first of the four that is off by more than a thousandth. |
| Honest.PrintedMeanAgrees | web/server.py:370-374 | A mean printed to six digits is within tolerance of the mean of up to six printed terms. |
| Honest.SummaryIsDerived | bench/src/bench.c:1923-1940 | Every per-core row derives its ratios and score from its own columns. |
| Honest.AggregateIsDerived | bench/src/bench.c:2148-2187 | So does every total row. |
| Honest.DerivedIsAccepted | web/server.py:437-457 | Any row so derived, printed with six digits and null for what is not positive, passes. |
| Honest.NoHonestRefusal | web/server.py:437-457 | Every record of every honest document passes, whatever was missing on whichever worker, with or without the thread count. |
| Edits.SixthRootShows | web/server.py:370-374 | One percent on one of six terms moves the mean by more than the tolerance. |
| Edits.SingleEditIsRefused | web/server.py:437-457 | An honest record with every value present passes, and changing any one of thirteen columns by more than one percent is refused; in a total row without a thread count that holds of the nine columns of the ratios and of no other. |
| MachineScores.MachineScoreOfIdenticalCores | bench/src/bench.c:1901-1921 | Whatever was measured: with k positive terms besides the span term, n identical cores score n^(k/m) times one of them, where m is k without a ladder and k + 1 with one; said as an equation of m-th powers. |
| MachineScores.TimesCoresIffNoLadder | bench/src/bench.c:1908-1910 | The comment's factor of n, exactly: n identical rows of summarize() score n times one of them if and only if n is 1 or no ladder was measured. |
| MachineScores.SixtyFourCores | bench/src/bench.c:1908-1910 | An input where it fails: 64 cores that each score 16000 score 512000 together, not 1024000. |
| MachineScores.FlatCore | bench/src/bench.c:1861-1940 | One worker with six different terms and a flat ladder: its whole row, with the score 16000. |
| Chases.Shuffle | bench/src/bench.c:612-617 | The in-place shuffle leaves the permutation that its draws decide, and the generator where as many numbers leave it. |
| Shuffles.DrawsDecide | bench/src/bench.c:612-617 | Different draws leave different orders. |
| Shuffles.EveryOrderIsDrawn | bench/src/bench.c:612-617 | Every order of the nodes is left by some draws, one for each place and none above it; so orders and lists of draws correspond one to one. |
| Shuffles.FourNodesAtSeedOne | bench/src/bench.c:169-176 | Four nodes at seed 1 end in the order 0, 3, 2, 1, and the generator at 0xd004003202803. |
| Chases.WayLinksAre | bench/src/bench.c:605-623 | Where the links of each way are: its nodes in the order shuffled by the numbers that follow those of the ways before it, each node pointing at the next, the head at the first. |
| Chases.WayStateIs | bench/src/bench.c:605-617 | Way w starts w * (perWay - 1) numbers into the generator's sequence. |
| Chases.Link | bench/src/bench.c:618-621 | Distinct nodes end up linked in a ring in their order; nothing else is written. |
| Chases.LinkedIsFullCycle | bench/src/bench.c:595-596 | A ring through a permutation of a way's nodes is one full cycle of that way. |
| Chases.CycleFrame | bench/src/bench.c:592-596 | A way's cycle survives every write outside its own nodes. |
| Chases.WaysAreDisjoint | bench/src/bench.c:592-593 | Interleaved ways share no node. |
| Chases.WideMissesItsLastNode | bench/src/bench.c:609-611 | With more nodes than uint32_t can number the last way is not a full cycle. |
| Chases.BuildChases | bench/src/bench.c:597-626 | Success exactly when each way gets two nodes and the scratch array is there; then walks from the heads never leave the buffer, and every way is one full cycle if and only if uint32_t can number the nodes; then each is linked in its own shuffled order, from the seed or, for seed 0, from 0x243F6A8885A308D3. On failure nothing is written. |
| Chases.NarrowBelow256GiB | bench/src/bench.c:609-611 | With 8 ways of 64-byte nodes the node numbers fit uint32_t exactly below 2^35 + 64 words; a buffer of that size passes the builder's test and is too large. |
| Walks.MemLat | bench/src/kernels.c:185-193 | n dependent loads from the first cursor. |
| Walks.MemMlp | bench/src/kernels.c:195-208 | n loads by every cursor. |
| Walks.CursorsAfterAnyHops | bench/src/kernels.c:195-208 | After any number of hops from the heads the cursors are in the buffer, each on its own way, no two on one node, and after whole laps back at the heads. |
| Walks.LapLoadsEveryNodeOnce | bench/src/bench.c:595-596 | Any lap's worth of consecutive hops, wherever it starts, visits every node of the way at exactly one hop. |
| Sweeps.MemWarmup | bench/src/bench.c:546-569 | A read-only warm-up leaves the buffer unchanged; a writing one raises it once per sweep; either makes one sweep per clock reading that leaves time. |
| Sweeps.WritingChangesEveryCoveredWord | bench/src/bench.c:543-545 | A writing warm-up would change every link in a covered word. |
| MemPhases.LatPhase | bench/src/bench.c:814-827 | The latency phase from building to the last batch: it runs exactly when buffer and scratch array are there, its links form one cycle through every node as long as node numbers fit uint32_t, its warm-up disturbs none of them, and each repetition ends where that many dependent loads from the head lead. |
| MemPhases.LatRepetition | bench/src/bench.c:821-824 | The batches of one repetition add up to one walk from the head. |
| MemPhases.MlpPhase | bench/src/bench.c:829-845 | From building to the last batch: the phase runs exactly when buffer and scratch array are there, its warm-up disturbs no link, and each repetition leaves the cursors where that many hops lead, well placed. |
| MemPhases.MlpRepetition | bench/src/bench.c:834-838 | The batches of one repetition add up to one walk from the heads. |
| MemPhases.ChaseLayoutIs | bench/src/bench.c:817-832 | A node per 64-byte line, the ways taking turns. |
| Kernels.RunTimed | bench/src/bench.c:279-304 | The context ends as after one call with the sum of the batches, which is the count returned (modulo 2^64); every batch is the one before it, doubled after less than 4 ms and halved after more than 20 ms within 1 and 2^30; the loop ends at the first reading at or past the end; the time is what the clock says, or the nominal time when it did not move; from a power of two up to 2^30 every batch is one. |
| Kernels.SteadyCostSettles | bench/src/bench.c:270-277 | A kernel whose units take equally long settles within thirty batches from any power of two: from then on the size stays, and a batch lasts 4 to 20 ms unless no size from 1 to 2^30 does. |
| Kernels.IterationIsBatchable | bench/src/bench.c:270-275 | Any kernel that repeats a unit can be cut into batches anywhere. |
| Sweeps.MemBw | bench/src/kernels.c:165-183 | n sweeps raise every covered word by n and accumulator j by n times its column sum plus n(n - 1)/2 for each of its words, modulo 2^64. |
| Sweeps.SweepsOfEight | bench/src/kernels.c:165-183 | Eight words in numbers: accumulator j adds words j and j + 4, one more of each in the second sweep. |
| Sweeps.SweepsAreBatchable | bench/src/kernels.c:165-183 | The bandwidth kernel can be cut into batches anywhere. |
| Walks.ThrKernel | bench/src/kernels.c:104-159 | Every lane ends as n single steps on that lane alone leave it. |
| Walks.LatKernel | bench/src/kernels.c:77-145 | The latency kernels are one chain on the first lane, of eight steps a unit for integers and one for floating point; the other lanes stay as they are. |
| Walks.MulLaneStaysOdd | bench/src/kernels.c:59-62 | An odd multiply lane with an odd factor never becomes zero. |
| Walks.MulLaneIs | bench/src/kernels.c:59-62 | n units multiply a lane by the n-th power of its factor, modulo 2^64. |
| Walks.FpLaneCloses | bench/src/kernels.c:64-71 | After n units a floating-point lane is exactly |c|^n times as far from its fixed point as it started, for every factor c. |
| Walks.FpLaneConverges | bench/src/kernels.c:67-69 | With |c| < 1 the fixed point is b/(1-c), and from some count of units on a lane is within any given distance of it, wherever it started. |
| Walks.DispKernel | bench/src/kernels.c:235-247 | n indirect calls leave position and accumulator as n single calls do. |
| Walks.DispatchFollowsTheStream | bench/src/kernels.c:229-234 | The calls made are those the selector stream names, read cyclically from the position, whatever the accumulator. |
| Walks.AppliedIs | bench/src/kernels.c:229-234 | Each selector, modulo four, picks the operation for what those before it left. |
| CText.StrtoulReads | bench/src/http.c:379-380 | A number spelled in hex digits is read back as its value. |
| CText.SameStrtoul | bench/src/http.c:446-453 | Reading a number does not depend on what lies before it. |
| CText.HexDigitsAre | bench/src/http.c:379-380 | The sixteen digits in either case, and no other character. |
| CText.StrtoulExamples | bench/src/http.c:446-453 | Five spellings: spaces, sign and prefix; a minus that wraps; "0x" with no digit behind it; no number; one that saturates. |
| Chunked.ChunksComplete | bench/src/http.c:369-385 | The loop answers as the walk over size lines does. |
| Chunked.CompleteIffFramed | bench/src/http.c:365-385 | For every cut of an encoded body, whatever its data, size spellings and extensions and whatever follows: complete if and only if the terminating zero-size line has arrived. |
| Chunked.NumberIs | bench/src/http.c:379-380 | A size is written most significant digit first, in either case. |
| Chunked.WhatEndsTheReply | bench/src/http.c:376-382 | A line that has arrived whole ends the reply exactly if its size is zero or above 262144; so does one that starts with no digit. |
| Chunked.WikipediaInChunks | bench/src/http.c:365-385 | Two chunks and the last, byte for byte. |
| Chunked.Dechunk | bench/src/http.c:446-463 | Decoding in place yields the decoding of the original bytes, NUL-terminated; nothing before it and nothing behind that NUL is changed. |
| Chunked.TakePiece | bench/src/http.c:455-461 | One turn moves its data down to the write cursor, which stays at or behind the reader; from the write cursor on the buffer is as it came. |
| Chunked.DecodedIsWholeData | bench/src/http.c:446-463 | From any prefix exactly the chunks whose data is whole come out; from the zero-size line on, all of them. |
| Chunked.RoundTrip | bench/src/http.c:446-463 | Decoding the encoding of any list of chunks gives their concatenation. |
| Chunked.CompleteMeansWhole | bench/src/http.c:365-385 | Whenever the reader says complete, the decoder finds all the data. |
| Replies.ReadReply | bench/src/http.c:395-442 | Unless a read or an allocation fails, a prefix of what the peer sends, NUL-terminated inside a buffer of at most MAX_REPLY bytes; read until it has arrived by its own framing, the buffer is full or the peer hangs up; no read after it has arrived, and no waiting for a peer whose whole reply arrives. |
| Replies.ParseBody | bench/src/http.c:465-483 | The body handed on: decoded when the headers say chunked, the rest of the string otherwise. |
| Replies.HeadIsStable | bench/src/http.c:423-431 | Later bytes never move the end of the headers. |
| Replies.ArrivedIffEnded | bench/src/http.c:432-437 | Every cut of a chunked reply counts as arrived exactly when its zero-size line is there. |
| Replies.ArrivedIffLength | bench/src/http.c:435-437 | A reply with a length counts as arrived exactly when that many bytes of body are there. |
| Replies.NeverArrivedWithoutFraming | bench/src/http.c:387-394 | With neither framing only the peer hanging up ends the read. |
| Replies.FetchChunked | bench/src/http.c:387-483 | A chunked reply whose zero-size line ends within MAX_REPLY - 1023 bytes, in any fragments and whatever follows it: read to its end without waiting for the peer to hang up, and the body is the chunks' data. |
| Replies.BodyIsData | bench/src/http.c:465-483 | The body of a reply that is not chunked is exactly what follows its headers, up to a NUL. |
| Replies.FetchSized | bench/src/http.c:387-483 | A reply with a Content-Length within the same bound, in any fragments: read without waiting for the peer to hang up; the body begins with the data, and is the data when nothing follows. |
| Replies.FetchUnframed | bench/src/http.c:387-483 | A reply with neither is read until the peer hangs up, and its body is all that was sent. |
| Replies.FetchByteByByte | bench/src/http.c:395-442 | That bound is exact: with nothing failing and every byte read by itself, a chunked reply is read to its end if and only if it keeps the bound: 261121 bytes. |
| Sha256.ConstantsAreCubeRoots | bench/src/sha256.c:27-44 | Each round constant is the first 32 bits of the fractional part of the cube root of its prime (section 4.2.2 of FIPS 180-4). |
| Sha256.InitialHashIsSquareRoots | bench/src/sha256.c:50-57 | The initial hash likewise from square roots (section 5.3.3). |
| ShaBits.XorBit | bench/src/sha256.c:59-82 | Every bit of an exclusive or is the sum of the two bits modulo 2. |
| ShaBits.AndBit | bench/src/sha256.c:59-82 | Every bit of a conjunction. |
| ShaBits.OrBit | bench/src/sha256.c:46-48 | Every bit of a disjunction. |
| ShaBits.NotBit | bench/src/sha256.c:72-78 | Every bit of a complement. |
| ShaBits.RotrBit | bench/src/sha256.c:46-48 | A rotation right by n moves bit (i + n) mod 32 to place i. |
| ShaBits.ChBit | bench/src/sha256.c:74 | Ch takes each bit from its second argument where the first is set, from the third elsewhere. |
| ShaBits.MajBit | bench/src/sha256.c:77 | Maj is the majority of the three bits. |
| ShaBits.SigmaBits | bench/src/sha256.c:66-76 | The four sigmas, bit by bit, with the amounts of section 4.1.2. |
| ShaVectors.RoundIs | bench/src/sha256.c:71-82 | A round on 32-bit vectors is the round of the standard on the numbers they spell. |
| ShaExample.DigestOfAbc | bench/src/sha256.c:59-128 | The example of the standard: the digest of "abc" is ba7816bf 8f01cfea 414140de 5dae2223 b00361a3 96177a9c b410ff61 f20015ad. |
| Sha256.PadIs | bench/src/sha256.c:103-120 | The message, a one bit, zeros, and the length in bits in the last eight bytes of the fewest blocks. |
| Sha256.BlocksChain | bench/src/sha256.c:87-101 | Blocks may be fed in any groups: each group starts from what the ones before it left. |
| ShaStream.Schedule | bench/src/sha256.c:60-69 | The message schedule of section 6.2.2. |
| ShaStream.RunRounds | bench/src/sha256.c:71-82 | The 64 rounds of section 6.2.2. |
| ShaStream.Context.Block | bench/src/sha256.c:59-85 | One block is compressed into the hash. |
| ShaStream.Context.Update | bench/src/sha256.c:87-101 | Whatever the piece, the context is that of everything fed so far, so pieces may be cut anywhere. |
| ShaStream.Context.PadZeros | bench/src/sha256.c:107-110 | The zero loop ends, after exactly the zeros section 5.1.1 asks for. |
| ShaStream.Context.Final | bench/src/sha256.c:103-128 | Below 2^61 bytes: 64 lower-case hex digits that read back as the eight words of the digest, and a NUL. |
| ShaStream.HashFile | bench/src/sha256.c:130-148 | A file, however its reads cut it, gives its digest; an error gives -1 and an empty string. |
| PageSha.ScheduleIs | web/static/app.js:1027-1032 | The page's sum of signed and unsigned terms, cut with >>> 0, is the schedule word. |
| PageSha.RoundIs | web/static/app.js:1034-1041 | The page's round on signed numbers is the round of the standard. |
| PageSha.Padded | web/static/app.js:1016-1022 | The page's buffer is the padded message. |
| PageSha.Sha256OfPage | web/static/app.js:1012-1046 | The page's digest words are those of FIPS 180-4. |
| ProofOfWork.LeadingZeros | web/static/app.js:1048-1055 | For every difficulty from 0 to 256 the word test passes exactly the digests below 2^(256 - bits), which is the hub's test. |
| ProofOfWork.BytesSpellValue | web/server.py:625-626 | The number the hub reads from the digest's bytes, big end first, is the one its words spell. |
| ProofOfWork.FirstWordTop | web/server.py:625-626 | Within one word the hub's comparison of the whole number is a comparison of the leading word. |
| ProofOfWork.DecimalReads | web/static/app.js:1060-1073 | The nonce is its number in decimal, without leading zeros. |
| ProofOfWork.AcceptedMeans | web/server.py:625-626 | A nonce is accepted exactly if the digest of challenge, colon and nonce, read as one number, is below 2^(256 - bits). |
| ProofOfWork.SolveChallenge | web/static/app.js:1060-1073 | The least nonce below 2^26 that the hub accepts, and no answer only if there is none. |
| RateLimit.RateLimiter.Allow | web/server.py:1362-1380 | With the limiter on, the answer depends on the history of requests alone: fewer than the limit allowed for the key in the closed window that ends now. The table gains the key; an allowed call then loses exactly as many other keys' empty queues as the sweep takes, a denied one nothing; no other queue changes. |
| RateLimit.RateLimiter.Sweep | web/server.py:1377-1379 | Something is dropped if and only if the table has more than 10000 keys and some queue is empty; then min(5000, number of empty queues) of the empty ones go, and nothing else. |
| RateLimit.TableIsKeysAsked | web/server.py:1366-1379 | Over every history: a queue is only ever empty when its key was last asked about under a non-positive limit, so under positive limits the table is exactly the set of keys ever asked about and the sweep has nothing to drop. |
| RateLimit.Crowd | web/server.py:1377-1379 | Where bounding memory fails: n callers asking once each, however far apart, leave a table of n entries, for every n. |
| RateLimit.AtMostLimitInAnyWindow | web/server.py:1355-1380 | At most the limit is allowed in any closed interval as long as the window, over every sequence of calls. |
| RateLimit.DeniedOnlyWhenUsedUp | web/server.py:1374-1375 | A denied call finds exactly the limit used within the last window. |
| RateLimit.WithinIs | web/server.py:1370-1375 | Both ends of the window count. |
| RateLimit.WindowIsClosed | web/server.py:1370-1375 | One call in ten seconds: allowed at 0, denied at 10, allowed at 10.5. |
| RateLimit.KeysAreIndependent | web/server.py:1362-1380 | Dropping all requests of other keys changes no answer of a key. |
| ChallengeStore.Challenges.Issue | web/server.py:643-654 | The store after issuing: with cap entries the expired go, then the oldest until there is room; never more than cap. |
| ChallengeStore.Challenges.Spend | web/server.py:656-660 | Succeeds exactly for a token in the store whose time is not up, and takes it out either way. |
| ChallengeStore.Evict | web/server.py:651-652 | Deleting the earliest expiry until there is room keeps exactly the youngest. |
| ChallengeStore.NeverMoreThanCap | web/server.py:647-653 | The store never exceeds its cap. |
| ChallengeStore.SpendsAreIssuedAndInTime | web/server.py:656-660 | A successful spend is of a token issued less than a ttl ago that nobody asked for before. |
| ChallengeStore.SpentAtMostOnce | web/server.py:629-634 | Each token is spent at most once. |
| ChallengeStore.SpendInTimeSucceeds | web/server.py:643-660 | An unspent token in time is good however many were issued before it and fewer than cap after it. |
| ChallengeStore.RoomForTwo | web/server.py:643-660 | A store of two, in numbers: the third token displaces the oldest; the expired go first; at the moment of its expiry a token is worth nothing. |
| Releases.RankIs | web/server.py:678-718 | The key of a version tag: its components padded to twelve digits, then the mark that puts pre-releases first. |
| Releases.RankInFull | web/server.py:678-718 | The keys of v1.20-RC3 and V0.7, character for character. |
| Releases.RankOrder | web/server.py:678-718 | For tags with equally many components below 10^12, byte order of the keys is numeric order of the components, with every pre-release directly below its release. |
| Releases.PreReleasesInOrder | web/server.py:678-718 | Pre-releases of one version that differ only in a number at the end are ordered by that number: rc2 below rc10. |
| Releases.RankOrderMixed | web/server.py:716-718 | For different numbers of components: the common ones decide, and where they agree the shorter tag ranks above unless it is a pre-release. |
| Releases.VersionsThatGoBackwards | web/server.py:716-718 | So v1.0 ranks above v1.0.1. |
| BuildTable.DistinctBuilds | web/server.py:748-767 | Of several manifest entries with one digest only the first is kept. |
| BuildTable.FirstOnlyKeepsDigests | web/server.py:756-760 | No digest is lost and none is there twice. |
| BuildTable.FirstIsKept | web/server.py:756-760 | An entry with none of its digest before it is kept. |
| BuildTable.KeptIsFirst | web/server.py:756-760 | Nothing else is. |
| BuildTable.LoadedIs | web/server.py:1190-1206 | A reload replaces what that release published, each digest by a row of one of its builds under the release's rank, with the manifest's address and time; it touches no other release. |
| BuildTable.Store.AddVerifiedBuilds | web/server.py:1187-1206 | Loading a manifest is one such reload; each distinct entry then has exactly its own row, and the count is of distinct digests. |
| BuildTable.Store.ForgetRelease | web/server.py:1221-1225 | Exactly the rows of that release go. |
| BuildTable.TableIsPublished | web/server.py:1187-1225 | After any history the table holds what each release's last manifest published unless forgotten since, under the release's own rank. |
| BuildTable.NewestFor | web/server.py:215-218 | The query's answer: a row of the digest that no other row of it outranks, or nothing when there is none. |
| BuildTable.Store.ReleaseBuild | web/server.py:215-218 | A board row is labelled with such a release of the current history, or not at all when no manifest in force publishes the digest. |
| BuildTable.NewestIsHighestRank | web/server.py:209-218 | With distinct ranks a digest is named after the highest-ranked release that publishes it. |
| BuildTable.LoadOrderDoesNotMatter | web/server.py:209-218 | Histories that leave the same manifests in force name every digest alike: a newest release of the one is a newest of the other, and there is no second. |
| BuildTable.ForgettingExposesTheNext | web/server.py:1221-1225 | After forgetting, the name is the highest-ranked of the rest. |
| Utf8.CopyTrimmed | bench/src/bench.c:2439-2450 | What is copied is the whole string, or it up to the last byte position in room where no character is under way; always NUL-terminated, nothing beyond the capacity touched. |
| Utf8.TrimmedIsLongestWhole | bench/src/bench.c:2436-2450 | On UTF-8 text (RFC 3629) that is the longest prefix of whole characters that fits. |
| Submission.UrlEncode | bench/src/bench.c:2417-2434 | Succeeds exactly when the encoded text and its NUL fit, and then yields it. |
| Submission.DecodedIsOriginal | bench/src/bench.c:2413-2416 | Percent-decoding gives every byte string back (section 2.1 of RFC 3986). |
| Submission.EncodedIsQuerySafe | bench/src/bench.c:2413-2416 | Encoded text has only unreserved characters and percent signs (section 2.3). |
| Submission.TagIsKept | bench/src/bench.c:2489-2506 | The label is at most 200 bytes and ends in its tag; the tag is the whole variant in parentheses if and only if that is at most 29 bytes. |
| Submission.LabelKeepsWholeCharacters | bench/src/bench.c:2498-2499 | Before the tag stands the longest prefix of whole characters there is room for. |
| Submission.LabelIs | bench/src/bench.c:2489-2506 | The label in full: as many whole characters as 200 bytes less space and tag can hold, a space where there are any, and the tag, cut at 31 bytes; the notes, whole characters up to 2000 bytes. |
| Submission.QueryReads | bench/src/bench.c:2530-2533 | Splitting the query at its ampersands and decoding gives the label under "label" and the notes under "notes", and an empty text is left out. |
| Submission.BaseIs | bench/src/bench.c:2525-2526 | All trailing slashes of the address go, and nothing else. |
| Submission.WriteLabel | bench/src/bench.c:2493-2506 | The label buffer holds the trimmed label, a joining space where needed, and the tag. |
| Submission.SubmitText | bench/src/bench.c:2493-2533 | Encoding never fails, and with memory for it the URL says label and notes in full and fits its allocation with room to spare. |

## Left out

- The libc barrier and real pthread primitives: mutex and condition variable are atomic steps, waits may wake spuriously, and initialising them succeeds.
- A run with one worker: it has no barrier, and every crossing is a no-op (bench/src/bench.c:1514).
- A failed `pthread_create` and a failed `calloc` of the thread array, which end the process or the run before any crossing.
- The diagnostic sweep branch of `worker` (bench/src/bench.c:655-700): another list of phases over the same barrier.
- IEEE double rounding: numbers are reals, and `%.6g` is any rounding of relative error at most 5e-6. Clocks are arbitrary monotone functions of the reading.
- The clock columns (`mhz`, `mhz_src`) and the CPU number of a record: the consistency check does not read them, nor `mem_gbps`, `disp_cap` and `disp_gain`.
- Detection of a value edited to null: a term equal to the mean can drop out unnoticed, so no such claim is made.
- Memory is words and a pointer is the index of the word it points at; the alignment of links and the bytes of a buffer that do not fill a word are not modelled.
- `disp_kernel_free`, which restarts its sum on every call and so does not compose over batches.
- Walks.DispKernel: the four leaf operations are any operations, and the mask is the wrap-around at the end of one period.
- Sweeps.MemWarmup: the sink the sums are folded into is not modelled; it only keeps the loads alive.
- Reading the headers of a reply (`content_length`, `says_chunked`): the framing they announce is any function of the header block.
- CText.StrtoulReads: `unsigned long` is 32 bits wide here; wider ones differ only for sizes beyond every buffer.
- Replies.ReadReply: the header block is cut out by its length instead of by writing and restoring a NUL in front of its end.
- Replies.ParseBody: the status line and the location header are not read.
- Sockets, TLS through curl, temporary files and timeouts.
- PageSha.Sha256OfPage: messages of up to 2^31 - 73 bytes, beyond which the page's 32-bit size arithmetic no longer holds; the puzzle's are tens of bytes.
- ProofOfWork.SolveChallenge: giving the event loop a turn and reporting progress between slices.
- Locks and threads in the hub: calls take effect one at a time, with clock readings that do not run backwards in that order.
- RateLimit.RateLimiter.Sweep: which of the empty queues go first follows a dictionary's order in the code and is left open here.
- ChallengeStore.Challenges.Issue: tokens are taken to be fresh; their randomness is not modelled.
- Releases.RankOrder: tags are ASCII; other digits and case mappings are not modelled.
- Load order between releases of equal rank: those are told apart by when they were added.
- SQL and storage: the table is a map from digest and release to a row, and a query is answered from any order of rows.
- Reading a manifest beyond its duplicates: types, lengths and the schema name.
- The leaderboard, accounts, sessions, routing and pages of the hub, and host probing, pinning and code-generation flags of the benchmark.
- Printing an upload's outcome, and everything after the URL is built.
