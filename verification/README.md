# RTI Perftest: run protocol and bookkeeping

RTI Perftest measures latency and throughput between publishers and subscribers. The same
run protocol is written three times (traditional C++, C++11, C#). This project models that
protocol, the counters both sides keep and the algorithms that set a run up, and proves what
they promise over every run or every input.

`dafny verify dfyconfig.toml` checks everything.

## Where to look

| module | what it models | main result |
|---|---|---|
| SendLoop | the publisher's send loop and the size of its history array | ping `k` goes out at one closed-form loop index; the capacity against the number of pings, both roundings |
| PingPong | the reliable latency test as a transition system | no reachable state is stuck before `numIter` if and only if the configuration is answerable |
| Measurement | the same system | every value stored in a run is half the time from sending ping `k` to processing pong `k`, whatever the interleaving |
| Handshake | announcements, gate, FINISHED samples; many publishers and subscribers over a lossy data channel | no data before the gate; ends come after all loops; leaving on an empty set means all have ended |
| HandshakeProgress | the same system | every run can be brought to its end if and only if there are enough distinct subscriber ids |
| LatencyListener, Statistics | pong accumulators, capacity, reset, percentiles | what a run of pongs stores, and that the printed figures are those of the stored values |
| ThroughputListener, LossCounting | loss counting, finished list, end of test | independence of interleaving, lossless streams report nothing, the end happens once |
| Conservation | the summary at the end of a run with any number of publishers | received, missing and unreported packets add up to those sent, exactly up to 2^32 samples a publisher |
| AnnouncementListener | the set of active subscribers, as hash set and as list | the list behaves as the set |
| ContentFilter, InstanceWriter | key bytes, filter conditions, round robin over instances | the byte cascade is a numeric interval; a subscriber gets exactly its instances' samples |
| BatchConfig | batch size rules | batches hold two samples exactly when batching is on; latency tests get one |
| RateController | the `-pubRate` control loop | the delay converges by one step a check and stays |
| Clock, Messages | tick conversion, 32/32 timestamp | exact and monotone in 64 bits; an echo never looks like clock skew |
| CommandLine, Text, Sorting | the C++ option parser | rendering and parsing any assignments is the identity on their meaning |
| CpuAffinity | the list of cores per thread | parsing undoes printing, reversed ranges included, exactly without a range up to 2147483647 |
| MulticastAddress, Bytes | neighbouring multicast addresses | a single address is accepted exactly for consecutive multicast triples |
| FileDataLoader | payload from a file | the buffers are the beginning of the file exactly while lengths and offsets of its reads fit 32 bits, one case apart |
| Machine, Collections | fixed-width integers, division, finite sets | shared facts |

Where the sources update fields, arrays or vectors in place the model is a class or a method
with the same branches and loops, and its contract ties the state to a function of the
history; the theorems are about that function.

The C# copy is the base. Where a copy differs the model says so: `LatencyListener.Variant`
(width of a latency, order of the reset, whether clock skew still notifies),
`SendLoop.TraditionalNumLatency` and `SendLoop.CSharpNumLatency` (rounding of the history
size), `SendLoop.Stalls` (the C# loop skips an iteration when it compares its rate and the clock did
not move), and the two announcement listeners (hash set, list).

What the code does where its comments or documentation say otherwise:

- A payload of 1235 bytes is taken for the end of the test (`Handshake.DataTakenForFinished`),
  and one of 1234 or 1235 bytes is never answered as a ping (`PingPong.Answerable`).
- The C# history array can be one slot short, and exactly when is `SendLoop.CSharpCapacitySufficesIff`.
  No pong is lost by that, because the reset on the first pong frees a slot; with an empty payload
  there is no reset and the test does get stuck (`PingPong.EmptyPayloadGetsStuck`).
- A history size that the cut to 32 bits turns into 0 leaves no array at all. Pongs are counted all the
  same, and the final summary then fails in its sort (`LatencyListener.RunAndSummarize`,
  `PingPong.SummaryFailsIff`).
- The C# loop's skipped iteration loses its sample and shifts the batch position, which can cost
  a ping (`SendLoop.StallLosesPing`), so the schedule holds exactly without skips.
- The carry loop is documented to fail for 255.255.255.255. It succeeds, because the carry lands
  in a byte in front of the IPv4 part, and the result reads back as 0.0.0.0
  (`MulticastAddress.NextAddsOne`). No accepted argument is affected
  (`MulticastAddress.SingleAddressRule`).
- A range of cores that ends at 2147483647 overflows its loop variable (`CpuAffinity.TopRangeOverflows`), so
  printed lists come back exactly without such ranges (`CpuAffinity.ListRoundTrip`).
- The content filter treats key 65535 as the wildcard, so it separates instances exactly for up to
  65535 of them (`InstanceWriter.FilterExactIffIdsBelowWildcard`).
- Lengths and offsets of reads from the payload file are cut to 32 bits. With the buffer limit raised
  above the default the buffers can repeat the beginning of the file, stay partly unread, or be too
  short for what is read; exactly when is `FileDataLoader.BuffersAreFilePrefixIff`.

The reading of AND and OR in filter conditions is that of Annex B of OMG DDS 1.4; multicast
ranges are those of section 4 of RFC 1112 and section 2.7 of RFC 4291.

## Model

| member | source | states |
|---|---|---|
| SendLoop.Run | srcCs/Perftest.cs:1048-1178 | the loop with its batch position, ping position and flag writes exactly the scheduled samples, for every configuration and any early end, whenever no rate is set or the clock moves between checks |
| SendLoop.IterateKeepsSchedule | srcCpp/perftest_cpp.cxx:2326-2394 | one iteration from the closed-form state leads to the closed-form state, and waits exactly when this batch has had its ping |
| SendLoop.PingsBeforeCounts | srcCpp/perftest_cpp.cxx:2326-2394 | the count of pings before index `n` and the index of ping `k` are inverse to each other |
| SendLoop.OnePingPerEligibleBatch | srcCpp/perftest_cpp.cxx:2330-2364 | ping `k` falls in batch `k * latencyCount` at position `k mod samplesPerBatch`, one per eligible batch |
| SendLoop.TraceIsScheduled | srcCs/Perftest.cs:1048-1178 | by induction over the run: locals and samples are on schedule at every index |
| SendLoop.SamplesAreNumbered | srcCs/Perftest.cs:1048-1178 | every sample carries its loop index, cut to 32 bits, also when indices are skipped, and asks for an answer only from publisher 0 in an eligible batch |
| SendLoop.ScheduleHoldsIffNeverStalled | srcCs/Perftest.cs:1054-1063 | the samples written are the scheduled ones if and only if no index read a zero time delta |
| SendLoop.HundredChecks | srcCs/Perftest.cs:1029-1040 | the period between comparisons of the rate makes a hundred checks a second, or one a sample for rates below a hundred |
| SendLoop.StallLosesPing | srcCs/Perftest.cs:1059-1062 | a concrete skipped index that costs a ping |
| SendLoop.OtherPublishersNeverPing | srcCs/Perftest.cs:1113 | publishers other than 0 never ask for an answer |
| SendLoop.TargetsRotate | srcCs/Perftest.cs:1129 | pings rotate over the subscribers exactly until the 32-bit counter turns negative, with the divisibility exceptions |
| SendLoop.TargetsNonNegativeIff | srcCs/Perftest.cs:1129 | the pings of a run of any length name a subscriber under exactly that condition |
| SendLoop.TraditionalCapacityIsTight | srcCpp/perftest_cpp.cxx:1924-1936 | the C++ history size equals the pings of a full run, or is one more, and says when |
| SendLoop.CSharpCapacityWithinOne | srcCs/Perftest.cs:851-863 | pings never exceed the C# history size by more than one |
| SendLoop.CSharpCapacitySufficesIff | srcCs/Perftest.cs:851-863 | the C# array has a slot for every ping of a run if and only if its size fits 32 bits and not (one sample a batch, a last ping left over, whole part dividing evenly) |
| SendLoop.TraditionalCapacitySufficesIff | srcCpp/perftest_cpp.cxx:1924-1936 | the C++ array has a slot for every ping if and only if its size fits the 32 bits it is passed through |
| SendLoop.CSharpCapacityFallsShort | srcCs/Perftest.cs:851-863 | the two ways of falling short, by inputs: four pings for three slots, and a size cut to five |
| Messages.StampRoundTrip | srcCs/Perftest.cs:1130-1132 | splitting a 64-bit reading over a signed and an unsigned 32-bit field and joining it loses nothing |
| Messages.JoinedFields | srcCs/Harness/LatencyListener.cs:90-92 | the two fields are the halves of one number, a negative high half read as unsigned |
| PingPong.EchoesLikeTheListener | srcCs/Harness/ThroughputListener.cs:90-134 | the echo rule of the transition system is what the subscriber's listener does |
| PingPong.MoveKeepsInv | srcCs/Perftest.cs:1146-1178 | every send, echo, pong and semaphore take keeps: one ping in flight at most, in order, and the count of answers |
| PingPong.NeverStuckIffAnswerable | srcCs/Perftest.cs:1048-1178 | over every interleaving: no reachable state is stuck before the last sample if and only if payload size, batch, ping counter and history size allow it |
| PingPong.AnswerableMeansAllReturn | srcCs/Harness/LatencyListener.cs:109-182 | the closed condition on the configuration is that every single sample gets its answer |
| PingPong.RunsAreBounded | srcCs/Perftest.cs:1048-1178 | no run is longer than the work it starts with |
| PingPong.RunToTheEnd | srcCs/ConnextDDS/RTIWriter.cs:93-131 | every run extends to one that can go no further |
| PingPong.EveryMaximalRunCompletes | srcCs/Perftest.cs:1048-1178 | in an answerable test such a run has sent all samples and had every ping answered |
| PingPong.AnswersMatchPings | srcCs/ConnextDDS/RTIWriter.cs:93-131 | at the loop head pongs processed equal pings sent and the semaphore is down; while waiting they differ by one at most |
| PingPong.OnePingInFlight | srcCs/Harness/ThroughputListener.cs:128-134 | a message that can still release the semaphore is in exactly one place, and only while the publisher waits |
| Measurement.StoredLatencyIsMeasured | srcCs/Harness/LatencyListener.cs:90-136 | over every interleaving: the value stored when pong `k` is processed is half the time since ping `k` was sent, in order, behind the values before it |
| Measurement.LiveIsLast | srcCs/Perftest.cs:1126-1178 | in every reachable state a message that can still release the semaphore carries the clock reading of the last send |
| PingPong.ConfiguredTestsAreAnswerable | srcCs/Perftest.cs:851-863 | one sample per batch, a data payload and 31-bit counts suffice; the C# copy also needs a nonempty payload |
| PingPong.NoPongIsDropped | srcCs/Harness/LatencyListener.cs:110-159 | with or without batches, no pong of a run is answered "too many", although the C# array may be one slot short |
| PingPong.NoPongIsDroppedIff | srcCs/Harness/LatencyListener.cs:112-118 | exactly when every pong of every run notifies, in terms of capacity and number of pings |
| PingPong.SummaryFailsIff | srcCs/Harness/LatencyListener.cs:219-224 | the final summary of equal-size pongs fails exactly when the history size was cut to 0 and a pong was counted, which 2^32 pings bring about in both copies |
| PingPong.EmptyPayloadGetsStuck | srcCs/Harness/LatencyListener.cs:110-159 | an empty payload in the C# copy is a configuration that gets stuck |
| Handshake.RunInvs | srcCs/Perftest.cs:714-770 | every move of publishers (lines 964-1009, 1186-1203) and subscribers keeps: known ids were announced, FINISHED samples come from publishers that left, channels deliver in order |
| Handshake.NothingSentBeforeTheGate | srcCs/Perftest.cs:964-972 | in every state of every run, nothing has been written unless `numSubscribers` distinct ids have announced |
| Handshake.EndsAfterLoopsIff | srcCs/Harness/ThroughputListener.cs:96-126 | for every setup: subscribers announce their end only after every publisher left its loop, in every run, if and only if no publisher's payload is 1235 bytes or there are too few distinct ids to start |
| Handshake.LeavesCleanlyIff | srcCs/Perftest.cs:1186-1203 | for every setup: leaving on an empty set means that all subscribers have ended, in every run, if and only if there are no more subscribers than awaited or too few distinct ids to start |
| Handshake.LeavingEmptyMeansAllEnded | srcCs/Perftest.cs:1186-1203 | under that condition, in every state of every run |
| Handshake.LeavesAfterAllIff | srcCs/Perftest.cs:1186-1203 | for every setup: when a publisher leaves on an empty set every publisher has left its loop, in every run, if and only if no payload is 1235 bytes, or there are too few ids to start, or only one publisher |
| Handshake.NoDataAfterLeavingEmpty | srcCs/Perftest.cs:1186-1203 | under that condition every later state of the run adds FINISHED samples only |
| HandshakeProgress.EveryRunCanEndIff | srcCs/Perftest.cs:1180-1203 | for every setup: every run, whatever was lost, repeated or said before, goes on to a state in which all subscribers have ended and all publishers left, if and only if there are as many distinct ids as awaited |
| HandshakeProgress.NextMove | srcCs/Perftest.cs:755-770 | before that state some move is possible that brings it nearer |
| Handshake.GateStaysShutIff | srcCs/Perftest.cs:964-972 | for every setup: no run passes a gate if and only if there are fewer distinct subscriber ids than awaited |
| Handshake.DataTakenForFinished | srcCpp/perftest_cpp.cxx:957-994 | in every setup with such a payload and enough ids, a reachable state in which a data sample has ended a subscriber |
| Handshake.ExtraSubscriberLeftBehind | srcCs/Perftest.cs:1186-1203 | in every setup outside that condition, a reachable state in which a publisher has left on an empty set and a subscriber has not begun |
| AnnouncementListener.Listener.ProcessMessage | srcCs/Harness/AnnouncementListener.cs:26-39 | the active set gains announced ids and loses finished ones |
| AnnouncementListener.ListListener.ProcessMessage | srcCpp/perftest_cpp.cxx:1423-1453 | the C++ list stays free of duplicates, has the same members as the set, and its length is the set's size |
| AnnouncementListener.ActiveIffAnnounced | srcCs/Harness/AnnouncementListener.cs:26-39 | after any messages exactly those ids are active whose last word is an announcement |
| LatencyListener.Listener.ProcessMessage | srcCs/Harness/LatencyListener.cs:72-182 | control, skew, capacity and reset branches of both copies; keeps sum, sum of squares (modulo 2^64), min, max, count and array equal to those of the stored latencies |
| LatencyListener.Listener.Record | srcCpp/perftest_cpp.cxx:1804-1865 | stores one latency and moves every accumulator, or reports a full array and changes nothing |
| LatencyListener.Listener.PrintSummaryLatency | srcCs/Harness/LatencyListener.cs:193-244 | nothing to print, a failing sort of a missing array, or the figures of the stored values: for each percentile, counted in the stored values, at most that share lies below it and more than that share is at most it; in order between min and max, variance argument not negative, and a reset |
| LatencyListener.RunAndSummarize | srcCs/Harness/LatencyListener.cs:46-59 | from constructor to summary over any pongs: it fails exactly when the size handed to the constructor is 0 and a pong was counted |
| LatencyListener.SteadyRunStores | srcCs/Harness/LatencyListener.cs:110-159 | a run of equal-size pongs stores the latencies after the first, up to the capacity, in both copies |
| LatencyListener.SteadyRunMeasures | srcCs/Harness/LatencyListener.cs:92-99 | each stored number is half the round trip of its own pong, rounded down, where the round trip fits the width of the copy (32 bits in C#, 64 in C++), and else half of what the width leaves of it |
| LatencyListener.StampedPongMeasures | srcCpp/perftest_cpp.cxx:1804-1807 | a pong stamped at one clock reading and handled at another stores half the difference |
| LatencyListener.GrowthMeasures | srcCs/Harness/LatencyListener.cs:90-159 | whatever makes the history grow adds half the round trip of that message at its end |
| LatencyListener.FuturePong | srcCs/Harness/LatencyListener.cs:101-107 | a pong from the future is counted as skew and stores nothing; the C# copy does not notify, the traditional one does and has emptied its counters if the size is new |
| LatencyListener.NewSizeSwallows | srcCs/Harness/LatencyListener.cs:110-159 | a pong of a new size leaves an empty history of that size, except that a full C# history refuses it first |
| LatencyListener.ControlIgnored | srcCs/Harness/LatencyListener.cs:85-88 | control messages change and notify nothing |
| LatencyListener.DroppedPongs | srcCs/Harness/LatencyListener.cs:112-118 | pong `j` notifies exactly while `j` is below the capacity plus the swallowed first pong |
| Statistics.VarianceNonNegative | srcCpp/perftest_cpp.cxx:1615-1618 | count times the sum of squares is at least the squared sum |
| Statistics.TruncatedVarianceNonNegative | srcCs/Harness/LatencyListener.cs:221-224 | so also with the two integer divisions of the C# copy |
| LatencyListener.WrappedVarianceNegative | srcCs/Harness/LatencyListener.cs:223-224 | five latencies for which the 64-bit sum of squares wraps and the argument is negative |
| Statistics.PercentilesInOrder | srcCppCommon/PerftestPrinter.cxx:125-131 | the five percentiles are in order between the minimum and the maximum |
| Statistics.ReadsArePercentiles | srcCppCommon/PerftestPrinter.cxx:125-131 | the five reads of the sorted history are the 50, 90, 99, 99.99 and 99.9999 percentiles of the stored values, by counting them |
| ThroughputListener.Listener.ProcessMessage | srcCs/Harness/ThroughputListener.cs:80-174 | all branches; keeps packets, bytes, missing count and last-sequence array equal to those of the logged samples |
| ThroughputListener.EchoRule | srcCs/Harness/ThroughputListener.cs:82-134 | what is written back: initialization always, the end and unknown publishers never, a data sample exactly if it names this subscriber, or with a filter exactly if it is a ping at all |
| ThroughputListener.EndStartsOver | srcCpp/perftest_cpp.cxx:1109-1114 | the end of a test starts the counters again and forgets the last number of publisher 0 only |
| ThroughputListener.Listener.CountMissing | srcCpp/perftest_cpp.cxx:1024-1039 | one sample adds its forward gap to the missing count, with 0 as "unset" |
| ThroughputListener.Listener.Advance | srcCs/Harness/ThroughputListener.cs:159-173 | the increment-and-compare on one last number counts exactly the skipped numbers and stores the new one |
| ThroughputListener.Listener.PrintSummaryThroughput | srcCs/Harness/ThroughputListener.cs:190-262 | freezes the interval unless this size was summarized, counts the tail from the FINISHED sample's number, resets publisher 0 only |
| LossCounting.FinishedListIsExact | srcCs/Harness/ThroughputListener.cs:96-126 | after any messages: the list holds distinct known ids, exactly those whose FINISHED arrived; the test ends exactly when that is everyone, with one summary |
| LossCounting.NothingMovesAfterTheEnd | srcCpp/perftest_cpp.cxx:963-994 | after the end no message changes the interval, the list, the flag or the number of summaries |
| LossCounting.MissingIsSumOfGaps | srcCs/Harness/ThroughputListener.cs:156-173 | the missing count of an interleaved log is the sum of each publisher's own gaps |
| LossCounting.InterleavingDoesNotMatter | srcCs/Harness/ThroughputListener.cs:156-173 | two interleavings of the same streams report the same loss |
| LossCounting.LosslessReportsNothing | srcCpp/perftest_cpp.cxx:2368 | streams received whole report 0, across wraps of the 32-bit number |
| LossCounting.MissingOfInterleavedStreams | srcCs/Harness/ThroughputListener.cs:136-174 | the three facts above for the listener itself, on data of one size |
| Conservation.EndOfRunConservation | srcCs/Harness/ThroughputListener.cs:190-218 | any number of publishers, interleaving, payload sizes, control messages, times and losses, also when nothing arrives: received, missing and unreported add up to the samples sent, and what is unreported is named per publisher |
| Conservation.ConservationHoldsIff | srcCpp/perftest_cpp.cxx:2368 | that holds in every run with those numbers of samples if and only if no publisher sends more than 2^32 |
| Conservation.LossConservation | srcCpp/perftest_cpp.cxx:1024-1064 | one publisher: received plus missing is the number sent less exactly those lost ahead of the first nonzero number; the report never exceeds the loss |
| Conservation.SummaryOfRun | srcCpp/perftest_cpp.cxx:1047-1064 | the frozen figures, with a filter or without: packets and bytes since the size last changed, the gaps, and the tail of the publisher that finished last; nothing missing under a filter; zeros if nothing arrived |
| Conservation.TimeOfRun | srcCs/Harness/ThroughputListener.cs:136-150 | the frozen time runs from the sample with which the last payload size came to the end of the test |
| Conservation.LogSince | srcCs/Harness/ThroughputListener.cs:136-150 | what is counted is all data from that sample on |
| ContentFilter.DecodeEncode | srcCpp11/RTIDDSImpl.cxx:640-642 | decoding an encoded key gives the number modulo the width |
| ContentFilter.EncodeDecode | srcCpp11/RTIDDSImpl.cxx:601-613 | encoding a decoded key gives the key back, at any width |
| ContentFilter.EncodedByte | srcCpp11/RTIDDSImpl.cxx:640-642 | byte `c` of a key is the byte cast of the number shifted by `8 * c` |
| ContentFilter.CascadeIsOrder | srcCpp11/RTIDDSImpl.cxx:2030-2052 | both cascades of byte comparisons are the order of the numbers, at any width |
| ContentFilter.RangeConditionMeansInterval | srcCpp11/RTIDDSImpl.cxx:2030-2052 | at any width the condition holds for the encoding of `i` exactly when `i` is in the interval or the wildcard |
| ContentFilter.RangeTextIsCascade | srcCpp11/RTIDDSImpl.cxx:2035-2051 | the written-out condition is the cascade at four bytes |
| ContentFilter.FilterAcceptsInterval | srcCs/ConnextDDS/RTIDDSImpl.cs:928-974 | the installed filter, short or long, accepts exactly start to end and 65535, for all 32-bit values |
| InstanceWriter.Writer.Send | srcCs/ConnextDDS/RTIWriter.cs:45-78 | the keys handed to the middleware are those of the send history, whatever mix of data and wildcard sends |
| InstanceWriter.TurnsAreKept | srcCs/ConnextDDS/RTIWriter.cs:50-65 | data sample `i` has key `i mod n`, control messages 65535 |
| InstanceWriter.TurnsKeptExactly | srcCs/ConnextDDS/RTIWriter.cs:54 | how many sends the signed 64-bit counter keeps that up: 2^63, or one more if `n` divides it |
| InstanceWriter.KeysPerInstance | srcCpp11/RTIDDSImpl.cxx:627-638 | each instance is written as often as its turn comes up |
| InstanceWriter.InstancesStayBalanced | srcCpp11/RTIDDSImpl.cxx:627-638 | no instance is ahead of another by more than one, and lower ones are never behind |
| InstanceWriter.SubscriberGetsItsInstances | srcCpp11/RTIDDSImpl.cxx:616-648 | a subscriber filtering start to end receives, in order, all control messages and exactly the data samples whose turn falls in the range |
| InstanceWriter.FilterExactIffIdsBelowWildcard | srcCpp11/RTIDDSImpl.cxx:2037-2052 | data samples are separated exactly if and only if there are at most 65535 instances |
| InstanceWriter.FixedInstanceReaches | srcCs/ConnextDDS/RTIWriter.cs:56-59 | a writer bound to one instance reaches exactly the subscribers whose range holds it, or all if that is 65535 |
| InstanceWriter.SingleInstanceRun | srcCs/ConnextDDS/RTIWriter.cs:45-66 | with one instance or none every data sample has key 0, whatever instance was asked for |
| InstanceWriter.PingAnsweredByRange | srcCs/Harness/ThroughputListener.cs:128-134 | writer, filter and listener together: a ping is answered exactly by the subscribers whose range holds its turn, whatever id it names |
| InstanceWriter.PingAnsweredOnce | srcCpp11/RTIDDSImpl.cxx:2030-2052 | so it is answered once if the ranges do not overlap at its turn |
| BatchConfig.Implementation.ParseConfig | srcCs/ConnextDDS/RTIDDSImpl.cs:561-578 | negative sizes and explicit batching in a latency test are refused (the default comes from lines 404-415), otherwise a latency test gets 0 |
| BatchConfig.Implementation.Configure | srcCs/ConnextDDS/RTIDDSImpl.cs:1041-1048 | both sets of rules in turn refuse, or settle on, what the closed form says of the request |
| BatchConfig.Implementation.DataSizeRelatedCalculations | srcCs/ConnextDDS/RTIDDSImpl.cs:190-260 | large data, too small batches and a set rate switch batching off with their own codes, or refuse, as does turbo mode with asynchronous writing; the burst follows from the result |
| BatchConfig.RefusedIff | srcCs/ConnextDDS/RTIDDSImpl.cs:190-250 | a configuration is refused exactly for asynchronous turbo mode or an explicit size that is negative, or meant for a latency test or for large data |
| BatchConfig.SizesTellReasons | srcCs/ConnextDDS/RTIDDSImpl.cs:190-242 | the settled size is the wanted one or 0, -1, -2 or -4, each for exactly one reason |
| BatchConfig.BatchesHoldTwoIffOn | srcCs/Perftest.cs:1253-1272 | batching ends up on exactly when asked for, fitting and not ruled out, exactly then a batch holds two samples or more, else one |
| BatchConfig.BatchHolds | srcCs/Perftest.cs:1253-1272 | a batch counts as many samples as fit into it, or one |
| BatchConfig.SettlingIsStable | srcCs/ConnextDDS/RTIDDSImpl.cs:190-260 | applying the rules to their own result changes nothing |
| BatchConfig.LatencyTestsAreAnswerable | srcCs/ConnextDDS/RTIDDSImpl.cs:561-578 | a configured latency test has one sample per batch and meets the condition under which it cannot get stuck |
| BatchConfig.BurstFillsSendQueue | srcCs/ConnextDDS/RTIDDSImpl.cs:155-188 | the initial burst is at least 50 and fills the send queue in samples or batches, up to the 31-bit limit |
| BatchConfig.BurstIsLeast | srcCs/ConnextDDS/RTIDDSImpl.cs:155-188 | and is no larger than that needs |
| RateController.Run | srcCpp/perftest_cpp.cxx:2280-2311 | the loop applies one correction per period, as many as the closed form says |
| RateController.NextCheck | srcCpp/perftest_cpp.cxx:2283 | a check is made at exactly the positive multiples of the period |
| RateController.CheckDecides | srcCpp/perftest_cpp.cxx:2287-2311 | in clock readings: the delay rises by a step exactly if the period was too short even for one sample a second more, falls by one, down to zero, exactly if it was too long, else stays; a clock that did not move counts as a microsecond |
| RateController.AdjustSaturates | srcCpp/perftest_cpp.cxx:2294-2310 | the unsigned subtraction never underflows: it is subtraction cut at zero |
| RateController.DelayConverges | srcCpp/perftest_cpp.cxx:2283-2311 | whenever some delay balances the times between checks, the distance to it shrinks by a full step each check until it is at most one step, and stays so |
| RateController.DelaySaturatesAtZero | srcCpp/perftest_cpp.cxx:2299-2308 | if even the bare loop is too slow the delay runs down to zero and stays |
| Clock.SplitIsFloor | srcCs/Perftest.cs:1225-1233 | converting seconds and remainder apart is the floor of the exact time |
| Clock.ConversionIsExact | srcCs/Perftest.cs:1225-1233 | with every intermediate wrapped to 64 bits, that holds wherever the result and one second's remainder fit |
| Clock.TimeIsMonotone | srcCs/Perftest.cs:1225-1233 | later ticks never read as earlier microseconds |
| Clock.NanosecondClockIsExact | srcCs/Perftest.cs:1225-1233 | with a nanosecond stopwatch there is no tick value for which it fails |
| Clock.EchoNeverSkews | srcCs/Harness/LatencyListener.cs:90-107 | a pong stamped and handled by the same process never takes the clock-skew exit |
| CommandLine.Match | srcCppCommon/ParameterManager.h:30 | the first option, in key order, of which the argument is a case-insensitive prefix |
| CommandLine.PrefixInEitherCase | srcCppCommon/ParameterManager.h:30 | the prefix test compares letter by letter, in either case, and other characters as they are |
| CommandLine.OptionsFindThemselvesIff | srcCppCommon/ParameterManager.h:30 | every option finds itself if and only if an option that is a prefix of another has the smaller key |
| CommandLine.ParameterManager.Parse | srcCppCommon/ParameterManager.cxx:1616-1787 | the two loops over arguments and parameters leave the verdict and values of the recursive reading |
| CommandLine.Take | srcCppCommon/ParameterManager.cxx:1656-1778 | the value of one option, by type, with the number registers that keep old content after a failed read |
| CommandLine.StoreUndoesRender | srcCppCommon/ParameterManager.cxx:1656-1778 | a rendered value of any type is stored as the value it was, and accepted exactly if it lies in its bounds or among the valid words |
| CommandLine.VerdictIsExact | srcCppCommon/ParameterManager.cxx:1616-1787 | on any sequence of well-typed assignments parsing succeeds if and only if every number is in its bounds and every word is a valid one, and leaves their effect either way |
| CommandLine.RefusedFails | srcCppCommon/ParameterManager.cxx:1616-1787 | unknown options, missing values, values without digits and pairs without two parts are refused, whatever follows |
| CommandLine.RefusedAnywhere | srcCppCommon/ParameterManager.cxx:1616-1787 | also behind any well-typed assignments |
| CommandLine.LongNumbersSaturate | srcCppCommon/ParameterManager.cxx:1656-1700 | a number too long for its width is read as the largest |
| CommandLine.NegativeNumbers | srcCppCommon/ParameterManager.cxx:1656-1700 | a negative number is read as it is by signed widths, and wraps for the unsigned one |
| CommandLine.UnreadKeepsOld | srcCppCommon/ParameterManager.cxx:1666-1712 | a number that cannot be read fails, and stores what its register held before |
| CommandLine.IgnoredValues | srcCppCommon/ParameterManager.cxx:1712-1745 | a flag, a vector of words to be split and one of numbers not to be split ignore their values |
| CommandLine.ParseUndoesRender | srcCppCommon/ParameterManager.cxx:1616-1787 | rendering any sequence of fitting assignments and parsing it succeeds with exactly their effect |
| CommandLine.CommandLineRoundTrip | srcCppCommon/Parameter.h:230-240 | afterwards every scalar has its last value, every vector is the sorted collection of all its values without defaults, others are untouched |
| Text.CutsUndoJoin | srcCppCommon/ParameterManager.cxx:1921-1936 | cutting a joined text with either `strtok` or line reading gives the parts back |
| Text.TokensOfJoin | srcCppCommon/ParameterManager.cxx:1921-1936 | `strtok` gives all nonempty parts of any text between delimiters |
| Text.LinesOfJoin | srcCppCommon/ThreadCPUAffinity.h:30-34 | line reading gives all parts of any text, less an empty last one |
| Text.ReadDecimal | srcCppCommon/ParameterManager.cxx:1667 | reading a printed number gives the number |
| Text.ReadInContext | srcCppCommon/ParameterManager.cxx:1667 | blanks in front are skipped, a sign is taken, anything behind the digits is ignored |
| Sorting.SortOrders | srcCppCommon/Parameter.h:237 | the sorted vector is ordered and has the same elements, for any total order |
| CpuAffinity.ParseCoreList | srcCppCommon/ThreadCPUAffinity.h:30-48 | the loops over tokens and ranges compute what the list means, fail with the first bad number, or overflow in a range up to 2147483647 |
| CpuAffinity.ThreadCPUAffinity.ParseAffinities | srcCppCommon/ThreadCPUAffinity.h:67-94 | exactly four good lists set all fields; the first list that is not decides, leaves those before it in place and the rest alone |
| CpuAffinity.BadTokenThrows | srcCppCommon/ThreadCPUAffinity.h:30-48 | a list fails at its first token of which some part is no number or no int |
| CpuAffinity.SignedNumbers | srcCppCommon/ThreadCPUAffinity.h:36-45 | a signed number is read exactly while it is an int |
| CpuAffinity.ListRoundTrip | srcCppCommon/ThreadCPUAffinity.h:30-48 | parsing a printed list gives the concatenated expansions if and only if no range goes up to 2147483647, and overflows otherwise |
| CpuAffinity.TopRangeOverflows | srcCppCommon/ThreadCPUAffinity.h:40 | a list that overflows |
| CpuAffinity.AffinityRoundTrip | srcCppCommon/ThreadCPUAffinity.h:67-89 | four printed lists joined by colons are accepted and each comes back in its own field, under exactly that condition |
| CpuAffinity.ReversedRangesParseAlike | srcCppCommon/ThreadCPUAffinity.h:37-42 | turning ranges round changes nothing |
| MulticastAddress.IncreaseAddressByOne | srcCpp/PerftestTransport.cxx:305-361 | the in-place carry loop, with its limit at byte 9, is the successor of the byte string |
| MulticastAddress.NextAddsOne | srcCpp/PerftestTransport.cxx:322-344 | the result is one higher; fails only for the last IPv6 address; for IPv4 wraps at 2^32 instead of failing |
| MulticastAddress.ParseMulticastAddresses | srcCpp/PerftestTransport.cxx:391-473 | three addresses are taken as they are, one is extended, anything else or non-multicast is refused |
| MulticastAddress.SingleAddressRule | srcCpp/PerftestTransport.cxx:420-473 | one address is accepted exactly when it and its two successors are multicast: for IPv4 from 224.0.0.0 to 239.255.255.253; the topics get `a`, `a+1`, `a+2` |
| Bytes.SuccessorAddsOne | srcCpp/PerftestTransport.cxx:326-338 | the successor of a big-endian byte string is its number plus one, absent only for all 255 |
| FileDataLoader.ReadFile | srcCpp/Infrastructure_common.cxx:304-348 | what a window read writes, where it stops, what it reports and what it leaves alone |
| FileDataLoader.Loader.Initialize | srcCppCommon/FileDataLoader.cxx:4-118 | sizes and verdict in every case; loaded buffers fit the limit and the file, hold their windows, and are the file's first bytes under the exact condition |
| FileDataLoader.Loader.LoadFileIntoBuffers | srcCppCommon/FileDataLoader.cxx:121-151 | every buffer is filled from its own window, length and offset cut to 32 bits, and no window passes the end of the file |
| FileDataLoader.BuffersAreFilePrefixIff | srcCppCommon/FileDataLoader.cxx:129-148 | loading stays inside its buffers and leaves the file's first bytes in them, whatever the file and the memory before, if and only if neither length nor last offset is cut, or one buffer of a multiple of 4 GiB is the whole file |
| FileDataLoader.SmallLimitIsSound | srcCppCommon/FileDataLoader.cxx:98-107 | any limit below 4 GiB, as the default is, meets that condition |
| FileDataLoader.BufferSizeRule | srcCppCommon/FileDataLoader.cxx:50-97 | without a payload length one buffer as large as file and limit allow; with one, the payload less 28 bytes of overhead |
| FileDataLoader.PublishRun | srcCpp/perftest_cpp.cxx:2370-2372 | data sample `k` carries buffer `(k + 1) mod n`, one buffer having been fetched at line 2098 |

## Left out

- DDS entities, QoS, discovery waits, security and transports: library calls; the model keeps only what channels deliver.
- Printers, configuration summaries and help texts: text layout only; the percentile reads are kept.
- The execution-time limit and interrupts in the latency test: they only end a run early; `SendLoop.Run` has them as an early end.
- Best-effort latency tests, which wait at most 200 ms for an answer and so cannot get stuck.
- FlatData, Zero Copy, DynamicData and custom types: the same protocol through other sample types.
- The Python benchmark, spin calibration, CPU monitor, thread priorities and native affinity calls.
- The shared-memory segment search and the JSON layout of the output.
- When the handshake ends, as opposed to that it can: that depends on library delivery and on discovery waits.
- The traditional C++ subscriber's repeated announcements: the model follows the C# subscriber, which announces once.
- PingPong.NeverStuckIffAnswerable: models publisher 0 with its subscribers, without a content filter; other publishers never ping and do not touch its semaphore.
- PingPong.ConfiguredTestsAreAnswerable: one direction only, as a readable corollary; the exact condition is in PingPong.NeverStuckIffAnswerable.
- LatencyListener.Listener.PrintSummaryLatency: averages are exact integers, not floating point, and the sort is modelled by its result.
- ThroughputListener.Listener.Advance: counters are unbounded; the 64-bit ones of the sources cannot overflow in a run, but a platform with 32-bit `unsigned long` would wrap at the last sequence number.
- InstanceWriter.TurnsKeptExactly: the signed counter of the C# copy; the C++ counter is unsigned and wraps later.
- RateController.Run: the C++ loop; the C# loop makes no correction in an iteration whose clock did not move, and skips its sample (SendLoop.ScheduleHoldsIffNeverStalled).
- RateController.DelayConverges: asks that the times between checks behave as if one balance delay existed during the checks considered; with none there is nothing to converge to.
- FileDataLoader.Loader.Initialize: where the read would pass the end of its buffer the model stops with that outcome; what the memory behind the buffer then holds is not modelled.
- CpuAffinity.AddToken: what happens after the loop variable of a range overflows is not defined by the language and ends the model with that outcome.
- MulticastAddress.IncreaseAddressByOne: text conversion and the multicast and family tests belong to the NDDS library, which is not part of this model; they are modelled by the address formats they document.
- CommandLine.Take: numbers out of range follow the common behaviour of `sscanf` (saturating, or wrapping when negative), which the language leaves open.
- CommandLine.CommandLineRoundTrip: says nothing of the one parameter with an optional argument beyond CommandLine.ParseUndoesRender, which covers it.
