# A verified model of brubeck

Brubeck is a multi-threaded statsd aggregator: sampler threads parse UDP packets and record
values into metrics, backend threads walk the metrics once per period and send aggregates to
carbon. This project models the parts of it whose correctness does not depend on the
operating system, and proves what they promise.

| files | part of the program |
|---|---|
| `Registry`, `RegistrySafety`, `RegistryRuns`, `RegistryPushes`, `RegistryCalls` | metric lookup and creation, the lock-free backend lists, and the walk over them, as a step system with one program counter per thread; every shared access is a step of its own and steps interleave arbitrarily |
| `Pickle`, `PickleBytes`, `CarbonStream`, `CarbonConnections`, `CarbonBackend` | the pickling carbon backend: a pickle stack machine as the specification, the backend as an event system with its peer, and the code itself (fixed buffer, two 16-bit cursors, a socket with short writes) refining it |
| `Bloom`, `BloomPositions`, `ReplayWindow`, `StatsdSecure` | the rolling replay filter: bits refine sets, sets refine a window over whole runs of calls |
| `Bits`, `Decimal`, `FloatPrinting`, `FloatMeaning`, `NumberRoundTrip` | number printing: `brubeck_itoa`, `brubeck_ftoa`, and reading their output back |
| `StatsdGrammar`, `StatsdLines`, `StatsdSampler`, `StatsdPacket` | the statsd parser: the grammar, the in-place parser over a NUL-terminated buffer, and the packet splitter on the same buffer |
| `OrderStatistics`, `Histogram`, `HistogramReports`, `Accumulators`, `Slab` | histograms, meters, counters, and the slab allocator |
| `Arith`, `Sums`, `Words`, `Wrappers` | what the others share: integer arithmetic, sums, word sizes, optional values |

Code that updates state in place is a class or a method over an array; each such method is
proved equal to a function of the old state, and the theorems are about those functions and
about runs of them.

## Findings

Some things hold only under a condition. Each is proved as an equivalence or with a concrete run.

- A key of more than 255 bytes reaches carbon cut to its length modulo 256 (`CarbonStream.KeyExact`).
- A timestamp of 2^31 or more is read back as a negative number (`Pickle.TimestampExact`).
- `brubeck_ftoa` prints the truncation exactly when the magnitude is below 2^32; above, the 32-bit
  argument of `brubeck_itoa` drops the high digits (`FloatPrinting.ShownIsTruncatedExactlyBelow32Bits`).
- `-0` is printed for negative values of magnitude below 10^-4, negative zero included, and for negative
  multiples of 2^32 below 2^64, of which 32 bits leave nothing (`NumberRoundTrip.PrintsMinusZero`,
  `NumberRoundTrip.LargeMinusZero`).
- The replay filter accepts a token a second time at exactly its timestamp plus the drift, when the
  slot it lives in has just been cleared for that very second (`ReplayWindow.TwiceHappens`), and a
  clock that steps back lets a token through twice at one reading (`ReplayWindow.SteppingBackReplays`).
- As long as the 32-bit count holds their sum, a histogram flush reports nothing but the count exactly when
  all frequencies recorded since the last flush are below one (`Histogram.SilentExactlyWhen`); the parser only produces frequencies of at least
  one, so there it means that nothing was recorded.
- A slab block lies in the 4096 bytes allocated for its node exactly when at most `NODE_SIZE` bytes were
  asked for (`Slab.InPageExactlyWhen`).
- A counter does not count a rise from a reading of zero or less: zero, then five, counts nothing
  (`Accumulators.RiseFromZeroIsLost`). Its total is last minus first exactly when what resets wiped out
  equals what was skipped in this way (`Accumulators.CounterTotal`); for readings that never go down,
  exactly when they start above zero or never rise (`Accumulators.NonDecreasingTotal`); for positive
  readings, exactly when they never go down (`Accumulators.PositiveTotal`).
- A sample handed to the pickler is dropped on arrival exactly when there is no connection, or when the
  flush that has to make room for it fails (`CarbonStream.EachPushes`).
- A statsd key of 65536 bytes or more is cut to its length modulo 65536 (`StatsdGrammar.KeyExact`), and is
  then not NUL-terminated where its length says (`StatsdSampler.ParseMessage`).

## Model

| member | source | states |
|---|---|---|
| `Registry.Shard` | src/metric.c:289-296 | the shard of a key is a backend that exists, for any hash function |
| `RegistryCalls.ShardExactlyWhen` | src/metric.c:289-296 | a key belongs to a backend if and only if its hash is congruent to the backend's number modulo their count |
| `RegistryCalls.SameShardExactlyWhen` | src/metric.c:289-296 | two keys share a backend if and only if their hashes are congruent |
| `RegistryCalls.ListIsCongruent` | src/metric.c:310 | in every state of every run a backend's list holds exactly the registered metrics, push complete, whose hash is congruent to its number |
| `RegistryCalls.FindPresent` | src/metric.c:317-338 | a find of a key in the table that runs alone returns its metric and changes nothing else |
| `RegistryCalls.FindAtCapacity` | src/metric.c:325-327 | a find of a missing key at capacity returns NULL and changes nothing else |
| `RegistryCalls.FindMissing` | src/metric.c:325-329 | a find of a missing key below capacity goes on to allocate and has changed nothing yet |
| `RegistryCalls.NewStarts` | src/metric.c:298-305 | brubeck_metric_new starts with the allocation |
| `RegistryCalls.CreateAlone` | src/metric.c:298-315 | a creator that runs alone ends with its metric in the table, linked in front of the list of the congruent backend, counted once and returned, and nothing else changed |
| `RegistryCalls.LoseAlone` | src/metric.c:307-308 | a creator that finds the key taken returns the winner's metric; table, lists and counter are unchanged |
| `RegistrySafety.StepInv` | src/metric.c:298-338 | whichever thread or walker takes whichever step, the invariant of table, threads, owners, lists, walks and counts is kept |
| `RegistrySafety.StepLinks` | src/backend.c:9 | no step writes the `next` of a metric that no thread still owns, so published links are never rewritten |
| `RegistrySafety.StepListPushed` | src/backend.c:7-13 | a successful compare-and-swap puts the metric in front of exactly the list it read, still acyclic |
| `RegistryRuns.RunInv` | src/metric.c:298-338 | the invariant holds in every state of every interleaving of any number of threads |
| `RegistryRuns.CallersAgree` | src/metric.c:307-315 | all callers that get a metric for a key, at any time, get the same one, and it is for that key |
| `RegistryRuns.NullOnlyAtCapacity` | src/metric.c:322-329 | NULL comes only from a lookup at capacity of an absent key; a creator that lost the race always finds the winner |
| `RegistryRuns.ListExists` | src/backend.c:32 | following `next` from any head ends, in every reachable state |
| `RegistryRuns.ListIsShard` | src/metric.c:310 | a backend's list holds exactly the registered metrics of its shard whose push is complete, each once |
| `RegistryRuns.RunListed` | src/backend.c:7-13 | once in a list, a metric stays there and its `next` stays as it is |
| `RegistryRuns.PushedStaysListed` | src/backend.c:11 | from its compare-and-swap on, a metric is in its shard's list for good |
| `RegistryRuns.PushedOnce` | src/metric.c:307-310 | no metric is pushed twice, by one thread or by two |
| `RegistryRuns.LoserNeverPublished` | src/metric.c:307-308 | the metric of a creator that lost the insert is never in the table, in a list, or returned |
| `RegistryRuns.CountsAgree` | src/metric.c:307-314 | unique_keys plus the creators between insert and increment is the table size (modulo 2^32); list lengths plus the creators still pushing is the table size |
| `RegistryRuns.QuietCountsAgree` | src/metric.c:312-314 | with no creator under way, unique_keys is the total length of all lists |
| `RegistryRuns.TraversalVisitsSnapshot` | src/backend.c:32-35 | a finished walk visited exactly the list its backend had at the head read, in order, each metric once, whatever was pushed meanwhile |
| `RegistryRuns.TraversalProgress` | src/backend.c:32-35 | a walk can always take its next step, makes as many visits as that list is long, and dereferences only live metrics |
| `RegistryRuns.EarlierPushIsVisited` | src/backend.c:7-35 | every metric pushed before the head read is among those visited |
| `RegistryPushes.HeadSameExactlyWhen` | src/backend.c:7-13 | between any two states of a run a backend's head is the same if and only if nothing was pushed onto its list: no head comes back |
| `RegistryPushes.SwapSucceedsExactlyWhen` | src/backend.c:8-11 | a compare-and-swap succeeds if and only if nothing was pushed onto the list since its thread read the head |
| `RegistryPushes.RetryMeansProgress` | src/backend.c:7-13 | no attempt fails without another thread's success on the same list in the meantime |
| `Pickle.LoadPayload` | src/backends/carbon.c:105-166 | the stack machine never gets stuck on a payload and yields exactly the pushed (key, (timestamp, value)) list, in order, nothing left over |
| `Pickle.LeadsSample` | src/backends/carbon.c:105-138 | one encoded sample, whatever follows and whatever the memo byte, is read as one value on top of the stack |
| `Pickle.RunReadsInt` | src/backends/carbon.c:80-85 | an encoded 32-bit integer reads back, as a signed number |
| `Pickle.RunReadsDouble` | src/backends/carbon.c:87-103 | an encoded double reads back as its eight bytes |
| `PickleBytes.KeyBytes` | src/backends/carbon.c:114-122 | the bytes of a key, with the opcodes of the format as numbers |
| `PickleBytes.PointBytes` | src/backends/carbon.c:124-131 | the bytes of timestamp and value |
| `PickleBytes.WordBytes` | src/backends/carbon.c:80-85 | the four bytes of an integer, least significant first |
| `PickleBytes.PayloadBytes` | src/backends/carbon.c:140-163 | what stands before and after the samples |
| `PickleBytes.FrameBytes` | src/backends/carbon.c:165-168 | a frame is the payload's length, most significant byte first, and the payload |
| `PickleBytes.OneSampleOnTheWire` | src/backends/carbon.c:105-168 | the 37 bytes of a frame with one given sample |
| `PickleBytes.SignedCongruent` | src/backends/carbon.c:80-85 | an integer reads back as the signed number congruent to it |
| `Pickle.TimestampExact` | src/backends/carbon.c:80-85 | a timestamp survives exactly when it is below 2^31 |
| `Pickle.PayloadInjective` | src/backends/carbon.c:105-166 | equal payloads come from equal samples |
| `CarbonStream.NextInv` | src/backends/carbon.c:149-197 | every connect, sample, flush and failed write keeps the accounts of what was sent, lost and is pending |
| `CarbonStream.ReceiveConn` | src/backends/carbon.c:162-168 | a peer that splits a connection's bytes by the length prefixes reads exactly the batches written whole; a cut-off frame yields nothing |
| `CarbonStream.EachPushes` | src/backends/carbon.c:187-196 | a sample is kept if and only if there is a connection and the flush that makes room, if one is needed, goes through |
| `CarbonStream.PushedAreKept` | src/backends/carbon.c:179-197 | over every run, the samples in the accounts are the kept ones in order |
| `CarbonStream.KeptOrDropped` | src/backends/carbon.c:179-197 | over every run, what was handed over is what was kept and what was dropped |
| `CarbonStream.NothingElseIsLost` | src/backends/carbon.c:149-197 | over every run, delivered batches, the batch lost on each broken connection and the buffer are the kept samples in order; with those dropped on arrival they are all samples handed over |
| `CarbonConnections.ConnectConnects` | src/backends/carbon.c:11-28 | after any run a connect that succeeds leaves the backend connected: on the open connection, or on one new and empty, with nothing else changed |
| `CarbonConnections.FailedConnect` | src/backends/carbon.c:31-36 | a connect that fails changes nothing |
| `CarbonConnections.ConnectedExactlyWhen` | src/backends/carbon.c:11-45 | after any run the backend is connected if and only if some connect has succeeded and no write has failed since |
| `CarbonConnections.WriteSends` | src/backends/carbon.c:159-176 | a flush with something pending puts its whole frame on the connection in use, or the part that was taken, empties the buffer, and counts only whole frames as sent |
| `CarbonConnections.WriteIsReceived` | src/backends/carbon.c:159-176 | the peer then reads exactly one more batch, the one that was pending, or no more |
| `CarbonStream.BufferBounds` | src/backends/carbon.c:179-197 | in every reachable state frames are at most 4091 bytes, the memo counter does not wrap, and a disconnected backend has an empty buffer |
| `CarbonStream.KeyExact` | src/backends/carbon.c:185 | a key is sent whole exactly when it is at most 255 bytes long, and otherwise its front, short by a multiple of 256 |
| `CarbonBackend.WriteInFull` | src/utils.h:84-103 | over any short writes: all of the buffer went out and its length is returned, or the result is negative and a strict prefix went out |
| `CarbonBackend.Backend.Init` | src/backends/carbon.c:140-147 | buffer and cursors hold no sample |
| `CarbonBackend.Backend.Push` | src/backends/carbon.c:105-138 | appends exactly one encoded sample and moves both cursors |
| `CarbonBackend.Backend.Connect` | src/backends/carbon.c:11-37 | a new connection starts an empty stream; an open one is kept |
| `CarbonBackend.Backend.Seal` | src/backends/carbon.c:162-166 | trailer and prefix complete exactly the frame of the pending samples |
| `CarbonBackend.Backend.Flush` | src/backends/carbon.c:149-177 | refines the flush event: whole frame, or a strict prefix and a closed connection; the buffer is empty after either |
| `CarbonBackend.Backend.Each` | src/backends/carbon.c:179-197 | refines the sample event: flush when the buffer is nearly full, then append if still connected |
| `CarbonBackend.Backend.Cycle` | src/backend.c:26-39 | one round of the backend thread extends the run by connect, one event per sample and flush (or by the connect alone if it fails), leaves nothing pending, and leaves the old socket, a new one or none |
| `CarbonBackend.Live` | src/backend.c:20-43 | over any sequence of rounds from the start, all that the backend does is one run of the event model made of exactly these rounds, with nothing pending between them |
| `CarbonBackend.LifeAccounts` | src/backend.c:20-43 | so everything handed over was delivered whole, lost with a broken connection, or dropped on arrival |
| `Bloom.TestAndSet` | src/bloom.c:20-30 | reports whether the bit was set and adds exactly that member |
| `Bloom.Multibloom.Check` | src/bloom.c:12-34 | true exactly when all positions were set before the call, repeated ones included; afterwards the slot is the union |
| `BloomPositions.PositionIsWord` | src/bloom.c:21 | each position is the word of its round modulo the bits, where the first word is the first hash and every round adds the second, in 32 bits |
| `BloomPositions.FirstPosition` | src/bloom.c:20-21 | the first position is the first hash modulo the bits |
| `BloomPositions.AllDifferent` | src/bloom.c:20-22 | while neither sums nor steps wrap, there are as many positions as rounds |
| `BloomPositions.SecondPositionDiffers` | src/bloom.c:21 | tokens that share the first hash and differ in the second, modulo the bits, differ in their second position |
| `BloomPositions.NeighboursAccepted` | src/samplers/statsd-secure.c:82-91 | two given tokens of one second with the same first hash are both accepted |
| `Bloom.MaskIsShift` | src/bloom.c:24 | the mask of a bit is one shifted by its number |
| `Bloom.Multibloom.Reset` | src/bloom.c:36-39 | the slot is empty, the others unchanged |
| `ReplayWindow.SlotContents` | src/bloom.c:12-39 | after any run a slot holds exactly the positions of the tokens checked against it since it was last cleared |
| `ReplayWindow.AcceptedExactlyWhen` | src/samplers/statsd-secure.c:54-91 | a token is accepted if and only if it is in time and one of its positions belongs to no token that still counts |
| `ReplayWindow.RejectedExactlyWhen` | src/samplers/statsd-secure.c:59-89 | from the future if and only if the clock is below the timestamp; delayed if and only if it is beyond timestamp plus drift; replayed if and only if neither and all positions belong to tokens that still count |
| `ReplayWindow.TwiceNeedsClearing` | src/samplers/statsd-secure.c:54-57 | whatever the clock does, a second acceptance needs a clearing of the slot in between |
| `ReplayWindow.AcceptedAgainOnlyAtTheEnd` | src/samplers/statsd-secure.c:54-89 | with a non-decreasing clock, a token accepted once is accepted again only at timestamp plus drift, at a later reading, its slot just cleared |
| `ReplayWindow.AtMostTwice` | src/samplers/statsd-secure.c:54-89 | with a non-decreasing clock, no token is accepted three times |
| `ReplayWindow.TwiceHappens` | src/samplers/statsd-secure.c:70-80 | for every filter, drift and token with a position there is a run that accepts the token twice |
| `ReplayWindow.SteppingBackReplays` | src/samplers/statsd-secure.c:54-57 | a run with a clock that steps back accepts a token twice at one reading |
| `StatsdSecure.Sampler.VerifyToken` | src/samplers/statsd-secure.c:44-92 | verdict and new filter contents are those of the window model |
| `Decimal.Itoa` | src/utils.c:115-135 | writes the shortest decimal text of any uint32, at most ten bytes, and nothing else |
| `Decimal.ReverseRange` | src/utils.c:125-132 | reverses the range in place and leaves the rest alone |
| `Decimal.ValueOfText` | src/utils.c:115-135 | the text denotes the number |
| `FloatPrinting.MantissaBits` | src/utils.c:154 | mask and or yield the significand although the mask is one bit too wide |
| `FloatPrinting.SafeMask` | src/utils.c:167-168 | for exponents from -36 to 22 the mask has exactly the bits below the binary point |
| `FloatPrinting.TimesTenFits` | src/utils.c:193 | times ten by two shifts never overflows 64 bits, given the -36 cutoff |
| `FloatPrinting.BelowCutoff` | src/utils.c:162-165 | everything under the cutoff truncates to zero |
| `FloatPrinting.FourDigits` | src/utils.c:192-196 | the loop writes the four decimals of the fraction |
| `FloatPrinting.Ftoa` | src/utils.c:137-208 | for every bit pattern, the text of the shown number in at most 14 bytes with the NUL |
| `FloatPrinting.ShownIsTruncatedExactlyBelow32Bits` | src/utils.c:170-185 | for finite values the shown number is the truncation if and only if the magnitude is below 2^32 |
| `FloatMeaning.TruncatedIsFloor` | src/utils.c:137-208 | the truncation is the floor of the binary32's real magnitude times 10^4 |
| `FloatMeaning.ShownAbove` | src/utils.c:170-185 | from 2^32 on the integer modulo 2^32 is shown, and from 2^64 on 4294967295 |
| `NumberRoundTrip.CanonicalForm` | src/utils.c:187-203 | no leading zero but a lone one, at most four decimals, no trailing zero, no bare dot |
| `NumberRoundTrip.PrintThenParse` | src/samplers/statsd.c:95-138 | parse_float takes a printed number whole and returns its value |
| `NumberRoundTrip.FtoaReadsBack` | src/utils.c:137-208 | parse_float of brubeck_ftoa's output is the four-decimal truncation, for every magnitude below 2^32 |
| `NumberRoundTrip.ItoaReadsBack` | src/utils.c:115-135 | parse_float of brubeck_itoa's output is its argument |
| `FloatMeaning.ShownZero` | src/utils.c:162-185 | zero is shown if and only if the magnitude is below 10^-4, or is a multiple of 2^32 between 2^32 and 2^64 |
| `NumberRoundTrip.PrintsMinusZero` | src/utils.c:158-185 | "-0" is printed if and only if the value is negative and such a magnitude |
| `NumberRoundTrip.LargeMinusZero` | src/utils.c:172-185 | -4294967296 prints as "-0" |
| `NumberRoundTrip.Print4Injective` | src/utils.c:181-203 | different numbers print differently |
| `StatsdLines.ReadsDecimal` | src/samplers/statsd.c:95-138 | for all digits w and f of any length, "w.f" reads as the number that w and f spell together over 10 for each digit of f; with "+" the same value, marked relative; with "-" its negative, marked relative; all of it is consumed |
| `StatsdLines.ReadsWhole` | src/samplers/statsd.c:95-138 | the same for digits without a dot |
| `StatsdLines.ReadsExponent` | src/samplers/statsd.c:133-134 | with an exponent letter behind the digits, the value is strtod's for the text from its sign on, and strtod says how much is consumed |
| `StatsdLines.ReadsUnsampled` | src/samplers/statsd.c:140-241 | a line spelled part by part, with each type's own letters and no rate, gives its key, value, sign mark and type, and counts once |
| `StatsdLines.ReadsSampled` | src/samplers/statsd.c:222-233 | with a rate in (0, 1] the frequency times the rate is one |
| `StatsdLines.RateRejected` | src/samplers/statsd.c:227-228 | a rate outside (0, 1] is rejected |
| `StatsdLines.DotRejected` | src/samplers/statsd.c:165-167 | a key that ends in a dot is rejected, whatever follows |
| `StatsdLines.NoKeyRejected` | src/samplers/statsd.c:153-160 | a line without a colon, or with a space before it, is rejected |
| `StatsdLines.RelativeGauges` | src/samplers/statsd.c:102-131 | a gauge line with the value +5 gives 5, and with -5 gives -5, both relative, for every key |
| `StatsdLines.SampledMeter` | src/samplers/statsd.c:222-233 | a line of type c with the value 1 and the rate 0.1 gives 1 at frequency 10, for every key |
| `StatsdLines.DigitsMean` | src/samplers/statsd.c:111-114 | the ten digits have their values |
| `StatsdGrammar.ParseLineText` | src/samplers/statsd.c:140-241 | printing any line of the grammar and parsing it returns its key as far as 16 bits reach, value, type, modifier and 1/rate |
| `StatsdGrammar.KeyExact` | src/samplers/statsd.c:162 | a key is returned whole if and only if it is shorter than 65536 bytes |
| `StatsdGrammar.AcceptedIsLine` | src/samplers/statsd.c:140-241 | everything accepted without strtod is a line of the grammar and means what was returned |
| `StatsdGrammar.AcceptsExactlyTheGrammar` | src/samplers/statsd.c:140-241 | for every text: accepted without strtod if and only if it is a line of the grammar |
| `StatsdGrammar.FrequencyAtLeastOne` | src/samplers/statsd.c:222-233 | the sample frequency of an accepted message is at least one |
| `StatsdSampler.ReadFloat` | src/samplers/statsd.c:95-138 | the cursor loops compute the grammar's number and stop where it ends, within the string |
| `StatsdSampler.ParseMessage` | src/samplers/statsd.c:140-241 | the result is the grammar's for the bytes up to `end`; only the NULs at `end` and at the key's colon are written; an accepted key is NUL-terminated if and only if it is shorter than 65536 bytes |
| `StatsdSampler.OnlyTwoNuls` | src/samplers/statsd.c:142-163 | of all bytes, those that a parse changes are the one at `end` and the colon that ends the key, and both become NUL |
| `StatsdPacket.SegmentsJoin` | src/samplers/statsd.c:248-264 | the segments joined by newlines, with one more if the packet ends in one, are the packet; none contains a newline, and only an empty packet has none |
| `StatsdPacket.ParsePacket` | src/samplers/statsd.c:243-266 | each segment of the packet as it arrived is parsed once, in order, despite the NULs written meanwhile; counters and messages are exactly their outcomes |
| `StatsdPacket.ShortPacket` | src/samplers/statsd.c:77 | no packet of up to 65536 bytes has an accepted segment whose key brubeck_metric_find's assertion rejects |
| `StatsdPacket.EverySegmentCounted` | src/samplers/statsd.c:253-258 | metrics plus errors rise by the number of segments |
| `StatsdPacket.Server.Take` | src/samplers/statsd.c:253-261 | one outcome is counted and passed on, and its key is NUL-terminated at its length |
| `OrderStatistics.SortedIsTheOnly` | src/histogram.c:48-61 | sorting by value_cmp has one possible result, the ordered permutation |
| `OrderStatistics.KthUnique` | src/histogram.c:31-35 | the rank counts determine the value |
| `Histogram.RankInRange` | src/histogram.c:31-35 | the index is in range if and only if rank times size is within half a value of 1..size |
| `Histogram.PercentileIsKth` | src/histogram.c:31-35 | a percentile is a recorded value that at least irank values do not exceed and at least size - irank + 1 are not below, for every rank from one half to one |
| `Histogram.SummaryOrder` | src/histogram.c:72-85 | min, median, p75, p95, p98, p99, p999, max ascend; the mean lies between; min and max bound all values; sum and mean are of the values as recorded |
| `HistogramReports.SummaryFields` | src/histogram.c:78-85 | median, p75, p95, p98, p99 and p999 are each the order statistic nearest to 0.5, 0.75, 0.95, 0.98, 0.99 and 0.999 times the size |
| `HistogramReports.PercentileUnique` | src/histogram.c:31-35 | that determines each of them |
| `HistogramReports.EmptySummary` | src/histogram.c:67-70 | an empty histogram gives zeros |
| `HistogramReports.ReportSays` | src/metric.c:181-233 | over every run, under each suffix in the order sent: the sum of the floors, the same over the period, and the minimum, maximum, sum, mean and percentiles of the first 65535 values recorded since the last flush |
| `HistogramReports.CapacitySteps` | src/histogram.c:16-24 | the first enlargement is to 16, the next eleven double, and the thirteenth reaches 65535 |
| `Histogram.Histo.Record` | src/histogram.c:6-29 | the value is appended unless 65535 are stored, the count is converted as C does, capacity grows by the clamped rule |
| `Histogram.Histo.Flush` | src/histogram.c:63-90 | returns the summary of everything stored and empties the histogram |
| `Histogram.Histo.Total` | src/histogram.c:37-46 | the sum of the stored values |
| `Histogram.RunStores` | src/histogram.c:6-29 | after any k records since the last flush: the first min(k, 65535) values, and the sum of the floors while that is below 2^32 |
| `Histogram.CountsConserved` | src/histogram.c:79-89 | counts reported plus the pending count are all counts recorded, even of values that were dropped |
| `Histogram.SilentExactlyWhen` | src/metric.c:190-193 | only the count is reported if and only if every frequency since the last flush is below one |
| `Histogram.SilentWhenNothingRecorded` | src/metric.c:162-193 | with frequencies of at least one: if and only if nothing was recorded |
| `Histogram.ReportFits` | src/metric.c:174-178 | every suffix fits the buffer sized for the longest |
| `Accumulators.MeterConserves` | src/metric.c:76-102 | emitted plus pending is the sum of value times frequency, over every run |
| `Accumulators.MeterPending` | src/metric.c:94-99 | what is pending is exactly what was recorded since the last sample |
| `Accumulators.MeterUpsamples` | src/metric.c:80-84 | three at frequency two and one at frequency ten are emitted as sixteen |
| `Accumulators.CounterPending` | src/metric.c:136-141 | what is pending is exactly the advance since the last sample |
| `Accumulators.CounterConserves` | src/metric.c:110-144 | emitted plus pending is the reset-aware sum of differences, over every run |
| `Accumulators.AdvancesTelescope` | src/metric.c:118-126 | for all readings that sum is last minus first, plus what each reset wiped out, less the changes from readings of zero or less |
| `Accumulators.CounterTotal` | src/metric.c:110-144 | for all readings a run's total is last minus first if and only if what resets wiped out equals the changes skipped |
| `Accumulators.NonDecreasingTotal` | src/metric.c:118-126 | for readings that never go down: if and only if the first is above zero or the last equals it |
| `Accumulators.PositiveTotal` | src/metric.c:118-126 | for positive readings: if and only if they never go down |
| `Accumulators.RiseFromZeroIsLost` | src/metric.c:118 | readings zero and five never go down and count nothing |
| `Accumulators.Meter.Record` | src/metric.c:76-87 | the meter's new state is that of the run model |
| `Accumulators.Meter.Sample` | src/metric.c:89-102 | emits the pending value and clears it |
| `Accumulators.Counter.Record` | src/metric.c:110-129 | the counter's new state is that of the run model |
| `Accumulators.Counter.Sample` | src/metric.c:131-144 | emits the pending value and clears it, keeping the previous reading |
| `Slab.RoundIsLeastMultiple` | src/slab.c:19 | the mask yields the least multiple of 32 not below the need |
| `Slab.Allocator.Allocate` | src/slab.c:14-37 | new nodes, total and block are those of the allocation model |
| `Slab.RunInv` | src/slab.c:14-37 | for every sequence of needs the blocks are pairwise disjoint, below what their nodes have given out, at multiples of 32, within NODE_SIZE if not larger themselves, and total_alloc is the sum over the nodes |
| `Slab.RunTotal` | src/slab.c:29-32 | that sum is the sum of the rounded needs |
| `Slab.InPageExactlyWhen` | src/slab.c:14-37 | in every run every block is as large as asked for, and ends within the 4096 bytes of its node, header included, if and only if at most NODE_SIZE was asked for |
| `Slab.OversizeOverruns` | src/slab.c:25-32 | from any state, a need above NODE_SIZE is served past the end of those 4096 bytes |
| `Slab.NeighboursFill` | src/slab.c:25-27 | in every run NODE_SIZE times the number of nodes less one, plus what the last node has given out, is at most twice what all nodes, the last included, have given out |

## Left out

- Sockets, receive loops, thread start-up, signals, timers, logging, HTTP and JSON configuration: foreign calls. A clock reading, whether a connect succeeds and how much a write takes are parameters or nondeterministic.
- Memory ordering: the registry's steps are sequentially consistent, and the Concurrency Kit table behind `src/ht.c` is an atomic map with put-if-absent. `CityHash32` is an arbitrary function.
- Expiry (`src/server.c:66-74`) and its test in the walk, gauges, the internal sampler's own metric, `find_substr`: easy or unused. A walk visits metrics; which of them it samples is not modelled.
- Floating-point rounding, NaN and infinities: values, rates and ranks are exact reals, the eight bytes of a pickled double are opaque.
- The plaintext carbon format, which concatenates a key and two printed numbers.
- HMAC verification and the nonce in front of it: a token is its two hash words and its timestamp.
- Bloom filter sizing from logarithms: bits are at least one, bytes are the bits rounded up.
- xwrite's retry on EAGAIN and EINTR: one nondeterministic call stands for the loop.
- Key lengths above 65535 in the registry, which are cut to 16 bits: keys are whole strings.
- StatsdSampler.ReadFloat: `strtod`, used when an exponent follows, is a parameter; its value and how far it reads are arbitrary within the string.
- StatsdSampler.ParseMessage: the byte in front of the buffer, which an empty key at its very start makes the source read, is a parameter.
- StatsdPacket.ParsePacket: only for packets whose accepted segments have keys shorter than 65536 bytes; with a longer one the assertion at the head of brubeck_metric_find stops the program. The samplers receive at most 8191 bytes.
- Histogram.Histo.Record: a count that leaves 32 bits becomes an arbitrary value, since the conversion from floating point is undefined in C; the results on counts are for sums that fit.
- Histogram.Histo.Sort: the library's qsort appears by its result, the only ordered permutation; its steps are not modelled.
- Slab.RunInv: for needs up to 2^63 - 32; no object is larger, and above it sums of size_t wrap.
- Slab.Allocator: the list of nodes is a sequence, newest last; addresses are a node and an offset.
- CarbonBackend.Backend.Each: the host is little-endian.
