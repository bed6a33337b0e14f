# Proofs about the text-processing tools

The repository is a set of fast tools for large text collections. This project models the parts
where fast, in-place or concurrent code has to agree with a simple meaning, and proves that it does.

- **Numbers.** `Bignum` is modelled as a class over an array of 28-bit limbs with a limb exponent;
  its value is a natural number. On it stand the exact shortest printing of a double, the exact last
  step of reading one, and the theorem that the reader undoes the printer. Rounding is to nearest,
  ties to even, as in section 4.3.1 of IEEE 754-2008. The printed digits are determined by what is
  proved of them. The 64-bit Grisu3 digit loop is proved against boundaries known to within one unit:
  it succeeds exactly when its answer is certain.
  Files: `Limbs`, `LimbLoops`, `Squaring`, `Powers`, `Quotients`, `Bignum`, `Shortest`, `BignumDtoa`,
  `StartValues`, `Reals`, `Ieee`, `Meaning`, `Estimate`, `Strtod`, `RoundTrip`, `PrintedDigits`, `Grisu`,
  `FastDtoa`.
- **Hash table.** Linear probing with doubling in place behaves as a finite map.
  Files: `Probing`, `ProbingTable`, `AutoProbing`.
- **Queues and pipelines.** Step relations over every interleaving, with an inductive invariant,
  theorems about every state of every run, in terms of what the calls were given, and bounds that show
  that no call goes on for ever. Files: `PCQueue`, `UnboundedQueue`, `ThreadedStream`,
  `CacheProtocol`, `WarcParallel`.
- **Folding lines.** `wrap_lines` with its rewinds and stale positions, over UTF-8 as in sections 3
  and 4 of RFC 3629. Files: `Utf8`, `FoldFilter`, `FoldMeaning`.
- **Framing.** WARC records (record model of section 4 of ISO 28500) and lines, independent of how
  reads are chunked. Files: `Source`, `WarcFormat`, `WarcHeader`, `WarcReader`, `WarcFraming`,
  `FilePiece`.

`Common` holds what several of these share. Types `u16`, `u32` and `u64` are ranges of integers:
assigning to a variable of one of them is a proof that the machine value did not wrap. Digits are
numbers 0 to 9, most significant first, and a digit buffer is a sequence. Ghost parameters carry
proof facts only.

Three results differ from what comments or documentation say, and the model follows the code:

- The option text "at most <num> bytes" of foldfilter does not hold. A piece may have `width - 1`
  bytes plus one code point (`PieceLength`). `LimitExactly` says for every width, mode and line
  exactly when the limit holds: wherever a piece starts with at least the width left, there is a
  delimiter to cut at and no kept delimiter lies across the width, or there is none and the width
  falls between two characters. For ASCII delimiters, as the default ones are, no delimiter can lie
  across (`LimitAsciiDelimiters`); for lines without delimiters it comes down to every multiple of
  the width lying between two characters (`LimitWithoutDelimiters`). `WidthExceeded` has a line that
  breaks the limit for every width.
- A `Content-Length:` line with nothing after the colon counts as zero, but is refused when a number
  follows and is already buffered, because the number is searched beyond the line. The records of
  a stream do not depend on how it is chunked if and only if it is `Clear`. `ReadAll` has both
  directions: a clear stream gives the same records for every chunking; otherwise the stream has a
  place of risk (`ClearIffNoRisk`), and while reads of one byte give all its records, reads of one
  byte up to that place and then a big one give fewer. `Differing` ties this to the lines of the
  header, and `ExampleDepends` is such a stream.
- With no workers at all, warc_parallel stops for ever as soon as a record is read (`NoWorkersStuck`);
  `StuckExactly` shows that this is the only way to get stuck.

Verify with `dafny verify dfyconfig.toml`.

## Model

| member | source | states |
|---|---|---|
| `Bignums.Bignum.DivideModuloIntBignum` | util/double-conversion/bignum.cc:486-546 | for every pair with a quotient below 2^16: returns exactly the floor quotient, leaves exactly the remainder, clamped; the remainder may be shorter than the divisor on the way |
| `Bignums.Bignum.RemoveMultiples` | util/double-conversion/bignum.cc:503-512 | the limb-removal loop takes off whole multiples, keeps the sum, ends with at most as many limbs as the divisor, and if fewer then value plus divisor still reaches the limb above |
| `Bignums.Bignum.TopEstimate` | util/double-conversion/bignum.cc:519-539 | the estimate from the top limbs never exceeds the true quotient, and the early return is taken only when one more multiple does not fit |
| `Bignums.Bignum.CorrectQuotient` | util/double-conversion/bignum.cc:541-545 | the correction loop ends with a remainder below the divisor and a quotient that accounts for all that was subtracted |
| `Bignums.Bignum.SubtractTimes` | util/double-conversion/bignum.cc:735-763 | subtracts exactly factor times the divisor although the second loop advances twice a round, given at most one limb above the divisor |
| `Bignums.Bignum.Square` | util/double-conversion/bignum.cc:340-409 | the exact square, although the copied limbs are overwritten while columns are still summed |
| `Squaring.SquareInto` | util/double-conversion/bignum.cc:365-403 | the two column loops leave the limbs of the square; no accumulator leaves 64 bits |
| `Squaring.ColumnsSquare` | util/double-conversion/bignum.cc:372-397 | the sum of all columns, each at its place, is the square of the number |
| `Bignums.Bignum.AssignPowerUInt16` | util/double-conversion/bignum.cc:412-482 | exactly base^exponent through stripping twos, the 64-bit phase, the delayed multiplication and the bignum phase |
| `Bignums.PowerIn64` | util/double-conversion/bignum.cc:438-465 | the 64-bit phase holds the power of the bits read so far, with one multiplication by the base possibly owed |
| `Bignums.Bignum.MultiplyByUInt64` | util/double-conversion/bignum.cc:273-297 | multiplies the value by every 64-bit factor at every length |
| `LimbLoops.MultiplyInto64` | util/double-conversion/bignum.cc:281-289 | every limb of the product, and the running carry never leaves 64 bits |
| `Bignums.Bignum.MultiplyByUInt32` | util/double-conversion/bignum.cc:247-270 | multiplies the value by every 32-bit factor |
| `Bignums.Bignum.MultiplyByPowerOfTen` | util/double-conversion/bignum.cc:300-337 | multiplies by exactly 10^exponent through chunks of powers of five and a shift |
| `Bignums.Bignum.AddBignum` | util/double-conversion/bignum.cc:169-208 | the sum; needs and keeps zero limbs above the used ones |
| `Bignums.Bignum.SubtractBignum` | util/double-conversion/bignum.cc:211-235 | the difference, clamped |
| `Bignums.Bignum.Align` | util/double-conversion/bignum.cc:695-716 | lowers the exponent to the other's without changing the value |
| `Bignums.Bignum.ShiftLeft` | util/double-conversion/bignum.cc:238-244 | multiplies by exactly 2^shift, limb exponent and bit shift together |
| `Bignums.Bignum.Clamp` | util/double-conversion/bignum.cc:670-678 | no leading zero limb, same value, zero has exponent zero |
| `Bignums.Bignum.AssignBignum` | util/double-conversion/bignum.cc:75-85 | copies the value and clears the limbs above |
| `Bignums.Bignum.AssignUInt64` | util/double-conversion/bignum.cc:58-72 | the value of a 64-bit number |
| `Bignums.Bignum.AssignDecimalString` | util/double-conversion/bignum.cc:101-119 | the number the digits denote |
| `Bignums.Bignum.Compare` | util/double-conversion/bignum.cc:615-630 | the sign of the difference of the values, whatever the exponents |
| `Bignums.Bignum.PlusCompare` | util/double-conversion/bignum.cc:633-667 | the sign of a + b - c without computing the sum |
| `BignumDtoa.GenerateShortestDigits` | util/double-conversion/bignum-dtoa.cc:185-274 | for every ratio and deltas within the parity-aware bound: terminates with digits in the rounding interval, none shorter in it, closest to v among that length, even when two are equally close; the last digit stays a digit |
| `Shortest.ChosenClosest` | util/double-conversion/bignum-dtoa.cc:232-271 | the round-up or round-down choice is the closest of all candidates of that length |
| `Shortest.ChosenEven` | util/double-conversion/bignum-dtoa.cc:247-257 | half way between two candidates of that length the chosen one is even |
| `Shortest.DigitFits` | util/double-conversion/bignum-dtoa.cc:238-271 | a 9 is never incremented |
| `Shortest.FewerDigitsMiss` | util/double-conversion/bignum-dtoa.cc:185-274 | no candidate with fewer digits lies in the interval |
| `StartValues.InitialScaledStartValues` | util/double-conversion/bignum-dtoa.cc:567-609 | numerator, denominator and both deltas of the three cases, with the doubled ones when the lower boundary is closer |
| `StartValues.FixupMultiply10` | util/double-conversion/bignum-dtoa.cc:611-637 | either the estimate was right or everything is scaled by ten; the decimal point follows |
| `StartValues.FixupBounded` | util/double-conversion/bignum-dtoa.cc:616-636 | afterwards the parity-aware bound holds that digit generation needs |
| `StartValues.ShortestDtoa` | util/double-conversion/bignum-dtoa.cc:129-153 | the shortest mode of BignumDtoa from the estimate on: start values, fixup, digits |
| `Estimates.NormalizedExponent` | util/double-conversion/bignum-dtoa.cc:37-44 | the shifting loop ends with the leading bit at the place of the hidden bit |
| `Estimates.EstimateBrackets` | util/double-conversion/bignum-dtoa.cc:384-412 | for every binary exponent n of a double and however the constants, the product and the difference are rounded: 10^(k-1) <= 2^n and 2^(n+1) <= 10^(k+1) for the estimate k |
| `Meaning.StartRepresents` | util/double-conversion/bignum-dtoa.cc:416-565 | the start values stand for exactly v and its two boundaries, as real numbers |
| `Meaning.HoldsMeans` | util/double-conversion/bignum-dtoa.cc:185-274 | being a candidate of the scaled interval means lying between the true boundaries, closed or open |
| `Ieee.Neighbours` | util/double-conversion/ieee.h:88-169 | the upper boundary of a double is the lower boundary of the next and half way between them |
| `Ieee.KnownValues` | util/double-conversion/ieee.h:88-130 | the bit patterns of 1, of the smallest and the largest double, and of the two sides of the denormals |
| `Ieee.ValOrder` | util/double-conversion/ieee.h:88-130 | bit patterns order doubles as numbers, boundaries included |
| `Ieee.RoundsToNearest` | util/double-conversion/ieee.h:162-199 | a number between the boundaries of d is at least as close to d as to any other double |
| `Ieee.RoundsToUnique` | util/double-conversion/ieee.h:162-200 | every number rounds to at most one double, ties to even |
| `Strtod.CompareBufferWithDiyFp` | util/double-conversion/strtod.cc:392-419 | the exact order of a decimal and a binary number, for every sign of both exponents |
| `Strtod.FinalDecision` | util/double-conversion/strtod.cc:459-472 | from a guess that is right or one below, the correctly rounded double, exact ties included |
| `RoundTrip.PrintShortest` | util/double-conversion/bignum-dtoa.cc:89-274 | for every positive finite double, from its bits and the computed estimate: digits and decimal point round to it; at most 17 digits; no decimal with fewer digits does; none of that length is closer; even on ties; the point is that of the biggest power of ten the double reaches |
| `PrintedDigits.PrintedIsUnique` | util/double-conversion/bignum-dtoa.cc:89-274 | these promises leave one answer: any two outputs that keep them are the same digits with the same point |
| `RoundTrip.FewDigits` | util/double-conversion/double-conversion.h:290-296 | seventeen digits are enough for every double |
| `RoundTrip.EstimateKeepsPromise` | util/double-conversion/bignum-dtoa.cc:369-383 | for every positive finite double, denormals included, the computed estimate is at most one too low, for its upper boundary too |
| `RoundTrip.PrintThenRead` | util/double-conversion/strtod.cc:392-472 | printing and then the exact comparison, from v or the next-lower double as guess, gives back v |
| `RoundTrip.NothingShorter` | util/double-conversion/bignum-dtoa.cc:185-274 | no decimal with fewer significant digits, wherever its point is, rounds to the double |
| `RoundTrip.NothingCloser` | util/double-conversion/bignum-dtoa.cc:185-274 | no decimal of the same length that rounds to the double is closer to it |
| `FastDtoa.BiggestPowerTen` | util/double-conversion/fast-dtoa.cc:225-259 | the biggest power of ten that is at most the number, from a guess that is never too small |
| `FastDtoa.RoundWeed` | util/double-conversion/fast-dtoa.cc:61-166 | succeeds exactly if the number is two units inside at both ends and no neighbour is closer to anything w may be; the last digit never drops below zero; nothing wraps |
| `FastDtoa.LowerLast` | util/double-conversion/fast-dtoa.cc:142-148 | the decrement loop stops at the nearest digit from above and never below zero, because the previous remainder lies outside the unsafe interval |
| `FastDtoa.IntegralDigits` | util/double-conversion/fast-dtoa.cc:336-371 | digits of the integral part, remainder invariant, first digit not zero, and the outcome when it ends there |
| `FastDtoa.FractionDigits` | util/double-conversion/fast-dtoa.cc:373-397 | the unbounded loop terminates; fractionals, unit and interval times ten stay within 64 bits |
| `FastDtoa.DigitGen` | util/double-conversion/fast-dtoa.cc:303-397 | stops at the biggest power of ten with a multiple in the unsafe interval; succeeds exactly if some multiple of it is certain to be right for all true numbers within one unit, and then gives it: strictly inside the true boundaries, nothing coarser inside, everything else of that grid farther from the true number |
| `Grisu.TestsShowCertain` | util/double-conversion/fast-dtoa.cc:150-165 | the two tests show that the number is right whatever the true numbers are |
| `Grisu.CertainPassesTests` | util/double-conversion/fast-dtoa.cc:142-165 | a number that is certain is the one the loop settled on, and passes both tests, so success is never refused needlessly |
| `FastDtoa.FewerDigitsMiss` | util/double-conversion/fast-dtoa.cc:275-283 | no number with fewer digits, at any exponent, lies between the true boundaries |
| `Probing.EmptyMeansAbsent` | util/probing_hash_table.hh:195-204 | an empty cell reached from the ideal position means that the key is nowhere in the table |
| `Probing.MoveKeepsHalfway` | util/probing_hash_table.hh:257-270 | an entry taken from slot j lands at most at j or j plus the old number of buckets, and the processed part stays gap-free |
| `ProbingTables.MainPass` | util/probing_hash_table.hh:262-270 | after the pass no gaps, the same entries, each from a slot at or above its place in its half |
| `ProbingTables.DoubleCells` | util/probing_hash_table.hh:240-275 | doubling keeps exactly the stored entries and re-establishes gap-free probe paths |
| `ProbingTables.ProbingHashTable.Find` | util/probing_hash_table.hh:195-209 | finds the entry exactly when it is stored; the loop ends because an empty cell exists |
| `ProbingTables.ProbingHashTable.FindOrInsert` | util/probing_hash_table.hh:154-171 | finds or adds the entry; throws exactly when the count reaches the buckets, with the cells unchanged |
| `ProbingTables.ProbingHashTable.Insert` | util/probing_hash_table.hh:146-152 | counts first, throws exactly when full, otherwise adds the entry |
| `AutoProbings.AutoProbing.DoubleIfNeeded` | util/probing_hash_table.hh:397-404 | doubles exactly when another entry would fill more than three quarters; room for one more entry and the same contents afterwards |
| `AutoProbings.AutoProbing.FindOrInsert` | util/probing_hash_table.hh:360-363 | answers and changes as a finite map; never throws |
| `AutoProbings.AutoProbing.Insert` | util/probing_hash_table.hh:353-358 | adds a new key to the map |
| `AutoProbings.AutoProbing.Find` | util/probing_hash_table.hh:373-375 | found if and only if the key is in the map, with its value |
| `AutoProbings.AutoProbing.SetValue` | util/probing_hash_table.hh:365-367 | writing a value through a returned iterator updates the map at that key only |
| `AutoProbings.AutoProbing.Size` | util/probing_hash_table.hh:381-383 | the number of keys in the map |
| `AutoProbings.Run` | util/probing_hash_table.hh:330-417 | every run of calls with valid keys, doublings included, is answered as a finite map answers it: what is found, what is added and what was there already |
| `PCQueues.QueueIsFifo` | util/pcqueue.hh:128-230 | in every state of every run: values leave in the order stored; what a thread at rest has stored are the values it called Produce with, those whose copy threw left out; what it received it took; tokens add up to the capacity |
| `PCQueues.SlotsAreSafe` | util/pcqueue.hh:138-203 | no unread slot is written, no unwritten slot is read, and the two sides never touch the same slot |
| `PCQueues.NoDeadlock` | util/pcqueue.hh:138-203 | when no call can go on, producers wait only on a full ring and consumers only on an empty one; failing copies included |
| `PCQueues.CallsEnd` | util/pcqueue.hh:138-203 | a call returns after at most six steps of its own, and no step touches another call |
| `PCQueues.CanStep` | util/pcqueue.hh:138-203 | an idle thread may call, a call that is not blocked may go on, and a copy may throw |
| `UnboundedQueues.QueueIsSafeAndFifo` | util/pcqueue.hh:232-300 | every page touched is allocated, links are set before they are followed, and the values taken are the first ones that Produce was called with |
| `UnboundedQueues.FreedPageIsDone` | util/pcqueue.hh:259-285 | the page freed has been read to its end and is not the filling page |
| `UnboundedQueues.ConsumerWaitsOnlyWhenEmpty` | util/pcqueue.hh:259-261 | with the producer at rest the consumer blocks only when every value given to Produce was taken |
| `UnboundedQueues.CallsEnd` | util/pcqueue.hh:243-267 | Produce takes at most five steps and is never blocked; Consume at most four and is blocked only at the semaphore |
| `ThreadedStreams.WriterReceivesEverything` | util/threaded_buffered_stream.hh:114-187 | after closing, the writer has received exactly the concatenation of what the calls were given |
| `ThreadedStreams.WriterReceivesPrefix` | util/threaded_buffered_stream.hh:121-126 | before that, a prefix of it |
| `ThreadedStreams.BlocksAreNotShared` | util/threaded_buffered_stream.hh:27-105 | the two threads never hold the same block; size zero is read only at the poison |
| `ThreadedStreams.NoDeadlock` | util/threaded_buffered_stream.hh:27-187 | no reachable state deadlocks, shutdown included |
| `ThreadedStreams.StepsAreBounded` | util/threaded_buffered_stream.hh:27-187 | between two calls the threads take a bounded number of steps, so every call returns |
| `ThreadedStreams.CloseDelivers` | util/threaded_buffered_stream.hh:132-138 | once the destructor was called and both threads rest, the stream is closed and everything was delivered |
| `ThreadedStreams.HeldBack` | util/threaded_buffered_stream.hh:34-105 | between two calls at most three blocks of 8192 bytes are held back |
| `CacheProtocol.PrintsAnswerToEarliest` | preprocess/cache_main.cc:48-105 | the line printed for line j is the child's answer to the earliest line with the same key |
| `CacheProtocol.ChildReceivesFirsts` | preprocess/cache_main.cc:58-75 | the child receives exactly the first occurrences, in order |
| `CacheProtocol.PrintsEveryLine` | preprocess/cache_main.cc:84-105 | when the output thread ends it has printed one line for every input line |
| `CacheProtocol.NoDeadlock` | preprocess/cache_main.cc:48-105 | until then a thread can move or the child owes an answer |
| `CacheProtocol.RunsAreBounded` | preprocess/cache_main.cc:48-105 | flushes aside, a run has at most ten moves for each line and ten more |
| `WarcParallel.HandsOutEverything` | preprocess/warc_parallel_main.cc:25-127 | at the end the workers were handed exactly the records read, as a multiset, and each took exactly one poison |
| `WarcParallel.NothingBehindPoison` | preprocess/warc_parallel_main.cc:109-119 | at any time nothing is lost or doubled and no record is behind a poison |
| `WarcParallel.StuckExactly` | preprocess/warc_parallel_main.cc:195-212 | a run can stop early if and only if there are no workers and something is left to read |
| `WarcParallel.NoWorkersStuck` | preprocess/warc_parallel_main.cc:195-212 | without workers and with something to read the first state is stuck |
| `WarcParallel.RunsAreBounded` | preprocess/warc_parallel_main.cc:25-127 | a run has at most two moves for each record, two for each worker, and three |
| `Utf8.DecodeIsInverse` | util/utf8.hh:45-89 | decoding succeeds exactly on what starts with an encoded character, and gives that character and its length |
| `Utf8.DecodesGrammar` | util/utf8.hh:45-89 | for every input: exactly the octet sequences of the grammar in section 4 of RFC 3629, written as ranges of octets, are decoded, each to its character number |
| `FoldFilter.FindDelimiter` | preprocess/foldfilter_main.cc:39-43 | the first position of the character among the delimiters, or not found |
| `FoldFilter.BreakKeepsScanning` | preprocess/foldfilter_main.cc:113-179 | after a rewind no remembered position lies beyond the limit of the new piece, and a stale run start is never used |
| `FoldFilter.SkipDelimiters` | preprocess/foldfilter_main.cc:153-168 | what is skipped are delimiters only, up to the first other character, the end or the width |
| `FoldFilter.WrapLines` | preprocess/foldfilter_main.cc:95-187 | terminates; succeeds exactly on well-formed text; gives the fold in which every piece is cut by a fresh scan; pieces and delimiters join to the line; pieces are whole characters, all starting below the limit; a cut is made only with at least the width left, and only at the limit or in front of delimiters |
| `FoldFilter.MarkedSame` | preprocess/foldfilter_main.cc:108-131 | what a scan finds does not depend on the positions it starts with, so stale ones never matter |
| `FoldFilter.RewindIsFresh` | preprocess/foldfilter_main.cc:178-179 | after a rewind the remembered positions lead to the cut of a fresh scan |
| `FoldMeaning.MarkedIs` | preprocess/foldfilter_main.cc:108-131 | a scan remembers, for each delimiter, where the run of its last occurrence begins |
| `FoldMeaning.CutAtPreferred` | preprocess/foldfilter_main.cc:137-146 | the most preferred delimiter that can be cut at decides: the cut is in front of the run of its last occurrence below the limit |
| `FoldMeaning.CutAtLimit` | preprocess/foldfilter_main.cc:133-138 | without one, the cut is at the first character that starts at the limit or behind it |
| `FoldMeaning.SkipEndMeans` | preprocess/foldfilter_main.cc:148-168 | behind the cut all delimiters are taken up to the next other character or the end; kept ones only while they start below the width |
| `FoldFilter.ChooseCut` | preprocess/foldfilter_main.cc:137-146 | the most preferred delimiter found in the current piece, or the scan position when there is none |
| `FoldFilter.PieceLength` | preprocess/foldfilter_main.cc:133-135 | a piece has at most the width less one plus the bytes of its last character |
| `FoldFilter.LimitExactly` | preprocess/foldfilter_main.cc:133-168 | for every width, mode and line: all pieces have at most width bytes if and only if at every piece with the width left, a delimiter is in reach and no kept delimiter of the run starts before the width and ends after it, or none is in reach and the width falls between two characters |
| `FoldFilter.LimitAsciiDelimiters` | preprocess/foldfilter_main.cc:30 | with ASCII delimiters, in both modes: if and only if every piece without a delimiter in reach has the width between two characters |
| `FoldFilter.LimitWithoutDelimiters` | preprocess/foldfilter_main.cc:190-198 | without delimiters: if and only if every multiple of the width lies between two characters |
| `FoldFilter.AsciiKeepsLimit` | preprocess/foldfilter_main.cc:20-22 | for ASCII lines every piece has at most width bytes, in both modes |
| `FoldFilter.LimitOneExactly` | preprocess/foldfilter_main.cc:194 | at width one, with delimiters kept or absent, the limit holds if and only if the line is ASCII |
| `FoldFilter.WidthExceeded` | preprocess/foldfilter_main.cc:194 | for every width and mode: the fold of one byte less of ASCII and then any longer character, none of them delimiters, has a piece over the limit |
| `WarcFormat.StrtollInside` | preprocess/warc.cc:77-79 | for a value that is not empty, reading ahead in the buffer accepts exactly what reading inside the line accepts |
| `WarcReaders.ReadMore` | preprocess/warc.cc:14-26 | appends what was read, or ends cleanly only with an empty buffer |
| `WarcReaders.HeaderReader.Line` | preprocess/warc.cc:33-48 | the next line of the whole input, however much of it is buffered; never more than one read beyond its end |
| `WarcReaders.WARCReader.Read` | preprocess/warc.cc:59-100 | record, overhang and unread bytes make up the input; the outcome is one of two readings of the bytes, which differ only in a Content-Length line without a value that a number follows |
| `WarcReaders.ReadAll` | preprocess/warc_parallel_main.cc:56-62 | for every chunking: the records are a front part of the input, all of it exactly at a clean end; for a clear stream they are those the input calls for; byte by byte they are those of the lenient reading, for every stream; byte by byte up to the place of risk and then one big read, they are fewer and the end is an error |
| `WarcFormat.Differing` | preprocess/warc.cc:73-80 | the two readings differ if and only if the lenient one gives a record and a header line without a value has a number in view behind it; the strict one then throws |
| `WarcFormat.ClearIffNoRisk` | preprocess/warc.cc:59-100 | a stream is clear exactly when no record of it has a place of risk, so the two directions of `ReadAll` cover every stream |
| `WarcFormat.RecordCoversHeader` | preprocess/warc.cc:83-98 | a record is never shorter than its header, whatever length it claims |
| `WarcHeader.HeaderByLines` | preprocess/warc.cc:65-82 | a header is accepted exactly if it ends in a blank line and exactly one of its lines is a Content-Length line, with a number up to its end or with nothing |
| `WarcHeader.AcceptedExactly` | preprocess/warc.cc:59-100 | a record is accepted exactly if its first line is WARC/1.0, its header is accepted, and the size that follows, in 64 bits, is there and ends with two line ends |
| `WarcFraming.WrittenIsRead` | preprocess/warc.cc:59-100 | a record written with any other fields, whatever follows it, is framed as exactly itself |
| `WarcFraming.StreamIsRead` | preprocess/warc.cc:59-100 | a stream of written records splits into exactly those records |
| `WarcFraming.UsualLengthField` | preprocess/warc.cc:69-79 | "Content-Length: " and the decimal number is understood for every length of a long long |
| `WarcFraming.LengthLineIs` | preprocess/warc.cc:73 | a line is a length field exactly if it starts with the letters of "Content-Length:" in any mix of cases |
| `WarcFraming.StrtollReads` | preprocess/warc.cc:77 | white space, a sign and digits are read as the decimal number, up to the limits of a long long |
| `WarcFraming.StrtollNothing` | preprocess/warc.cc:77-79 | where there is no such number, nothing is read |
| `WarcFraming.UsualRecord` | preprocess/warc.cc:59-100 | the usual text of a record, spelled out, is framed as one record whatever its content, its other fields and what follows |
| `WarcFraming.ValuelessExactly` | preprocess/warc.cc:73-83 | a written record without a length value is one of length zero, and an error if and only if a number that follows is in view |
| `WarcFraming.DigitMakesRisk` | preprocess/warc.cc:73-83 | with a field that starts with a digit behind it the stream is not clear |
| `WarcFraming.RiskPlace` | preprocess/warc.cc:73-83 | its place of risk is the end of the line without a value, whatever follows the record |
| `WarcFraming.AloneIsClear` | preprocess/warc.cc:73-83 | with only line ends behind it it is a record under every chunking |
| `WarcFraming.ExampleDepends` | preprocess/warc.cc:73-83 | a stream that is one record under the lenient reading and has its place of risk at byte 26, so that by `ReadAll` reads of one byte give the record and a big read after 26 of them gives none |
| `FilePieces.FilePiece.MakeRoom` | util/file_piece.cc:333-357 | resetting, doubling and sliding the buffer keep every byte not yet returned |
| `FilePieces.FilePiece.ReadShift` | util/file_piece.cc:328-366 | appends a chunk without losing or repeating a byte |
| `FilePieces.FilePiece.Shift` | util/file_piece.cc:253-267 | throws exactly at the end of the file |
| `FilePieces.FilePiece.ReadLine` | util/file_piece.cc:76-99 | the next line of the stream; end of file exactly when nothing is left |
| `FilePieces.ReadLines` | util/file_piece.cc:76-99 | for every stream, delimiter, buffer size and chunking: the stream split at the delimiter, then end of file |
| `FilePieces.SplitJoins` | util/file_piece.hh:124-136 | the lines with their delimiters give back the stream |
| `FilePieces.StripsOne` | util/file_piece.cc:83-86 | stripping takes one carriage return off lines that a delimiter ends, and nothing else |

## Left out

- Bignum: operations whose argument is the object itself (`AddBignum(*this)`), hexadecimal input and output, and the 128-limb overflow abort; capacity is a precondition instead.
- ProbingHashTable: `Power2Mod` masks are modelled as remainders, and the bit trick that rounds the bucket count, `Size` and memory reuse by `HugeRealloc` are not modelled; keys differ from the invalid key.
- AutoProbings.AutoProbing.Insert: states the result for new keys only, as its comment demands.
- FastDtoa.DigitGen: inputs and true numbers are given; the cached powers of ten and the multiplication that scales the double are not modelled.
- StartValues.ShortestDtoa: takes an estimate that keeps its promise as a precondition; `RoundTrip.PrintShortest` computes it.
- Estimates.EstimateBrackets: a floating-point operation is its exact result with a relative error of at most 2^-52, which holds for any rounding direction; that the numbers stay within the range of doubles is plain from their size.
- Strtod.FinalDecision: takes the promise about the guess as a precondition; the fast paths that compute the guess and the trimming and cutting of long inputs are not modelled.
- FoldFilter.WrapLines: lines of 2^31 bytes or more, where the source's 32-bit positions wrap.
- WarcReaders.WARCReader.Read: a total length below four, possible only with a negative Content-Length, counts as an error; the source reads before its buffer there. Running out of memory is not modelled.
- Memory models weaker than sequential consistency, spurious wake-ups, exceptions from semaphores and from the writer thread.
- UnboundedQueues.QueueIsSafeAndFifo: does not cover `Empty()`, which races by design, nor pages still linked when the queue is destroyed.
- CacheProtocol.PrintsAnswerToEarliest: keys are given with the lines; field selection and hashing are not modelled, so lines whose hashes collide have the same key, as in the program. A flush may happen at any time.
- WarcParallel.HandsOutEverything: the queue is first-in first-out with one step per call, as proved for `PCQueue`; child processes, compression and the output side are not modelled.
- Counted, fixed and precision modes of number printing, single-precision floats, and the reading of other number formats.
- `FilePiece` memory mapping, `peek`, `Offset`, words and numbers.
- `DelimiterList` packing and the foldfilter threads.
- Input and output, processes, compression libraries, ICU tools, tokenising, argument parsing, progress bars and scripts.
