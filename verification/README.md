# Radar target environment: verified models

Dafny models of the parts of this system where a mistake would be hard to see, and proofs of what those parts are for.

- **Log queue** (`QueueProtocol`, `QueueProperties`, `QueueProgress`, `BoundedQueue`): the lock-free bounded queue, once as a protocol of atomic steps for any number of threads, with what holds in every run and how an undisturbed call ends, once as a class on wrapping 64-bit counters.
- **Asynchronous logger** (`AsyncLogger`, `LoggerProperties`, `LoggerProgress`): producers and the worker on top of that queue, up to shutdown.
- **Deep-space integrator** (`DeepSpace`, `DeepSpaceHistory`, `DeepSpaceLaws`): the SDP4 secular step with its cached integration point, how far its answers depend on earlier queries, and what they are under forces with a known motion.
- **Formatting** (`Bits`, `Digits`, `Numerals`, `IntWriter`, `IntLayout`, `ArgList`, `FormatSyntax`, `FormatReparse`, `FormatMeaning`, `FormatAcceptance`, `FormatEngine`, `ArgFormatter`, `FormatArguments`, `FormatFields`): digit counting and writing, integer layout in a growing buffer, packed argument lists, the format-string engine with its indexing rules, the rendering of single arguments, and what whole strings and fields show.
- **Rotating log file** (`RotatingSink`): the files of a directory over a whole run.
- **Calendar** (`Calendar`, `DayOfYear`): three day counts against the Gregorian calendar and each other.
- **Server admission** (`Server`, `ServerProperties`, `ServerService`, `ServerDepartures`): accept and read handlers interleaved over one client list, mutex and counter, exactly when service is lost, and what becomes of a client that hangs up.
- **Log patterns** (`Pattern`): the pattern compiler against direct interpretation.
- **Coordinate frames** (`Frames`): the local and antenna frames as products of rotations.

`dafny verify dfyconfig.toml` checks everything.

Where the code does something other than its comments, names or callers suggest, the model follows the code:

- The day-of-year unpacking, its month table and the calendar have three different leap rules. In the year 2000 the stored epoch of a catalogue line is one day late from day 60 on, and day 366 runs past the month table (`DayOfYear.EpochsAgreeExactly`).
- The number parser of format strings reads 5000000000 as 705032704 (`Numerals.FiveBillionSlipsThrough`, `Numerals.ParserRightUpToTenDigits`).
- An empty specification `{:}` takes its alignment from the character behind the field, so a character argument is refused when an equals sign follows (`FormatArguments.LooksBehindTheFieldExactly`).
- The "East North Up" frame orders its coordinates north, up, east (`Frames.AxesAreNorthUpEast`), and antenna azimuth turns from north towards west (`Frames.FirstAxisIsBoresight`).
- In a log pattern `%%` shows both percent signs (`Pattern.UnknownFlagsStay`).
- After a failed accept the server never accepts again, and a connection whose read fails with anything but end of stream or reset keeps its slot (`ServerService.AcceptingExactly`, `ServerService.ServedExactly`).
- The integrator's cache shows within a minute behind a grid point, and extends the span in which queries succeed (`DeepSpaceHistory.SameIndexAsFresh`).

## Model

| member | source | states |
|---|---|---|
| QueueProtocol.NextKeepsInv | Libraries/spdlog/details/mpmc_bounded_q.h:82-133 | Whatever thread moves, and whichever load, compare-exchange, write or publish it performs, the invariant survives: dequeue_pos <= enqueue_pos <= dequeue_pos + N, each ticket has at most one writer and one reader, and every cell of the window is free, being written, published with its ticket's item, or still held by the reader one lap behind |
| QueueProtocol.RunHasInv | Libraries/spdlog/details/mpmc_bounded_q.h:66-133 | The invariant holds in every state of every finite run, for any number of threads and any capacity of at least two |
| QueueProtocol.WinnerFindsRoom | Libraries/spdlog/details/mpmc_bounded_q.h:91-95 | A thread about to win the compare-exchange on enqueue_pos has a free cell: the ring is not full at that moment |
| QueueProperties.StepRefinesFifo | Libraries/spdlog/details/mpmc_bounded_q.h:82-133 | Each atomic step is one step of a bounded FIFO of capacity N: a won enqueue appends the item at the position compared, a won dequeue takes the front, every other step is silent |
| QueueProperties.RunGrowsHistory | Libraries/spdlog/details/mpmc_bounded_q.h:82-133 | Between any two states of a run no ticket changes its item and no value handed out is withdrawn |
| QueueProperties.TicketAccounted | Libraries/spdlog/details/mpmc_bounded_q.h:105-107 | Each issued ticket is in exactly one of four places (delivered, claimed, stored, in flight), and the value delivered for a ticket is the item enqueued with it: none lost, duplicated or reordered |
| QueueProperties.DequeueReturnsItsTicket | Libraries/spdlog/details/mpmc_bounded_q.h:130-132 | A dequeue that returns true carries the item of the ticket it won |
| QueueProperties.HoldersUseDifferentCells | Libraries/spdlog/details/mpmc_bounded_q.h:105-106 | Two threads that hold tickets hold different cells, so no cell is read while written, nor touched by two threads at once |
| QueueProperties.EnqueueFalseExactly | Libraries/spdlog/details/mpmc_bounded_q.h:88-103 | At the load of a cell's sequence an enqueue gives up if and only if its position is the current one and the queue is full or the reader one lap behind has not released the cell; it has then changed nothing and kept its item |
| QueueProperties.DequeueFalseExactly | Libraries/spdlog/details/mpmc_bounded_q.h:116-128 | At the load of a cell's sequence a dequeue gives up if and only if its position is the current one and the queue is empty or the writer of its ticket has not published |
| QueueProperties.AloneFalseIsExact | Libraries/spdlog/details/mpmc_bounded_q.h:88-128 | With no other call in progress, false is exactly full for enqueue and exactly empty for dequeue |
| QueueProperties.StaleCellMovedOn | Libraries/spdlog/details/mpmc_bounded_q.h:89-103 | A cell whose ticket has been claimed has a sequence number past that ticket, so a stale position is never mistaken for an empty queue |
| QueueProperties.AtRestRingIsQueue | Libraries/spdlog/details/mpmc_bounded_q.h:82-133 | Between calls the ring holds exactly the queued items cell by cell, and exactly the claimed tickets have been delivered |
| QueueProperties.OneCellLosesItems | Libraries/spdlog/details/mpmc_bounded_q.h:66-68 | Why the constructor demands two cells: a run with one cell in which the second of two successful enqueues overwrites the first item |
| QueueProgress.EnqueueAloneEnds | Libraries/spdlog/details/mpmc_bounded_q.h:82-108 | With no other call in progress an enqueue that has not won a ticket, at whatever step and with however old a position, ends within six of its own steps: with its item last in the queue if there is room, and otherwise with false and nothing changed |
| QueueProgress.DequeueAloneEnds | Libraries/spdlog/details/mpmc_bounded_q.h:110-133 | So does a dequeue: with the front item and the queue without it, or with false and nothing changed when the queue is empty |
| QueueProgress.WriterFinishes | Libraries/spdlog/details/mpmc_bounded_q.h:105-107 | An enqueue that has won its ticket returns true within two steps, the queue unchanged |
| QueueProgress.ReaderFinishes | Libraries/spdlog/details/mpmc_bounded_q.h:130-132 | A dequeue that has won its ticket returns true with that ticket's item within two steps, the queue unchanged |
| BoundedQueue.MaskPicksSlot | Libraries/spdlog/details/mpmc_bounded_q.h:88 | On counters that wrap at 2^64, position & mask is the unbounded position modulo the capacity, for every power of two |
| BoundedQueue.DifferenceSurvivesWrap | Libraries/spdlog/details/mpmc_bounded_q.h:89-90 | The signed difference of two wrapped counters is the difference of the unbounded ones, for distances below half a word |
| BoundedQueue.EnqueueDistance | Libraries/spdlog/details/mpmc_bounded_q.h:89-99 | At the enqueue position the signed difference is 0, or negative exactly when the ring is full |
| BoundedQueue.DequeueDistance | Libraries/spdlog/details/mpmc_bounded_q.h:117-126 | At the dequeue position the signed difference is 0, or negative exactly when the ring is empty |
| BoundedQueue.StoreKeeps | Libraries/spdlog/details/mpmc_bounded_q.h:105-106 | Storing an item and publishing it turns a ring that represents a sequence into one that represents it with the item appended |
| BoundedQueue.TakeKeeps | Libraries/spdlog/details/mpmc_bounded_q.h:130-131 | Taking an item and releasing its cell turns it into one that represents the tail |
| BoundedQueue.Queue.constructor | Libraries/spdlog/details/mpmc_bounded_q.h:62-74 | A new queue is valid and empty |
| BoundedQueue.Queue.Create | Libraries/spdlog/details/mpmc_bounded_q.h:66-74 | Construction succeeds exactly for powers of two from two on, decided by size & (size - 1) |
| BoundedQueue.Queue.Enqueue | Libraries/spdlog/details/mpmc_bounded_q.h:82-108 | After any number of operations, with counters that have wrapped and any number of spurious compare-exchange failures: true exactly when there is room, and the item is then the last; false changes nothing |
| BoundedQueue.Queue.Dequeue | Libraries/spdlog/details/mpmc_bounded_q.h:110-133 | Some item exactly when there is one, always the first; otherwise nothing changes |
| AsyncLogger.NextIsQueueNext | Libraries/spdlog/details/async_log_helper.h:227-309 | Every step of producers and worker is a step of the queue protocol or does not touch the queue, so the queue's guarantees carry over |
| AsyncLogger.RunHasInv | Libraries/spdlog/details/async_log_helper.h:249-321 | In every state of every run each sink has been given exactly the records of the messages processed so far, in ticket order, and the worker's two flags say which control messages it has met |
| AsyncLogger.ActKeepsWorker | Libraries/spdlog/details/async_log_helper.h:270-321 | Each step of the worker's own code (noting a control message, delivering to one sink, flushing one sink, deciding to stop) keeps every sink's records equal to those of the messages processed, and the flags equal to what was met |
| LoggerProperties.ShutdownDeliversAll | Libraries/spdlog/details/async_log_helper.h:249-321 | Once the worker has exited every sink has had each record taken from the queue exactly once in ticket order, a terminate message is among those taken, and a flush is the last thing each sink was asked |
| LoggerProperties.BeforeTerminateIsDelivered | Libraries/spdlog/details/async_log_helper.h:205-216 | Every log record whose ticket precedes the terminate message is in every sink, at the place its ticket gives it |
| LoggerProperties.FlushRequestsHonoured | Libraries/spdlog/details/async_log_helper.h:311-321 | While the flush flag is down, every flush or terminate request processed has been followed by a flush of every sink that covers all records before it |
| LoggerProperties.BlockRetryLosesNothing | Libraries/spdlog/details/async_log_helper.h:227-242 | Under block_retry each finished call of a producer won one ticket carrying its message, in program order; a call whose push failed still holds its message; the queue holds nothing else |
| LoggerProperties.CallsReachSinksInOrder | Libraries/spdlog/details/async_log_helper.h:207-321 | End to end: two log calls of one producer that precede the terminate message are in every sink, in program order |
| LoggerProgress.WorkerDrains | Libraries/spdlog/details/async_log_helper.h:249-321 | A worker about to look for a message, producers between calls and no flush interval elapsed: after finitely many of its own steps the queue is empty, each sink has been given the records of the waiting messages in order and then one flush if one was asked for, and nothing else; the worker has exited if it was told to terminate and looks again otherwise |
| LoggerProgress.WorkerExits | Libraries/spdlog/details/async_log_helper.h:249-309 | In every reachable state with a terminate message enqueued and the producers between calls, the worker exits after finitely many of its own steps, wherever it is |
| LoggerProgress.PushEnds | Libraries/spdlog/details/async_log_helper.h:227-242 | With no other call in progress a push either wins the next ticket with its message, or finds the queue full and then tries again with the same message under block_retry and gives it up under the discard policy |
| DeepSpace.Integrator.constructor | Target Environment/SatelliteUtils/noradSDP4.cpp:354-373 | The cache starts at the epoch point with the dot terms of that point |
| DeepSpace.Integrator.Secular | Target Environment/SatelliteUtils/noradSDP4.cpp:426-502 | A query answers from one point of the epoch trajectory and leaves the cache on it; it fails exactly when the integration span is exceeded, leaves the cache where integration would have started, and raises the warning |
| DeepSpace.Integrator.AdvanceOnce | Target Environment/SatelliteUtils/noradSDP4.cpp:478-484 | One pass of the loop moves the cache to the next grid point away from epoch, with that point's own dot terms |
| DeepSpace.Integrator.Integrate | Target Environment/SatelliteUtils/noradSDP4.cpp:473-489 | The do-while loop ends at grid point trunc(tsince/720), within one step of tsince, after at most 10000 steps, all away from epoch |
| DeepSpace.AtimeOnGrid | Target Environment/SatelliteUtils/noradSDP4.cpp:478-488 | The k-th point of the epoch trajectory has atime = 720 k |
| DeepSpaceHistory.Queries | Target Environment/SatelliteUtils/noradSDP4.cpp:426-502 | A whole run of queries on one object gives, query by query, the answer from the grid index its history determines |
| DeepSpaceHistory.AnsweredFromTrunc | Target Environment/SatelliteUtils/noradSDP4.cpp:450-489 | A successful query is answered from index trunc(tsince/720) exactly unless tsince is at most one minute behind the cached point; then from the cached point, one further from epoch |
| DeepSpaceHistory.SpanFromCache | Target Environment/SatelliteUtils/noradSDP4.cpp:464-471 | From epoch a query fails exactly beyond 7200000 minutes; a warm cache that is not dropped moves that limit outward with it and never inward |
| DeepSpaceHistory.SameIndexAsFresh | Target Environment/SatelliteUtils/noradSDP4.cpp:440-489 | After any history the cached index gives what a new object would give, if and only if tsince is not just behind the cached point, nor beyond 7200000 minutes from epoch but within them from a cached point that is kept |
| DeepSpaceHistory.CacheIsTransparent | Target Environment/SatelliteUtils/noradSDP4.cpp:440-502 | Hence within the span from epoch, and not just behind the cached point, history does not change an answer |
| DeepSpaceHistory.HistoriesAgree | Target Environment/SatelliteUtils/noradSDP4.cpp:440-502 | Two histories of one satellite give the same answer wherever both answer and neither is just behind |
| DeepSpaceHistory.CacheIsVisible | Target Environment/SatelliteUtils/noradSDP4.cpp:450-462 | The one-minute tolerance shows: a satellite and two histories whose answers at the same time differ |
| DeepSpaceLaws.EpochAnswer | Target Environment/SatelliteUtils/noradSDP4.cpp:426-502 | At epoch a query returns the elements of the epoch and the mean motion there, for every resonance and history, with the resonant angle as the constructor sets it for either period |
| DeepSpaceLaws.ConstantForceAnswer | Target Environment/SatelliteUtils/noradSDP4.cpp:236-502 | Under a constant force a, for either period, every history and every tsince answered: the mean anomaly is its linear drift plus half a t^2, less the drag of the node once or twice; the mean motion grows by a t; the other elements drift linearly. With a = 0 the integrator is not seen |
| DeepSpaceLaws.TrapezoidRule | Target Environment/SatelliteUtils/noradSDP4.cpp:403-493 | Under a force linear in the longitude, from any grid point and over any time, the longitude moves by the trapezoid of its rates and the mean motion by the trapezoid of the forces at both ends |
| DeepSpaceLaws.GridForce | Target Environment/SatelliteUtils/noradSDP4.cpp:383-424 | The force kept with a grid point is the one at its own longitude and time, and the rate of its longitude follows its own mean motion |
| DeepSpaceLaws.DriftAnswer | Target Environment/SatelliteUtils/noradSDP4.cpp:430-438 | Without resonance every element drifts linearly and the mean motion is not touched |
| Digits.DecimalRoundTrip | Libraries/spdlog/details/format.h:1038-1061 | Reading the decimal numeral of a number gives the number |
| Digits.DigitCountIs | Libraries/spdlog/details/format.h:1000-1002 | The digit count is c exactly when the number lies between the powers of ten around c digits |
| Digits.EstimateInTable | Libraries/spdlog/details/format.h:1006-1007 | The table index of the bit trick is inside the table for every 64-bit and every 32-bit word |
| Digits.EstimateBrackets | Libraries/spdlog/details/format.h:1006-1007 | The estimate bit length * 1233 >> 12 is the digit count or one less, for every 64-bit word |
| Digits.CountDigitsCorrect | Libraries/spdlog/details/format.h:1002-1036 | The leading-zero forms, 64-bit and 32-bit, count decimal digits correctly for every word |
| Digits.CountDigitsByDivision | Libraries/spdlog/details/format.h:1011-1026 | The fallback loop, four digits a turn, returns the same true count |
| Digits.DigitPair | Libraries/spdlog/details/format.cc:560-566 | Entry i of the pair table is the two-digit numeral of i, for all hundred |
| Digits.TenPowerValues | Libraries/spdlog/details/format.cc:584-592 | Entry u of the 64-bit power table is ten to the u, entry 0 being 0 |
| Digits.WriteBackward | Libraries/spdlog/details/format.h:3761-3783 | The two-digits-at-a-time loop writes exactly the numeral, ending before the given cell, and leaves every other cell |
| Digits.FormatDecimal | Libraries/spdlog/details/format.h:1039-1061 | Writing with the counted number of cells fills exactly those cells with the numeral |
| Numerals.SignedRoundTrip | Libraries/spdlog/details/format.h:2723-2738 | A signed numeral reads back as its number, for every integer |
| Numerals.SignedDecimalInjective | Libraries/spdlog/details/format.h:2723-2738 | Different integers have different numerals |
| Numerals.FormatInt.Unsigned | Libraries/spdlog/details/format.h:3809-3814 | The object holds exactly the numeral of any 64-bit unsigned value, inside its 22 cells |
| Numerals.FormatInt.Signed | Libraries/spdlog/details/format.h:3785-3808 | And of any 64-bit signed value, the most negative included, with room for the sign |
| Numerals.DigitRun | Libraries/spdlog/details/format.h:4091-4104 | The digits from a position on: all of them digits, and the run ends at a character that is none |
| Numerals.ParseNonnegativeInt | Libraries/spdlog/details/format.h:4089-4110 | The parser of unsigned numbers in 32-bit arithmetic: what it answers for a run of digits, where it stops, and that it never reads past the run |
| Numerals.DropsAreOfTheNumber | Libraries/spdlog/details/format.h:4096-4102 | Whether the wrap test fires depends on the number alone: it does exactly when some leading part of it, taken modulo 2^32, is less than the part one digit shorter |
| Numerals.ParserRightExactly | Libraries/spdlog/details/format.h:4094-4109 | For numbers of any length the parser is right (the value up to INT_MAX, an error above) if and only if the number fits 32 bits, or some leading part of it wraps to less than the part before, or it wraps to above INT_MAX |
| Numerals.ParserRightUpToTenDigits | Libraries/spdlog/details/format.h:4094-4109 | For numbers below 10000000000 it is right if and only if the number is below 4772185884, or above 6442450943 and below 9544371768 |
| Numerals.SmallNumbersNeverDrop | Libraries/spdlog/details/format.h:4096-4102 | Below 2^32 the wrap test never fires |
| Numerals.FiveBillionSlipsThrough | Libraries/spdlog/details/format.h:4096-4102 | The wrap test is not complete: 5000000000 is read as 705032704 without an error |
| IntWriter.Buffer.constructor | Libraries/spdlog/details/format.h:777-794 | A new buffer is empty |
| IntWriter.Buffer.Grow | Libraries/spdlog/details/format.h:846-869 | Growing reaches the capacity asked for and keeps everything written |
| IntWriter.Buffer.GrowBuffer | Libraries/spdlog/details/format.h:2704-2711 | Room for n more cells, and nothing written before changes |
| IntWriter.NumeralRoundTrip | Libraries/spdlog/details/format.h:3181-3244 | The numeral in base 2, 8 or 16 reads back as its number |
| IntWriter.FillPadding | Libraries/spdlog/details/format.h:3047-3062 | Padding on both sides of a content area, the odd character behind it, the content area and everything before untouched |
| IntWriter.PrepareIntBuffer | Libraries/spdlog/details/format.h:3064-3139 | For every width, fill and alignment: everything but the digits is laid out, the cell of the last digit is returned, and the digit area is exactly the gap left |
| IntWriter.CountShifts | Libraries/spdlog/details/format.h:3181-3186 | The digit-counting loop counts what the writing loop will write |
| IntWriter.WriteShifts | Libraries/spdlog/details/format.h:3189-3196 | The digit-writing loop fills exactly the counted area, last digit first, and no other cell |
| IntWriter.WriteInt | Libraries/spdlog/details/format.h:3144-3248 | For every 32-bit or 64-bit value, kind, sign and hash flag, width, fill and alignment the formatted text is appended and nothing else changes; an unknown kind is refused and appends nothing |
| IntWriter.LayoutLength | Libraries/spdlog/details/format.h:3101-3139 | The text has exactly max(width, prefix + digits) characters |
| IntWriter.FormattedDecodes | Libraries/spdlog/details/format.h:3144-3248 | Nothing is lost by formatting: read back in its base the text is the value, for every base, flag, width, alignment and neutral fill, zero padding included |
| IntLayout.FormattedShows | Libraries/spdlog/details/format.h:3101-3248 | The text is sign, mark of the base and digits without leading zeros in the base and case of the type, padded up to the width with the fill character alone: behind for left alignment, in front for right and default, on both sides with the odd character behind for center, between mark and digits for numeric |
| IntWriter.WriteUnsignedDecimal | Libraries/spdlog/details/format.h:2713-2721 | Appends the numeral behind the cells kept for a prefix |
| IntWriter.WriteDecimal | Libraries/spdlog/details/format.h:2723-2738 | Appends exactly the signed numeral, for every value, the most negative included |
| ArgLists.PackedTypes | Libraries/spdlog/details/format.h:2435-2439 | Packing types four bits each into a 64-bit word and reading digit i back gives type i, NONE past the end, for any number of arguments and any i below sixteen |
| ArgLists.TypeAtIsNibble | Libraries/spdlog/details/format.h:1713-1719 | Masking then shifting reads the i-th group of four bits |
| ArgLists.TypesOfList | Libraries/spdlog/details/format.h:1713-1719 | Slot i of a list holds the type of argument i, or NONE |
| ArgLists.RepresentationDetected | Libraries/spdlog/details/format.h:1746 | Slot fifteen is NONE exactly when the list stores plain values |
| ArgLists.Lookup | Libraries/spdlog/details/format.h:1742-1769 | For any number of arguments: index i below the count yields argument i with its type, any other index yields type NONE, the right member of the union is read, and never past the end mark |
| ArgLists.InitMap | Libraries/spdlog/details/format.cc:716-759 | The name map holds exactly the named arguments in order, in either representation |
| ArgLists.Find | Libraries/spdlog/details/format.h:2077-2087 | Lookup by name walks to the first entry with that name |
| ArgLists.FirstNamedIs | Libraries/spdlog/details/format.h:2077-2087 | What is found is the argument of the first entry so named; nothing is found only when there is none |
| ArgLists.LookedUpIsFirst | Libraries/spdlog/details/format.cc:716-759 | A name finds what the first of the arguments passed under that name stands for, and nothing exactly when there is none |
| FormatSyntax.SpecReprints | Libraries/spdlog/details/format.h:4190-4367 | A parsed specification, printed, is the text it was parsed from |
| FormatSyntax.FieldReprints | Libraries/spdlog/details/format.h:4184-4371 | So is a parsed field |
| FormatSyntax.SplitReprints | Libraries/spdlog/details/format.h:4379-4401 | So is a whole format string: its pieces spell it |
| FormatSyntax.DoubledIsLiteral | Libraries/spdlog/details/format.h:4386-4391 | Text with doubled braces parses to the literals of the text |
| FormatReparse.SpecParses | Libraries/spdlog/details/format.h:4190-4367 | A specification printed in front of a closing brace is parsed as it was, for every fill, alignment, flag, width, precision and type that is not ambiguous |
| FormatReparse.FieldParses | Libraries/spdlog/details/format.h:4184-4371 | So is a field |
| FormatReparse.SplitParses | Libraries/spdlog/details/format.h:4379-4401 | So is a whole format string: printing pieces and splitting the text gives the pieces back |
| FormatMeaning.DoublingRoundTrip | Libraries/spdlog/details/format.h:4379-4401 | Doubling the braces of any NUL-free text and formatting it gives the text back, whatever the arguments |
| FormatMeaning.MeaningConsumes | Libraries/spdlog/details/format.h:4151-4181 | An accepted format string finds every argument it asks for, nested widths and precisions included |
| FormatMeaning.StaysAutomatic | Libraries/spdlog/details/format.h:2262-2269 | Once automatic, every later demand is automatic and takes the next argument |
| FormatMeaning.StaysManual | Libraries/spdlog/details/format.h:2278-2287 | Once manual or named, no later demand is automatic |
| FormatMeaning.IndexingDiscipline | Libraries/spdlog/details/format.h:2262-2287 | An accepted format string used only automatic indexing, its k-th demand (counting nested width and precision) met by argument k; or every demand names its argument, and is met by the argument of that number or by what the first argument of that name stands for |
| FormatMeaning.OutcomeByStages | Libraries/spdlog/details/format.h:4196-4367 | Parsing fill and alignment, then flags, then width, precision and type, one after the other, gives what the parsed specification means |
| FormatMeaning.FetchedIsPlain | Libraries/spdlog/details/format.cc:767-782 | What a field gets is never itself a named argument, and integer types carry a number |
| FormatAcceptance.ConsumedExactly | Libraries/spdlog/details/format.h:2262-2287 | The demands of a string can be met if and only if all are automatic and there are arguments enough, or none is automatic and each has its argument |
| FormatAcceptance.PlainStrings | Libraries/spdlog/details/format.h:4379-4401 | A string of text and fields without specification is accepted if and only if its demands can be met and no argument is refused; it then gives the text with each field's own argument shown in its place |
| FormatEngine.Formatter.constructor | Libraries/spdlog/details/format.h:2256-2260 | Indexing starts undecided |
| FormatEngine.Formatter.DoGetArg | Libraries/spdlog/details/format.cc:767-782 | The argument at an index with a named one followed to what it stands for; an error past the end |
| FormatEngine.Formatter.NextArg | Libraries/spdlog/details/format.h:2262-2269 | The next argument, or an error after manual indexing |
| FormatEngine.Formatter.CheckNoAutoIndex | Libraries/spdlog/details/format.h:2278-2287 | Manual indexing is allowed exactly while no automatic index was used, and is remembered |
| FormatEngine.Formatter.ParseArgIndex | Libraries/spdlog/details/format.h:4151-4163 | No digit takes the next argument, digits take the one they name |
| FormatEngine.Formatter.ParseArgName | Libraries/spdlog/details/format.h:4165-4181 | A name takes the first argument so named |
| FormatEngine.Formatter.ParseNested | Libraries/spdlog/details/format.h:4277-4308 | A width or precision from an argument: the argument's number, an error unless it is an integer from 0 to INT_MAX |
| FormatEngine.Formatter.ParseAlign | Libraries/spdlog/details/format.h:4198-4236 | Fill and alignment, second character before first, as the grammar says |
| FormatEngine.Formatter.ParseFlags | Libraries/spdlog/details/format.h:4239-4270 | Sign, hash and zero flag, and the argument types that refuse them |
| FormatEngine.Formatter.ParsePrecision | Libraries/spdlog/details/format.h:4311-4362 | The precision behind its point, refused for integers and pointers |
| FormatEngine.Formatter.ParseSpec | Libraries/spdlog/details/format.h:4196-4367 | A whole specification, read as the parsed syntax means; refused exactly when malformed, unfit for the argument's type, or short of an argument |
| FormatEngine.Formatter.FormatField | Libraries/spdlog/details/format.h:4184-4376 | One field: its text is written and parsing resumes behind its closing brace, or it is refused |
| FormatEngine.Formatter.Format | Libraries/spdlog/details/format.h:4379-4401 | The main loop accepts a string exactly when it means something, and then appends exactly that; every read is at or before the terminating NUL |
| FormatArguments.IntegersHaveNoPrecision | Libraries/spdlog/details/format.h:4357-4362 | A specification accepted for an integer has no precision |
| FormatArguments.IntegerFieldDecodes | Libraries/spdlog/details/format.h:2134-2138 | An integer's field, wherever it stands, has exactly the width asked or that of its sign, prefix and digits, whichever is more, and reads back as the integer in the base of its type when the fill is neutral |
| FormatArguments.ZeroFlagIsNeutral | Libraries/spdlog/details/format.h:4263-4270 | Zero padding asked for by the zero flag never makes a field ambiguous |
| ArgFormatter.WriteStr | Libraries/spdlog/details/format.h:2990-3020 | Text goes into a field of the asked width, to the left unless asked otherwise, with everything written before kept |
| ArgFormatter.WriteString | Libraries/spdlog/details/format.h:3022-3045 | A string is cut at the precision and padded; another type than s and a null pointer are refused and write nothing |
| ArgFormatter.VisitBool | Libraries/spdlog/details/format.h:2116-2151 | A boolean is a word without a type and a number with one |
| ArgFormatter.VisitChar | Libraries/spdlog/details/format.h:2153-2191 | A character is refused with numeric alignment or any flag, written with its padding otherwise, and treated as a number under a number type |
| ArgFormatter.VisitAddress | Libraries/spdlog/details/format.h:2099-2104 | An address is a hexadecimal number with its prefix and no sign |
| ArgFormatter.Visit | Libraries/spdlog/details/format.h:1644-1678 | Every modelled kind of argument is written exactly as its text says, or refused and nothing written |
| FormatArguments.AlignmentAlone | Libraries/spdlog/details/format.h:2161-2162 | With no width an alignment changes what an argument writes, or whether it is refused, if and only if it is numeric and the argument a character |
| FormatArguments.LooksBehindTheFieldExactly | Libraries/spdlog/details/format.h:4198-4236 | What a field writes, or whether it is refused, is the same whatever follows it, if and only if it is not an empty specification with an equals sign behind and a character as argument |
| FormatArguments.EqualsSignRefusesCharacter | Libraries/spdlog/details/format.h:4198-4236 | With a character as argument the string {:} shows it and the string {:}= is refused |
| FormatFields.NestedIsAsWritten | Libraries/spdlog/details/format.h:4277-4355 | A width or precision taken from an argument is the same size written out in digits, and accepted exactly for an integer from 0 to INT_MAX |
| FormatFields.IntegerField | Libraries/spdlog/details/format.h:4198-4367 | From format string to text: an integer in a field with fill, alignment character, sign, hash and zero flag, width and type shows its mark and digits padded where the alignment character says; refused exactly for a sign on an unsigned one or a type that is no integer type |
| FormatFields.TextField | Libraries/spdlog/details/format.h:2990-3045 | From format string to text: a string cut at its precision, a character or a word for a boolean, padded where the alignment character says; refused exactly for a null pointer and for numeric alignment of a string or a character |
| FormatFields.WithoutSpecification | Libraries/spdlog/details/format.h:1644-1678 | What each kind of argument shows in a field without a specification |
| FormatFields.TypeCharacters | Libraries/spdlog/details/format.h:2116-2191 | A boolean or a character shows its number under an integer type, the type of an argument's own kind changes nothing, any other type is refused |
| FormatFields.RefusedFields | Libraries/spdlog/details/format.h:4198-4362 | Whatever the renderer: a sign for anything but a signed number, hash, zero flag or numeric alignment for anything but a number, and a precision for an integer, boolean, character or address are refused |
| RotatingSink.FilenamesDiffer | Libraries/spdlog/sinks/file_sinks.h:93-101 | Different indices have different file names |
| RotatingSink.FilenameIs | Libraries/spdlog/sinks/file_sinks.h:93-101 | The name of file 0 is base.ext, that of file i is base.i.ext with i in decimal |
| RotatingSink.RotatingFileSink.constructor | Libraries/spdlog/sinks/file_sinks.h:61-73 | The sink opens file 0 for appending, creating it if it is missing, and takes its length as the current size, over whatever numbered files an earlier run left; no other file changes |
| RotatingSink.RotatingFileSink.SinkIt | Libraries/spdlog/sinks/file_sinks.h:81-90 | One message: appended to file 0, after a rotation exactly when it would not fit; _current_size stays the length of file 0, and no file of another name changes |
| RotatingSink.RotatingFileSink.MoveFile | Libraries/spdlog/sinks/file_sinks.h:114-127 | One turn of the loop: the target goes, the source takes its name, nothing else changes |
| RotatingSink.RotatingFileSink.Rotate | Libraries/spdlog/sinks/file_sinks.h:109-130 | Every file moves up one index, the one past max_files goes, file 0 starts empty |
| RotatingSink.LogAll | Libraries/spdlog/sinks/file_sinks.h:61-90 | A sink opened over whatever numbered files an earlier run left and given any messages: its files keep what is found and logged as stated below, files of other names stay as they were, and in a directory without such the files of the run are all there is |
| RotatingSink.LoggedExtends | Libraries/spdlog/sinks/file_sinks.h:81-130 | One message extends the chronicle at its end and may drop the oldest file, nothing else |
| RotatingSink.RunKeepsRecent | Libraries/spdlog/sinks/file_sinks.h:81-130 | After any messages on top of any files found: their number grows by the rotations up to max_files + 1; oldest to newest they are a message-aligned suffix of what was found and then everything logged, all of it until the limit is passed; every file is within max_size, one message alone, or as it was found |
| RotatingSink.RunFromEmpty | Libraries/spdlog/sinks/file_sinks.h:81-130 | From an empty directory: min(rotations, max_files) + 1 files, a message-aligned suffix of everything logged (all of it while rotations <= max_files), each within max_size or one message alone |
| RotatingSink.RunClosesFull | Libraries/spdlog/sinks/file_sinks.h:81-90 | A file is closed only when the next message would not fit: of two neighbours parted by this run the newer one starts with a message too long for the older one |
| RotatingSink.NewestIsKept | Libraries/spdlog/sinks/file_sinks.h:81-90 | The newest message is always the last of file 0 |
| Calendar.JulianIsDayCount | Target Environment/SatelliteUtils/utils.cpp:57-65 | The integer formula, in truncating division, is the proleptic Gregorian day count, for every month of every year from -4799 on |
| Calendar.JulianCountsDays | Target Environment/SatelliteUtils/utils.cpp:57-65 | It grows by exactly one from each day to the next, across month, leap and century ends |
| Calendar.JulianYear | Target Environment/SatelliteUtils/utils.cpp:61-63 | From one first of January to the next it grows by the length of the year |
| Calendar.MarchYearLength | Target Environment/SatelliteUtils/utils.cpp:61-63 | The year terms of the formula count leap years by the Gregorian rule |
| DayOfYear.DurData | Target Environment/SatelliteUtils/utils.cpp:5-42 | The unpacking loops: the year they land in, the month and day by the month table, and clock fields in range that add up to the day fraction; None exactly when the month loop runs past its table |
| DayOfYear.LeapRules | Target Environment/SatelliteUtils/utils.cpp:13-52 | Where the year loop, the month table and the calendar disagree about leap years |
| DayOfYear.UnpackedJulianDay | Target Environment/SatelliteUtils/utils.cpp:5-65 | The Julian day of the unpacked date, for every start year and day number: the start plus the day number, plus the table's slip, minus the false leap years passed |
| DayOfYear.LandsOn | Target Environment/SatelliteUtils/utils.cpp:11-20 | Counted from any start year, day r of year g (by the year loop's own years) lands on year g, day r |
| DayOfYear.LandsSomewhere | Target Environment/SatelliteUtils/utils.cpp:11-20 | Every day number from 1 on is such a day |
| DayOfYear.FalseLeapsCount | Target Environment/SatelliteUtils/utils.cpp:11-20 | The years the loop takes for leap years and the calendar does not, in closed form; there is none exactly when no century year not divisible by 400 is passed |
| DayOfYear.UnpackingRightExactly | Target Environment/SatelliteUtils/utils.cpp:5-65 | For any start year, any later year g and day r in it, unpacking keeps the day if and only if no short century is passed and r is not past a wrong February, or g is divisible by 400, r >= 60 and the start lies from 100 to 199 years before |
| DayOfYear.UnpackingRightInYear | Target Environment/SatelliteUtils/utils.cpp:5-65 | Within the start year: if and only if it is not a multiple of 400 with day >= 60, nor a multiple of 100 but not of 400 or 1000 with day >= 61 |
| DayOfYear.OverrunExactly | Target Environment/SatelliteUtils/utils.cpp:22-35 | The month table is overrun exactly by day 366 of a year divisible by 400 or by 1000 |
| DayOfYear.UnpackedDateValid | Target Environment/SatelliteUtils/utils.cpp:22-35 | The unpacked date is a real one if and only if it is not day 60 of a year the table wrongly lengthens |
| DayOfYear.AwayFromCenturies | Target Environment/SatelliteUtils/utils.cpp:5-65 | When no visited year is a multiple of 100: a valid date, on 1 January plus day number - 1 |
| DayOfYear.Days50IsJulian | Target Environment/SatelliteUtils/utils.cpp:73-85 | For catalogue years 1957 to 2056 days50 + 2433281.5 is the Julian date of 1 January plus day - 1 |
| DayOfYear.CatalogueEpoch | Target Environment/SatelliteUtils/catalog_tle.cpp:82-93 | The epoch field of a catalogue line: the Julian date stored, when there is one, and the epoch handed to SDP4 |
| DayOfYear.EpochsAgreeExactly | Target Environment/SatelliteUtils/catalog_tle.cpp:82-162 | For every epoch field whose day is below 999.9999998 the stored Julian date and the day count used for sidereal time name the same instant, if and only if the field is not year 00 with day 60 to 366, year 99 with day 425 to 731, or year 98 with day 790 or more; there the stored date is one day late, and days 00.366 and 99.731 have none |
| DayOfYear.LateLandings | Target Environment/SatelliteUtils/utils.cpp:11-20 | Those are exactly the fields that land on or after day 60 of 2000 |
| Server.StepKeepsInv | Target Environment/Server/Server.cpp:81-294 | Every atomic step of every accept and read handler, on any number of threads, keeps: one accept outstanding or handled, one holder of the mutex, one user per registered connection, the counting equation, the limit |
| Server.RunKeepsInv | Target Environment/Server/Server.cpp:81-294 | So does every run |
| ServerProperties.CounterAccounts | Target Environment/Server/Server.cpp:92-95 | In every reachable state the counter is the registered connections, plus those erased and not yet counted off, minus one inserted and not yet counted; counter and list stay within the limit, and at most one accept is outstanding |
| ServerProperties.NoWrap | Target Environment/Server/Server.cpp:95 | Counting off never wraps below zero and counting up never passes the limit, on the 32-bit counter |
| ServerProperties.UsersAreRegistered | Target Environment/Server/Server.cpp:81-191 | A handler that still uses a connection finds it registered, with no read outstanding on it and no other handler using it |
| ServerProperties.ErasedOnce | Target Environment/Server/Server.cpp:91-93 | No connection is erased twice in any run |
| ServerService.AcceptingExactly | Target Environment/Server/Server.cpp:219-294 | Over every run: no accept is outstanding or being handled if and only if some accept has failed |
| ServerService.FailedAcceptIsFinal | Target Environment/Server/Server.cpp:242-251 | After one failed accept nobody is ever registered again |
| ServerService.FirstAcceptCanFail | Target Environment/Server/Server.cpp:242-251 | The very first accept can fail; no continuation then admits anybody |
| ServerService.ServedExactly | Target Environment/Server/Server.cpp:81-206 | Over every run: a registered connection has a read outstanding or a handler if and only if none of its reads has ended in an error other than the end of the stream |
| ServerService.OtherErrorKeepsTheSlot | Target Environment/Server/Server.cpp:83-101 | Such an error leaves the connection registered, and its slot taken, for good |
| ServerService.ErrorsCanFillTheServer | Target Environment/Server/Server.cpp:83-101 | For every limit some run fills the server with connections nobody reads, and no continuation serves one of them or registers anybody else |
| ServerDepartures.RegisteredExactly | Target Environment/Server/Server.cpp:83-101 | Over every run: a connection that was registered is on the list if and only if its stream has not ended or the handler that erases it is still on its way; only the end of its stream starts such a handler |
| ServerDepartures.HandlersEnd | Target Environment/Server/Server.cpp:81-294 | However the handlers are scheduled, a run of their steps alone is no longer than the work left |
| ServerDepartures.SettlesExactly | Target Environment/Server/Server.cpp:81-294 | From every reachable state the handlers alone can finish, and then the counter is the number of connections on the list, which are exactly those whose stream has not ended: whoever hung up has been erased and counted off |
| Pattern.PatternFormatter.constructor | Libraries/spdlog/details/pattern_formatter_impl.h:451-454 | The compiled list shows, for every message, what the pattern stands for |
| Pattern.PatternFormatter.CompilePattern | Libraries/spdlog/details/pattern_formatter_impl.h:456-484 | The compiling loop: running its list equals interpreting the pattern directly, for every rendering of the flags |
| Pattern.PatternFormatter.HandleFlag | Libraries/spdlog/details/pattern_formatter_impl.h:485-609 | For every message the list then shows what it showed before and after that the flag's text: its rendering if it is known, the percent sign and the character otherwise |
| Pattern.PatternFormatter.Format | Libraries/spdlog/details/pattern_formatter_impl.h:612-622 | Appends everything the list shows in order, then one end of line |
| Pattern.CompileAndFormat | Libraries/spdlog/details/pattern_formatter_impl.h:451-622 | Compiling and formatting together: the interpretation of the pattern and one end of line |
| Pattern.PatternsCompose | Libraries/spdlog/details/pattern_formatter_impl.h:456-484 | The text of two patterns put together is the two texts put together, unless the first leaves a percent sign open |
| Pattern.DanglingIsDropped | Libraries/spdlog/details/pattern_formatter_impl.h:467-470 | A lone trailing percent sign is dropped and changes nothing else |
| Pattern.UnknownFlagsStay | Libraries/spdlog/details/pattern_formatter_impl.h:604-607 | A pattern whose percent signs all introduce unknown flags shows itself |
| Pattern.OneFlag | Libraries/spdlog/details/pattern_formatter_impl.h:487-607 | A percent sign with a known flag shows that flag's rendering, %h, %x and %X those of %b, %D and %T, and any other character is shown with its percent sign |
| Pattern.UnknownExactly | Libraries/spdlog/details/pattern_formatter_impl.h:485-609 | The characters that show themselves whatever the renderings are exactly those that are no flag |
| Frames.OrthogonalProduct | CoordinateSystems/CSTransform.cpp:165 | Products of orthogonal matrices are orthogonal |
| Frames.RotationOrthogonal | CoordinateSystems/CSTransform.cpp:152-166 | The product C_3 C_2 C_1 is orthogonal, using only that sine and cosine square to one |
| Frames.EnuMutuallyInverse | CoordinateSystems/CSTransform.cpp:140-216 | ecef_to_enu and enu_to_ecef undo each other, for every point and origin |
| Frames.EnuKeepsDistance | CoordinateSystems/CSTransform.cpp:140-216 | Both keep distances |
| Frames.AxesAreNorthUpEast | CoordinateSystems/CSTransform.cpp:152-169 | The three coordinates are the components along north, up and east at the origin, in this order |
| Frames.AxesAreOrthonormal | CoordinateSystems/CSTransform.cpp:152-166 | Those three directions are perpendicular unit vectors |
| Frames.OriginOnEllipsoid | CoordinateSystems/CSTransform.cpp:148-150 | Without altitude the origin lies on the ellipsoid with the two semi-axes |
| Frames.AltitudeGoesUp | CoordinateSystems/CSTransform.cpp:148-150 | Altitude moves the origin by as much along the direction up |
| Frames.UpIsNormal | CoordinateSystems/CSTransform.cpp:148-166 | With the reduced latitude that belongs to the latitude, up is perpendicular to the ellipsoid under the origin |
| Frames.CcsaMutuallyInverse | CoordinateSystems/CSTransform.cpp:233-286 | enu_to_ccsa and ccsa_to_enu undo each other and keep distances, for every orientation |
| Frames.FirstAxisIsBoresight | CoordinateSystems/CSTransform.cpp:268-286 | The antenna's first axis points at elevation eps and azimuth beta, counted from north towards west |
| Frames.OtherAxes | CoordinateSystems/CSTransform.cpp:268-286 | Its second axis points a quarter turn higher, and the third is the cross product of the first two |

## Left out

Queue and logger

- Memory orders weaker than sequential consistency.
- QueueProtocol.RunHasInv: positions are unbounded in the concurrent protocol, because a thread stalled across 2^64 operations would see the machine counters wrap onto the same value; the wrap is modelled in the sequential class.
- LoggerProperties.BlockRetryLosesNothing: the discard policy is in the step relation but has no such guarantee, since it may drop any message, the terminate message included.
- LoggerProgress.WorkerExits: takes the worker to be the only thread that moves and the flush interval not to elapse; that threads are scheduled fairly, and so that `join` returns under any schedule, is not modelled.
- QueueProgress.EnqueueAloneEnds: no compare-exchange fails for no reason here; the sequential class has any finite number of such failures.
- Clocks, sleeping, the flush interval (any verdict of it is allowed in the safety results); sinks and worker code that throw, and the error they leave for the next push.
- What a log record contains and how the formatter fills it.

Integrator

- DeepSpace.Integrator.Secular: reals instead of doubles, and the sine and cosine sums of the dot terms are any function of longitude and time; the mutable fields are grouped in one record. The epoch dot terms kept for a restart are those of the epoch point, since nothing else is ever stored there.
- DeepSpaceLaws.ConstantForceAnswer: the satellite's resonant angle at epoch and its rate are taken as the constructor computes them; how the force coefficients come about is not modelled.
- Lunar-solar periodics, drag, the Kepler loop and the rest of the position computation.

Formatting

- IntWriter.PrepareIntBuffer: without the precision path, which format strings refuse for integers; widths and sizes are unbounded, where the source's are 32-bit unsigned.
- IntWriter.WriteInt: the buffer's inline array and its heap array are one array here, and positions are offsets, not pointers.
- Numerals.ParseNonnegativeInt: requires a digit at the start, as the source asserts.
- FormatEngine.Formatter.Format: custom arguments are left out, because they call back into user code; how any argument is rendered is a parameter, which `FormatArguments` ties to the argument formatter. Error texts are shortened.
- ArgLists.Lookup: the value of an argument of type NONE is not specified.
- FormatArguments.LooksBehindTheFieldExactly: for integers, booleans, characters, strings and addresses; floating point, wide strings, custom arguments and the address of a string are not rendered.
- FormatReparse.SpecParses: a type character must not be one that may stand before it, and a width in digits starts with a zero only behind the zero flag; otherwise the same text has another reading.
- Wide characters, `write_double`, the printf formatter.

Rotating log file

- RotatingSink.RotatingFileSink.SinkIt: files are a map from names to contents and no file operation fails; sizes do not wrap.
- The simple and the daily file sink, buffering and forced flushes.

Calendar

- DayOfYear.DurData: years and day numbers are unbounded, the source's are 16 bits; the day fraction is a real in [0, 1).
- Calendar.JulianIsDayCount: the source's 32-bit products overflow about 1.4 million years on.
- The sidereal angle itself, the other fields of a catalogue line, and reading the file.

Server

- Server.RunKeepsInv: handlers are steps of a transition system on values instead of methods of a class, because they interleave; the client list is a set, its order being used nowhere; one start, no stop (stopping clears the list and keeps the counter).
- Sockets, messages and their processing: a read ends in a message, the end of the stream, or another error, and a write has no effect on the state.

Patterns and frames

- Pattern.PatternFormatter.Format: what each flag shows for a message is a parameter, as is the end-of-line text.
- Frames.EnuMutuallyInverse: reals instead of doubles; an angle is any pair of numbers whose squares add to one, and the reduced latitude of an origin is any pair at all.
- The geodetic and biconical conversions.

Not modelled: configuration, JSON, the target table, the sector test, the scan scheduler, console and system log sinks.
