# Models of extDB2's hardest components

extDB2 is an extension that a game server calls with text and that answers with text. This project
models five of its components and proves what they are for. `dafny verify dfyconfig.toml` checks it.

* **The asynchronous logger's queue** (`Slots`, `Bits`, `QueueMachine`, `QueueInvariant`, `QueueFifo`,
  `QueueWrap`, `RingQueue`, `AsyncLogger`, `LoggerProgress`). The bounded multi-producer multi-consumer ring is a state
  machine whose steps are single accesses to shared memory by any of any number of threads. Its
  invariant gives slot ownership and the value of every ticket; every run refines an atomic FIFO; a
  `false` has an exact meaning. `QueueWrap` relates unbounded tickets to 64-bit counters, masks and
  signed differences. `RingQueue` is the object itself: the two loops work in place on its arrays
  while other threads act between any two accesses, and each call is shown to be a run of the machine.
  `AsyncLogger` puts producers that retry and the worker on top and proves ordered, complete delivery;
  `LoggerProgress` that the worker and a refused caller get on when left to themselves.
* **The formatting engine** (`Numerals`, `DigitCount`, `DecimalWriter`, `IntParser`, `FormatSpecs`,
  `IntWriter`, `FormatParser`, `FormatRoundTrip`, `BasicFormatter`). Digit counting by multiply and
  shift, decimal output two digits at a time, padded integers in four bases, and the parser of
  replacement fields: `FormatParser` is the specification, `BasicFormatter` the object whose loops
  compute it.
* **The result store and its client** (`ResultStore`, `AsyncClient`). Tickets, results saved by
  workers, and transfer in chunks, over every interleaving; and the client script's loops against it.
* **SQF values** (`SqfGrammar`, `SqfTokens`, `SqfLanguage`, `SqfRoundTrip`, `SqfQuoting`, `SqlInputs`,
  `ResultRenderer`).
  The sanitizer's ordered-choice grammar and exactly which language it accepts, the quoting of inputs,
  and the rendering of rows.
* **Two smaller machines** (`RotatingSink`, `RconReassembly`). Log rotation by size, and reassembly of
  multi-packet remote-console messages.

`Wrappers` holds `Option` and `Result`; exceptions and error texts of the original are `Failure`.

Some promises do not hold of the code for every input. Each is stated with its exact condition:

* The store's control replies travel in-band: a message that is literally `[3]` or `[5]` is lost if
  the caller's buffer has room for it, and with a buffer of size 0 only the empty message arrives
  (`AsyncClient.ClientResult`).
* The parser of widths and indexes returns the written number exactly up to INT_MAX. A larger number is
  refused exactly if a prefix of it drops modulo 2^32 or it is beyond INT_MAX modulo 2^32 as well: below
  4772185884 always, and 4772185884 is the first that is misread (`IntParser.ParseIntOutcome`,
  `IntParser.TooBigRefused`, `IntParser.FirstMisread`).
* A message of one fragment marked as multi-part, or of 128 or more fragments, is never completed
  (`RconReassembly.Reassembled`).
* A cell with the quote-escaping option that contains a double quote passes the sanitizer as several
  adjacent strings, but is not one value of the rendered array (`ResultRenderer.EscapedCell`); and an
  insert id from 2^63 on is beyond the grammar's integers (`ResultRenderer.LargeIdRejected`).
* An empty specification, `{:}`, is aligned by the text behind it, if that begins with one of `<`, `>`,
  `=` and `^` (`FormatRoundTrip.EmptySpec`).
* Tickets repeat after 2^32 calls, exactly then (`ResultStore.TicketsCollide`).

## Model

| member | source | states |
|---|---|---|
| `QueueInvariant.EveryInterleaving` | src/spdlog/details/mpmc_bounded_q.h:98-149 | in every state that any schedule of any number of threads reaches: the dequeue position is at most the enqueue position and at most one lap behind it; a consumer holding ticket p has exactly the item put at ticket p; each ticket has one owner per side; no two threads in the middle of an operation may touch the same cell |
| `QueueInvariant.InitInv` | src/spdlog/details/mpmc_bounded_q.h:76-90 | the constructed queue satisfies the invariant |
| `QueueInvariant.StepInv` | src/spdlog/details/mpmc_bounded_q.h:98-149 | every single access of every thread, spurious exchange failures included, keeps the inductive invariant on cells, positions and threads |
| `QueueInvariant.RunInv` | src/spdlog/details/mpmc_bounded_q.h:98-149 | so does every run |
| `QueueInvariant.OwnersApart` | src/spdlog/details/mpmc_bounded_q.h:109-147 | slot ownership: between winning a position and storing the sequence number no other thread is between those two points on the same cell |
| `QueueInvariant.NextEnqueueCell` | src/spdlog/details/mpmc_bounded_q.h:104-117 | the cell of the next enqueue ticket is free for it, or still belongs to the ticket one lap earlier, and in which state |
| `QueueInvariant.NextDequeueCell` | src/spdlog/details/mpmc_bounded_q.h:131-143 | the same for the next dequeue ticket |
| `QueueFifo.EnqueueRefusal` | src/spdlog/details/mpmc_bounded_q.h:104-115 | enqueue sees a negative difference if and only if its position is current and either N tickets are outstanding or the consumer of the ticket one lap back has not released its cell |
| `QueueFifo.DequeueRefusal` | src/spdlog/details/mpmc_bounded_q.h:131-142 | dequeue sees a negative difference if and only if its position is current and the queue is empty or the producer of that ticket has not published |
| `QueueFifo.QuietRefusal` | src/spdlog/details/mpmc_bounded_q.h:104-115 | with no other call in progress `false` means exactly full, respectively exactly empty |
| `QueueFifo.SequenceCycle` | src/spdlog/details/mpmc_bounded_q.h:122-147 | a step leaves a cell's sequence number alone or moves it from p to p + 1 or from p + 1 to p + N, at the cell of ticket p |
| `QueueFifo.StepRefines` | src/spdlog/details/mpmc_bounded_q.h:98-149 | every access is a step of an atomic bounded FIFO with calls in progress: the winning exchanges are where calls take effect, and a refusal has one of the two allowed reasons |
| `QueueFifo.RunRefines` | src/spdlog/details/mpmc_bounded_q.h:98-149 | along every schedule from the constructed queue, step k refines a step of the atomic FIFO by the same thread (linearizability) |
| `QueueWrap.StepWraps` | src/spdlog/details/mpmc_bounded_q.h:104-106 | one step with 64-bit wrapping counters, mask indexing and signed difference equals the wrapped step of the ideal machine, for every size 2^k up to 2^62, if no saved position lags by 2^62 |
| `QueueWrap.RunWraps` | src/spdlog/details/mpmc_bounded_q.h:98-149 | the same for whole runs |
| `QueueWrap.MaskOfWrapped` | src/spdlog/details/mpmc_bounded_q.h:104 | masking the wrapped position picks the cell `position mod N` of the unbounded position |
| `QueueWrap.DifIsTrue` | src/spdlog/details/mpmc_bounded_q.h:106 | the two's-complement difference of two wrapped counters less than 2^62 apart is their true difference |
| `Slots.SlotIsRemainder` | src/spdlog/details/mpmc_bounded_q.h:104 | the cell of a ticket is the remainder of the ticket by N |
| `Bits.AcceptedSizes` | src/spdlog/details/mpmc_bounded_q.h:80-82 | the constructor's test accepts exactly the powers of two from 2 up |
| `RingQueue.MpmcQueue.constructor` | src/spdlog/details/mpmc_bounded_q.h:76-90 | the constructor's loop builds the initial state of the machine |
| `RingQueue.MpmcQueue.Create` | src/spdlog/details/mpmc_bounded_q.h:76-90 | an object is built exactly for powers of two from 2 up, otherwise the size is refused |
| `RingQueue.MpmcQueue.LoadForEnqueue` | src/spdlog/details/mpmc_bounded_q.h:104-106 | reading the cell's sequence number in place and comparing is the machine's step; a positive difference means the position is stale |
| `RingQueue.MpmcQueue.ExchangeEnqueuePos` | src/spdlog/details/mpmc_bounded_q.h:109-110 | the weak exchange succeeds only on the current position and otherwise hands back the current one |
| `RingQueue.MpmcQueue.StoreItem` | src/spdlog/details/mpmc_bounded_q.h:121 | moving the item into the cell's place in the array is the machine's step |
| `RingQueue.MpmcQueue.PublishCell` | src/spdlog/details/mpmc_bounded_q.h:122 | storing p + 1 in place is the machine's publishing step |
| `RingQueue.MpmcQueue.ReleaseCell` | src/spdlog/details/mpmc_bounded_q.h:147 | storing p + N in place is the machine's releasing step |
| `RingQueue.MpmcQueue.Enqueue` | src/spdlog/details/mpmc_bounded_q.h:98-123 | the loop over the arrays, with any number of steps of other threads before each access, terminates and is one call of the state machine; with true the thread has put its item once, with false it has put nothing and the item is still in the caller's hands |
| `RingQueue.MpmcQueue.Dequeue` | src/spdlog/details/mpmc_bounded_q.h:125-149 | the dequeue loop, in the same sense; with true the thread has taken one ticket and returns the item put at it, with false it has taken nothing |
| `RingQueue.CallGoesOn` | src/spdlog/details/mpmc_bounded_q.h:98-149 | composing the accesses of one call with the steps of others gives a run of the machine in which the thread's own part is one call |
| `AsyncLogger.LogStepKeeps` | src/spdlog/details/async_log_helper.h:206-222 | every step of every logging thread and of the worker keeps the logger's invariant; a refused message stays with its caller |
| `AsyncLogger.SinkIsOrderedPrefix` | src/spdlog/details/async_log_helper.h:245-270 | at every moment the sinks have received the queue's messages up to some point before the first `off`, in queue order, none twice, none skipped; what came from one thread is a prefix of what it logged, in its order |
| `AsyncLogger.ShutdownDelivers` | src/spdlog/details/async_log_helper.h:192-202 | if no `off` holds a ticket at some moment, then when the worker has exited later, everything put by that moment, so every log call completed by then, has been delivered (that it does exit: LoggerProgress.WorkerDrains) |
| `LoggerProgress.WorkerDelivers` | src/spdlog/details/async_log_helper.h:240-270 | from any state the invariant allows, if the next message is published, at most seven steps of the worker alone put exactly that message behind what the sinks have, or make the worker exit if it is `off` |
| `LoggerProgress.WorkerDrains` | src/spdlog/details/async_log_helper.h:224-231 | with no caller between winning a ticket and publishing it, at most seven steps of the worker for each outstanding ticket deliver every ticket before the first `off`, and the worker exits if and only if there is one |
| `LoggerProgress.CallerWins` | src/spdlog/details/async_log_helper.h:206-222 | a caller that was refused, or has not tried yet, wins a ticket for its own message within four of its own steps when a cell is free |
| `LoggerProgress.CallerPublishes` | src/spdlog/details/mpmc_bounded_q.h:119-123 | two more of its steps publish it, and the call returns with success |
| `LoggerProgress.CallIsDelivered` | src/spdlog/details/async_log_helper.h:206-270 | from any state at rest without an `off`, a schedule of one caller's and the worker's steps alone delivers everything put before and then the caller's message, or makes the worker exit if that is `off` |
| `Numerals.NumeralReadsBack` | src/spdlog/details/format.h:2300-2356 | the canonical numeral of a number in any base from 2 to 16 reads back to the number |
| `Numerals.DigitRange` | src/spdlog/details/format.h:742-775 | a number with d digits lies in [10^(d-1), 10^d) |
| `DigitCount.CountDigits64` | src/spdlog/details/format.h:743-750 | bit length times 1233 shifted by 12 plus one table comparison is the number of decimal digits, for every 64-bit number, with the table index in range |
| `DigitCount.CountDigits32` | src/spdlog/details/format.h:768-775 | the same for 32 bits and its table |
| `DigitCount.EstimateNear` | src/spdlog/details/format.h:745-749 | the estimate is at most one off, below 20 for 64 bits and below 10 for 32 bits |
| `DigitCount.TableEntry` | src/spdlog/details/format.cc:585-609 | the entries of the power tables are the powers of ten |
| `DigitCount.CountDigitsByDivision` | src/spdlog/details/format.h:751-767 | the portable loop, four digits per division, counts the same digits |
| `DecimalWriter.PairTable` | src/spdlog/details/format.cc:577-583 | entry v of the pair table holds the two digits of v |
| `DecimalWriter.WriteBackwards` | src/spdlog/details/format.h:2810-2830 | two digits at a time from the back: fills exactly the numeral's range in front of the end and nothing else |
| `DecimalWriter.FormatDecimal` | src/spdlog/details/format.h:777-797 | with the counted digits, overwrites exactly that range with the numeral |
| `DecimalWriter.FormatDecimalAt` | src/spdlog/details/format.h:2878-2901 | writes sign and numeral and returns their end; the path below 100 agrees with the general one |
| `DecimalWriter.FormatInt.Unsigned` | src/spdlog/details/format.h:2846-2853 | every unsigned 64-bit number fits into the 22 characters and reads as its numeral |
| `DecimalWriter.FormatInt.Signed` | src/spdlog/details/format.h:2832-2845 | every signed 64-bit number, the most negative included, fits with its sign |
| `DecimalWriter.FormatInt.CStr` | src/spdlog/details/format.h:2865-2868 | the terminator goes behind the text, which stays |
| `FormatSpecs.LayoutShape` | src/spdlog/details/format.h:2250-2279 | a padded field is as long as the larger of width and content; prefix and digits stand where the alignment says and all else is fill |
| `FormatSpecs.LayoutAlignment` | src/spdlog/details/format.h:2250-2279 | left, right, centred (the odd fill character goes behind) and numeric alignment, by position |
| `FormatSpecs.IntTextReadsBack` | src/spdlog/details/format.h:2281-2361 | for every integer, base, sign, mark, fill, width and alignment the digit field reads back to the absolute value |
| `FormatSpecs.IntField` | src/spdlog/details/format.h:2281-2361 | the written field, character by character: a minus sign exactly for negative values, else plus or space as the flags ask; with hash 0x, 0X, 0b, 0B or 0 by type; digits without leading zero whose value in base 16, 2, 8 or 10 by type is the absolute value, with capital letters exactly for X; fill in front, between or behind by alignment, up to the width |
| `FormatSpecs.UnknownType` | src/spdlog/details/format.h:2357-2359 | exactly the other type characters are refused |
| `IntWriter.PrepareIntBuffer` | src/spdlog/details/format.h:2250-2279 | appends a field with prefix and padding painted and returns the place of the last digit, for every alignment |
| `IntWriter.FillPadding` | src/spdlog/details/format.h:2203-2216 | centres the content: half of the padding in front, the rest behind |
| `IntWriter.CountBaseDigits` | src/spdlog/details/format.h:2310-2313 | the shift loops count the digits in base 2, 8 and 16 |
| `IntWriter.PutDigits` | src/spdlog/details/format.h:2314-2322 | the digit loops write the numeral from its last place |
| `IntWriter.WriteInt` | src/spdlog/details/format.h:2281-2361 | appends exactly the padded, prefixed numeral of the value, or reports an unknown type and appends nothing |
| `IntWriter.WriteUnsignedDecimal` | src/spdlog/details/format.h:1939-1946 | appends room for a prefix and the digits |
| `IntWriter.WriteDecimal` | src/spdlog/details/format.h:1948-1958 | appends the signed decimal of every 64-bit value |
| `IntWriter.Buffer.Grow` | src/spdlog/details/format.h:554-571 | the new capacity is half as large again or what is needed, whichever is more, and the contents stay |
| `IntWriter.Buffer.Append` | src/spdlog/details/format.h:486-493 | appends exactly the text |
| `IntParser.ParseNonnegativeInt` | src/spdlog/details/format.cc:255-273 | the loop with 32-bit wrap-around computes the specified accumulation |
| `IntParser.ParseIntOutcome` | src/spdlog/details/format.cc:255-273 | for every numeral: the result is the number modulo 2^32 if no prefix drops below the prefix before it modulo 2^32 and the outcome is at most INT_MAX, otherwise it is refused |
| `IntParser.ParseIntExact` | src/spdlog/details/format.cc:255-273 | the parser returns the written number if and only if that number is at most INT_MAX |
| `IntParser.TooBigRefused` | src/spdlog/details/format.cc:262-272 | a number beyond INT_MAX is refused if and only if a prefix of it drops or it is beyond INT_MAX modulo 2^32 too; all of them below 4772185884 are |
| `IntParser.FirstMisread` | src/spdlog/details/format.cc:262-267 | 4772185884 is not: it is read as 477218588, in any context |
| `IntParser.WrappedNumber` | src/spdlog/details/format.cc:262-267 | beyond it the overflow guard can miss: ten billion is read as 1410065408 |
| `IntParser.DecimalParses` | src/spdlog/details/format.cc:255-273 | every number up to INT_MAX survives printing and parsing, in any context |
| `FormatParser.NoMixedIndexing` | src/spdlog/details/format.cc:812-875 | a format string that succeeds refers to all its arguments automatically, the k-th reference (nested widths and precisions included) taking argument k, or to none, each named or numbered reference taking the argument it names |
| `FormatParser.FoundArg` | src/spdlog/details/format.cc:726-740 | looking up a name gives the first argument of that name, or there is none |
| `FormatRoundTrip.SpecRoundTrip` | src/spdlog/details/format.cc:1048-1215 | for every argument: a printed specification (alignment with or without fill, sign, hash, zero flag, width and precision written out or taken from arguments by any kind of reference, type) is parsed to what it means, a nested count being the argument's value if that is an integer from 0 to 2147483647, or to the first objection: a part that is for numbers or signed numbers only, a failing reference, a count that is negative, too big or no integer, a precision the type does not admit, a missing brace; and the parser stops right behind the brace |
| `FormatRoundTrip.ZeroFlag` | src/spdlog/details/format.cc:1115-1121 | the zero flag gives the fill 0 and numeric alignment whatever alignment and fill came first, and is refused for strings and pointers |
| `FormatRoundTrip.EmptySpec` | src/spdlog/details/format.cc:1060-1090 | an empty specification is aligned by the character behind its brace, which the lookahead sees |
| `FormatRoundTrip.TemplateRoundTrip` | src/spdlog/details/format.cc:1217-1236 | formatting a printed template gives exactly its meaning, for all arguments: doubled braces become single ones, every field (automatic, numbered or named) formats the argument it refers to with the specification it means, automatic references counting on through nested widths and precisions; the first missing argument, mixed numbering or objection gives its error |
| `FormatRoundTrip.LoneBraceRefused` | src/spdlog/details/format.cc:1217-1236 | behind any template, a closing brace that is not doubled is refused |
| `FormatRoundTrip.OpenFieldRefused` | src/spdlog/details/format.cc:1207-1209 | behind any template, a field whose type is not followed by the closing brace is refused |
| `FormatRoundTrip.OpenRefRefused` | src/spdlog/details/format.cc:812-837 | behind any template, a reference followed by neither colon nor brace is refused, with the error its kind calls for |
| `FormatRoundTrip.BadSpecRefused` | src/spdlog/details/format.cc:1060-1201 | behind any template, an opening brace as fill and a precision without a number are refused |
| `FormatRoundTrip.OpenWidthRefused` | src/spdlog/details/format.cc:1122-1155 | behind any template, a nested width that is not closed is refused |
| `FormatRoundTrip.RefFrom` | src/spdlog/details/format.cc:812-875 | a printed reference of each kind is read back as that reference, error or not |
| `FormatRoundTrip.WidthFrom` | src/spdlog/details/format.cc:1122-1155 | a width, written out or nested, is read back and nothing more is consumed |
| `FormatRoundTrip.PrecisionFrom` | src/spdlog/details/format.cc:1157-1201 | a precision, written out or nested, is read back for the types that admit one |
| `BasicFormatter.Formatter.NextArg` | src/spdlog/details/format.cc:854-859 | takes the next automatic argument, or fails after a manual one |
| `BasicFormatter.Formatter.CheckNoAutoIndex` | src/spdlog/details/format.cc:861-869 | refuses exactly after an automatic reference |
| `BasicFormatter.Formatter.GetArg` | src/spdlog/details/format.cc:871-874 | takes a numbered argument and switches to manual |
| `BasicFormatter.Formatter.GetNamed` | src/spdlog/details/format.cc:799-810 | takes a named argument and switches to manual |
| `BasicFormatter.Formatter.ParseArgIndex` | src/spdlog/details/format.cc:812-822 | an empty or numbered reference, with the error the position calls for |
| `BasicFormatter.Formatter.ParseArgName` | src/spdlog/details/format.cc:824-837 | the name loop takes the longest name |
| `BasicFormatter.Formatter.ParseAlign` | src/spdlog/details/format.cc:1058-1091 | the two-step backward lookahead computes fill and alignment |
| `BasicFormatter.Formatter.ParseSpecBody` | src/spdlog/details/format.cc:1056-1206 | filling the specification field by field computes the parsed specification, every error included |
| `BasicFormatter.Formatter.FormatArg` | src/spdlog/details/format.cc:1048-1215 | one replacement field: its specification, its end, and one formatted argument appended to the output |
| `BasicFormatter.Formatter.Format` | src/spdlog/details/format.cc:1217-1236 | the main loop appends exactly the pieces of the whole format string, or fails as specified |
| `ResultStore.Conservation` | src/ext.cpp:1236-1334 | for every interleaving of callers and workers over any number of ids: of a message saved once, the delivered payloads followed by what is stored are the message, and when the entry is gone all of it was delivered; before the save nothing is |
| `ResultStore.EventAccounts` | src/ext.cpp:1236-1334 | each single event keeps that account |
| `ResultStore.TicketNumbers` | src/ext.cpp:1451-1457 | the k-th ticket is 100 + k modulo 2^32 |
| `ResultStore.TicketsFresh` | src/ext.cpp:1451-1457 | no ticket is the reserved 1, and two are equal only if they are the same one, while at most 2^32 - 100 were handed out |
| `ResultStore.TicketsCollide` | src/ext.cpp:1451-1457 | two tickets are equal if and only if they are a multiple of 2^32 apart |
| `ResultStore.FutureIds` | src/ext.cpp:1236-1334 | an id not yet handed out is not stored and has nothing saved or delivered |
| `ResultStore.ChunkFits` | src/ext.cpp:1236-1299 | no answer is longer than the caller's buffer; a result in one piece is the whole message, and a chunk is the front of it and fills the buffer unless it is all that is left |
| `ResultStore.ControlReplies` | src/ext.cpp:1236-1302 | a poll for an unknown id is answered with nothing, for a result that is waited for with [3], for one that does not fit in one piece with [5], and the store stays; otherwise there is a payload, and the entry goes away with the single piece, or with the poll after the last chunk |
| `ResultStore.SyncAnswer` | src/ext.cpp:1358-1368 | a synchronous call whose result fits is answered with the result and leaves the store alone; otherwise the answer is [2, and a quoted numeral, and under the number it denotes exactly this result is now stored, ready |
| `ResultStore.SubmitAnswer` | src/ext.cpp:1451-1460 | an asynchronous call is answered with the numeral of an id under which a result is now waited for; every other entry stays |
| `ResultStore.SaveEachAt` | src/ext.cpp:1325-1334 | saving under many ids replaces exactly the entries of those ids |
| `ResultStore.Ext.SubmitAsync` | src/ext.cpp:1433-1464 | hands out the counter's value and marks the entry as waiting |
| `ResultStore.Ext.SyncCall` | src/ext.cpp:1337-1371 | answers directly if the result fits, otherwise stores it under a new id |
| `ResultStore.Ext.SaveResult` | src/ext.cpp:1316-1322 | stores a worker's result as ready |
| `ResultStore.Ext.SaveResults` | src/ext.cpp:1325-1334 | the loop over several ids |
| `ResultStore.Ext.GetSinglePartResult` | src/ext.cpp:1236-1264 | the reply and the new store for a 4: call |
| `ResultStore.Ext.GetMultiPartResult` | src/ext.cpp:1267-1302 | the reply and the new store for a 5: call |
| `AsyncClient.ClientResult` | examples/sqf/fn_async.sqf:29-53 | whatever others do before and after the save: the client is not finished before it, is finished at most (length of m) + 2 of its own polls after it, and then holds m if and only if m is transferable (a buffer of at least 1 unless m is empty, and m not "[3]" or "[5]" if the buffer is at least 3), otherwise nothing |
| `AsyncClient.PollTransfers` | examples/sqf/fn_async.sqf:29-53 | one poll keeps text so far plus stored rest equal to m and lowers the number of polls still needed |
| `AsyncClient.WaitsForSave` | examples/sqf/fn_async.sqf:29-53 | until the save the client only polls |
| `AsyncClient.OthersLeaveKey` | src/ext.cpp:1236-1334 | events about other ids do not touch an id |
| `AsyncClient.Fetch` | examples/sqf/fn_async.sqf:29-53 | the nested loops terminate, with others acting between any two calls, and return m if and only if m is transferable |
| `AsyncClient.KeyIsRead` | examples/sqf/fn_async.sqf:26-27 | compiling the answer as SQF and taking the second element gives back the number in it |
| `AsyncClient.AsyncCall` | examples/sqf/fn_async.sqf:23-53 | end to end over every interleaving: the client that polls under the key it reads out of the text of its own call ends with the message the worker saved under that key, if and only if the message is transferable |
| `AsyncClient.SyncCall` | src/ext.cpp:1358-1368 | end to end for a synchronous call: a result that fits is the text itself; a longer one is collected under the key in the text, by any client with a buffer of at least 1 |
| `AsyncClient.CallAsync` | examples/sqf/fn_async.sqf:23-53 | the whole script as loops against the store object: call, key, polls; it ends with the message if and only if that is transferable |
| `SqfLanguage.AcceptedLanguage` | src/sanitize.cpp:68-87 | a text is accepted if and only if it is a run of spelled values: numbers in 64-bit range with any sign and leading zeros, words, text in either quote, nested arrays, spaces anywhere between tokens, no number running into digits; ordered choice and greed lose nothing |
| `SqfLanguage.ValueRead` | src/sanitize.cpp:38-44 | every spelled value is read with its meaning and what follows is left |
| `SqfLanguage.SpelledValue` | src/sanitize.cpp:38-44 | whatever is read was spelled in front of what is left, and means what was read |
| `SqfRoundTrip.PrintedIsAccepted` | src/sanitize.cpp:35-44 | the printed form of every nested value (64-bit integers, booleans, ASCII strings without a double quote, any, arrays) is accepted and read as exactly that value |
| `SqfRoundTrip.ValueRoundTrip` | src/sanitize.cpp:35-44 | a printed value is read back in front of any text that does not continue it |
| `SqfRoundTrip.AcceptedIsBalanced` | src/sanitize.cpp:68-87 | everything accepted has its brackets balanced outside quoted text |
| `SqfRoundTrip.ValueBalance` | src/sanitize.cpp:38-44 | every single value read, from any position, is balanced |
| `SqfTokens.IntAlternativeRedundant` | src/sanitize.cpp:39-40 | the 32-bit alternative with its lookahead never changes what the 64-bit alternative reads |
| `SqfGrammar.ParseValue` | src/sanitize.cpp:38-44 | every value takes at least one character, so the repetition ends |
| `SqfQuoting.EscapeUndone` | src/protocols/sql_custom_v2.cpp:1053-1064 | doubling double quotes and then single quotes is undone by halving in the reverse order |
| `SqfQuoting.EscapeInjective` | src/protocols/sql_custom_v2.cpp:1053-1064 | different texts stay different when escaped and wrapped |
| `SqfQuoting.EscapedAccepted` | src/protocols/sql_custom_v2.cpp:1053-1101 | escaped and wrapped text passes the check if and only if it is ASCII, as the run of strings between its double quotes |
| `SqfQuoting.ErasedAccepted` | src/protocols/sql_custom_v2.cpp:1040-1052 | text with its quotes erased and wrapped passes the check if and only if it is ASCII, as exactly one string |
| `SqfQuoting.RunAccepted` | src/sanitize.cpp:35 | wrapped text with doubled quotes is accepted if and only if it is ASCII |
| `SqfQuoting.InQuotesAccepted` | src/protocols/sql_custom_v2.cpp:1083-1086 | text that is only wrapped passes if and only if it is one ASCII string without a double quote, or two such strings with any accepted text between them |
| `SqlInputs.StripChars` | src/protocols/sql_custom_v2.cpp:996-1001 | the erasing loop computes the stripped value |
| `SqlInputs.StrippedIsWithout` | src/protocols/sql_custom_v2.cpp:996-1001 | stripping removes exactly the strip characters, in whatever order they are listed |
| `SqlInputs.ProcessInput` | src/protocols/sql_custom_v2.cpp:992-1102 | strip, type option and check of one value: what is bound, when the call fails, and with exactly which message |
| `SqlInputs.BoundValue` | src/protocols/sql_custom_v2.cpp:996-1077 | what is bound, from what stripping left: for a string, a double quote, the characters other than both quotes in order, a double quote; for an escaped string, between double quotes a text with all quotes in pairs that halving turns back; for a boolean, 1 exactly for the four letters of true in any case, else 0; otherwise the text itself |
| `SqlInputs.BoundEscaped` | src/protocols/sql_custom_v2.cpp:1087-1092 | a check that escapes has bound, with all quotes in pairs, what halving turns back into the value bound without the check |
| `SqlInputs.Verdict` | src/protocols/sql_custom_v2.cpp:1002-1102 | a value is refused by its check, which an unchecked option does not have, or because a strip character was found and that is an error; with the messages word for word |
| `SqlInputs.NotSanitizedRead` | src/protocols/sql_custom_v2.cpp:1099 | the error text is an SQF array of 0 and the message |
| `SqlInputs.StripFoundRead` | src/protocols/sql_custom_v2.cpp:1012 | so is the other one |
| `SqlInputs.ProcessLine` | src/protocols/sql_custom_v2.cpp:989-1103 | the values of one statement |
| `SqlInputs.ProcessInputs` | src/protocols/sql_custom_v2.cpp:987-1105 | all statements of a call: every bound value, success if and only if every value is accepted, and the last message reported |
| `SqlInputs.CheckedOption` | src/protocols/sql_custom_v2.cpp:1040-1101 | a checked value with no quotes added, unless stripping was an error: in either string form it is accepted if and only if what stripping left is ASCII, as a boolean always, otherwise if it is a run of values itself |
| `SqlInputs.EscapeCheckedOption` | src/protocols/sql_custom_v2.cpp:1087-1098 | a value escaped for the check, whatever its type option, is accepted if and only if what stripping left is ASCII or it is a boolean; the form it had can be recovered from what is bound |
| `SqlInputs.QuoteCheckedOption` | src/protocols/sql_custom_v2.cpp:1083-1098 | a value that only gets quotes around it for the check is accepted if and only if it passes in quotes, and is bound as it was |
| `ResultRenderer.RenderRow` | src/protocols/sql_custom_v2.cpp:547-655 | one row of cells with commas, up to the first cell that fails its check |
| `ResultRenderer.GetResult` | src/protocols/sql_custom_v2.cpp:495-690 | the rendered result is exactly the nested array text for any rows and flags; it is the error text if and only if some checked cell fails |
| `ResultRenderer.CheckedTable` | src/protocols/sql_custom_v2.cpp:574-655 | when that is, from options and contents alone: no checked cell of either string option has non-ASCII text, and no other checked cell, booleans apart, has text that is not a run of values |
| `ResultRenderer.NotSanitizedRead` | src/protocols/sql_custom_v2.cpp:670-678 | the error text is an SQF array of 0 and the message |
| `ResultRenderer.ResultOfCells` | src/protocols/sql_custom_v2.cpp:499-690 | for any rows whose cells each print one value, told from option and content, and either flag, the result is accepted and reads as exactly the nested array of these values |
| `ResultRenderer.ResultReadsBack` | src/protocols/sql_custom_v2.cpp:499-509 | the same for any cell texts that each read as one value |
| `ResultRenderer.ResultBalances` | src/protocols/sql_custom_v2.cpp:499-690 | whatever the cells print: if each passes its check, or is balanced where it has none, the brackets of the whole result nest |
| `ResultRenderer.CellReads` | src/protocols/sql_custom_v2.cpp:555-646 | a rendered cell reads as a value if and only if that is the value told from its option and content |
| `ResultRenderer.ReadsAnywhere` | src/sanitize.cpp:44 | what reads as one value in front of a comma does so anywhere in an array |
| `ResultRenderer.LargeIdRejected` | src/protocols/sql_custom_v2.cpp:500-505 | an insert id of 2^63 or more makes the result unreadable for the grammar |
| `ResultRenderer.ArrayReads` | src/sanitize.cpp:44 | bracketed, comma-separated texts that each read as a value read as the array of the values |
| `ResultRenderer.StringCellReads` | src/protocols/sql_custom_v2.cpp:574-587 | a cell of the String option is one value if and only if its text is ASCII, and then one string |
| `ResultRenderer.BooleanCellReads` | src/protocols/sql_custom_v2.cpp:621-643 | a cell of the boolean option is one boolean |
| `ResultRenderer.EscapedCell` | src/protocols/sql_custom_v2.cpp:588-600 | a cell of the escaping option passes the check if and only if its text is ASCII, but is one value inside an array only if it has no double quote either |
| `RotatingSink.FilenamesDiffer` | src/spdlog/sinks/file_sinks.h:106-114 | different indexes have different file names |
| `RotatingSink.FilenameShape` | src/spdlog/sinks/file_sinks.h:106-114 | file 0 is name.extension, file i is name.i.extension with i in decimal |
| `RotatingSink.RotatingFileSink.constructor` | src/spdlog/sinks/file_sinks.h:74-86 | opens or creates file 0 and starts counting at its length |
| `RotatingSink.RotatingFileSink.Rotate` | src/spdlog/sinks/file_sinks.h:122-143 | the countdown loop moves index i - 1 to i exactly (absent stays absent), drops the last, empties file 0 and touches no other file |
| `RotatingSink.RotatingFileSink.SinkIt` | src/spdlog/sinks/file_sinks.h:94-103 | the counter is always the length of file 0; the message goes to the end of file 0, or into a fresh one when it would exceed the limit |
| `RotatingSink.FilesAreSuffix` | src/spdlog/sinks/file_sinks.h:94-143 | over any run the files, oldest first, are a suffix of the first contents and the messages, cut only between messages; what is missing is what rotations dropped; every file is within the limit or a single piece (one message, or what a file held at first) |
| `RotatingSink.SizeLimit` | src/spdlog/sinks/file_sinks.h:94-103 | the size limit for every file after every run, in terms of the files alone: a longer file is one single message, or was found that long and has not been written to |
| `RotatingSink.StaysInFile` | src/spdlog/sinks/file_sinks.h:94-103 | no needless rotation: messages that all fit into file 0 go there, in order, and no other file changes |
| `RotatingSink.RotatesWhenFull` | src/spdlog/sinks/file_sinks.h:94-143 | the first message that does not fit starts a new file 0 alone; every file moves up by one and only the last is lost |
| `RotatingSink.FreshLimit` | src/spdlog/sinks/file_sinks.h:74-103 | if what the constructor found is within the limit, as in a fresh directory where it creates file 0, no file ever exceeds the limit except as one larger message |
| `RotatingSink.CreatedEmpty` | src/spdlog/sinks/file_sinks.h:74-103 | a file created empty never exceeds the limit, wherever rotations have moved it |
| `RotatingSink.RunInPieces` | src/spdlog/sinks/file_sinks.h:94-143 | no message is ever split or joined across files |
| `RconReassembly.Rcon.ExtractData` | src/backends/rcon.cpp:771-779 | the copying loop takes the bytes from a position to the end of the datagram |
| `RconReassembly.Rcon.ServerResponse` | src/backends/rcon.cpp:292-344 | one datagram: the new cache and the messages handed on |
| `RconReassembly.DatagramDecodes` | src/backends/rcon.cpp:294-311 | a fragment is decoded from its bytes, whatever the buffer held behind them |
| `RconReassembly.CommandHandedOn` | src/backends/rcon.cpp:292-304 | an answer in one datagram is handed on at once under its number, whatever the buffer held behind it, and the fragments collected so far stay |
| `RconReassembly.Independent` | src/backends/rcon.cpp:313-340 | what happens to one sequence number depends on its own packets only |
| `RconReassembly.Reassembled` | src/backends/rcon.cpp:292-344 | fragments 0 to n - 1, each arriving once in any order and among packets of other sequence numbers, give exactly their concatenation in index order and leave no entry, if and only if 2 <= n <= 127; otherwise no message, and the entry stays |

## Left out

- Memory orders of the queue's atomics: the steps are sequentially consistent; positions are compared as unbounded numbers in `RingQueue` and as 64-bit words in `QueueWrap`.
- RingQueue.MpmcQueue.Enqueue: interference and spurious exchange failures are finite in number, so that the loop ends; the state machine has no such bound. Where each thread is in the code is a field of the object, since the others' steps depend on it.
- RingQueue.MpmcQueue.Dequeue: the same bound on interference and spurious failures.
- The logger's retry loop and worker loop have no bound in the original; they are steps of a state machine, not loop methods. Sleeping, yielding, flush intervals, clocks, sinks that throw, formatters and the teardown of the thread itself are not modelled.
- AsyncLogger.ShutdownDelivers: stated for the block_retry policy; with discard_log_msg the destructor's own `off` can be dropped.
- IntWriter.WriteInt: the branch for a precision above the number of digits, reached only through printf, is excluded by a precondition; sizes do not overflow.
- Floating-point, character, string, pointer and custom arguments: a field's output is the pair of argument and specification. Wide characters and printf-style formatting are not modelled.
- FormatRoundTrip.TemplateRoundTrip: the default specification is printed without its colon, since the alignment lookahead of an empty specification reads past the brace (FormatRoundTrip.EmptySpec).
- FormatRoundTrip.SpecRoundTrip: a type character that a part in front of it would take (a digit behind a number, a dot with no precision, and so on) has no canonical text.
- SqfLanguage.AcceptedLanguage: as for SqfGrammar.ParseValue, real numbers are not in the language.
- SqfRoundTrip.AcceptedIsBalanced: the same restriction to texts without real numbers, inf and nan.
- SqfGrammar.ParseValue: real numbers, inf and nan are not tokens of the model, so it accepts less than the original on text that contains them; numbers are signed integers.
- SqlInputs.ProcessInput: Steam queries, BattlEye ids and player keys are not modelled; nor is the splitting of the call into tokens.
- ResultRenderer.GetResult: Steam, BattlEye and date options are not modelled; the value of a column and what the database says about it are parameters.
- Results with NUL characters (replies are C strings), the parsing of the number behind "4:" and "5:", and output buffers too small for the control replies.
- ResultStore.Conservation: ids are known to workers only once handed out, or are below 100; a message saved twice under one id replaces the first.
- AsyncClient.ClientResult: nobody else saves or polls under the client's own id; its sleeping is not modelled.
- AsyncClient.Fetch: what others do is a finite list that contains the save.
- AsyncClient.CallAsync: the same, and fewer events than tickets are left, so that the key is not handed out again meanwhile.
- AsyncClient.SyncCall: the repository has no script for this call; how a caller tells a result from a ticket of the same form is left to it.
- LoggerProgress.WorkerDelivers: progress is that of one thread running alone, without spurious exchange failures; how threads are scheduled is not modelled.
- LoggerProgress.CallerWins: the same.
- RotatingSink.RotatingFileSink.SinkIt: file operations succeed, nobody else writes the sink's files, and the size counter does not overflow.
- RconReassembly.Reassembled: duplicate fragments, expiry of the cache, sockets, timers and what is done with a message are not modelled.
- Player keys, unique strings, Steam, the BattlEye log scanner, database sessions, digests, configuration files and date arithmetic.
