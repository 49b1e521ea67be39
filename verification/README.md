# An asynchronous printf-style logger: model and proofs

The program logs from any number of threads without formatting on them. A `TZ_LOG` call serialises its
arguments into the calling thread's staging ring; one poller thread moves what it finds in the rings into
large buffers that it shares with a sink thread; the sink thread walks those buffers, decodes each entry
and formats it into a bounded text buffer with specifiers that were compiled from the format string.
This project models the four layers and proves what each of them, and all of them together, promise.

| module | what it models |
|---|---|
| `Sequences` | the last element and associativity |
| `Bytes` | bytes, the wrapping 64-bit subtraction, little-endian objects |
| `StagingRing` | the single-producer/single-consumer ring as a system of single loads and stores of two threads, with stale loads |
| `StagingBuffers` | the class with its four methods, and the proof that each of them is a run of that system |
| `LogBlocks` | the bytes of log entries and thread blocks, and the nested loops that parse them |
| `SinkBuffering` | the rotation of buffers between poller and sink, as a step system |
| `SinkLoggers` | the classes `SinkBuffer` and `SinkLogger`: buffers whose bytes are those of the blocks appended to them, and the sections of poller and sink as steps of that system |
| `Pollers` | one round of the poller over a vector that grows and shrinks under its index |
| `EndToEnd` | threads, rings, poller and sink as one step system |
| `Visits` | one visit of the poller as its objects make it, as a run of that system |
| `Arrival` | whenever the threads pause, poller and sink can go on until everything committed is processed |
| `ArgEncoding` | storing arguments, reading them back at another address, and the log entry around them |
| `SpecInfos`, `SpecFields` | one conversion specifier: its fields, the loop that reads them, a printer it undoes |
| `FormatScan`, `FormatCompiler` | the scanners over a format string, and the pieces they cut it into |
| `Numerals`, `IntegerField` | digits written two at a time, and the integer conversions against the C standard |
| `Outbuf` | the output buffer that keeps what fits and counts everything |
| `Printf` | formatting as a whole: format, arguments and buffer together |
| `Timestamps` | the timestamp formatter and its cache |
| `Pipeline` | all layers in one claim: what a thread logs is what the sink prints |

How to read it. In a step system every step does at most one access to shared state, so that each
interleaving of the threads is one of its runs; `Inv` is the inductive invariant, `StepInv` shows that each
step keeps it and that no step that can happen is harmful (an access out of bounds, a failing assert, a null
pointer). A method that loads a value another thread owns takes the value as a parameter. A format is a
sequence of characters with a NUL at its end and none before it, as a string literal without embedded NULs is.
Conversions other than those of integers are a parameter, a function from one conversion (specifier, argument,
width, precision) to its text.

## What turned out not to hold

Each of these is proved, with the exact condition under which the code does what it promises.

- Deleting a staging buffer can lose entries: the poller peeks first and tests the deallocate flag
  afterwards. `EndToEnd.DeletionCanLose` is such a run of the whole system, `EndToEnd.DeletionLosesNothingIff`
  the condition; it holds whenever the thread had ended before the peek loaded its position
  (`EndToEnd.DeletionAfterEndLosesNothing`).
- `wFirst_` may be off for a specifier whose width is fixed (`%.**5d`: `SpecFields.WFirstOffForFixedWidth`).
  `SpecFields.WFirstOffIff` says of every specifier when it is off, and `SpecFields.WFirstExactIff` when that is
  exactly the case of two dynamic fields with the `*` last. Where the flag is used, with both fields dynamic, it
  says which of `*` and `.*` came last: `SpecFields.WFirstIff`.
- Two families of integer conversions differ from section 7.21.6.1 of ISO/IEC 9899:2011: zero under precision
  zero prints a digit, and a `0x` prefix comes behind the zeros of a precision or of the `0` flag.
  `IntegerField.ConformsIff` proves that these two are all.
- In the second family the printed field also does not read back as the value, unless the precision is at most
  two above the number of digits: `IntegerField.ReadsBackIff`.
- A negative timestamp that is not a whole second gets more than 3, 6 or 9 fraction digits, because the
  remainder wraps around in 32 bits: `Timestamps.FractionDigitsIff`.
- Without `%Qms`, `%Qus` or `%Qns` in its format, `format_timestamp` writes nothing at all, although its header
  describes the three as additions to `strftime`: `Timestamps.TimestampFormatter.FormatTimestamp`.

## Model

| member | source | states |
|---|---|---|
| StagingRing.StepInv | runtime_logger.h:430-563 | every single load or store of producer and consumer keeps the invariant of the ring, also with `_minFreeSpace` stale in the middle of a reserve and with loads that return an older position |
| StagingRing.FifoOnEveryRun | runtime_logger.h:430-563 | in every run the bytes copied out are a prefix of the bytes committed, across any number of roll-overs, and no step out of bounds or against an assert can come next |
| StagingRing.EnabledIsSafe | runtime_logger.h:497-507 | the two asserts of `finishReservation` hold and every access is inside the storage whenever the invariant does |
| StagingRing.ReservedSpanIsFree | runtime_logger.h:430-507 | a reserved span is inside the storage and holds no byte that is committed and not yet released; the same for whatever `_minFreeSpace` will let through next |
| StagingRing.PeekedSpanIsWholeEntries | runtime_logger.h:521-547 | what `peek` returns is at least one committed entry and ends at an entry's end, also at the roll-over |
| StagingRing.SpanIsStream | runtime_logger.h:521-547 | a peeked span in the storage is the stretch of the committed stream that comes next |
| StagingRing.PeekedSpanIsStable | runtime_logger.cpp:79-88 | no step of the producer changes what is left of a span that is being copied |
| StagingRing.ReleasedAfterRead | runtime_logger.cpp:79-88 | each chunk is given back only after it has been copied, and a finished span has been copied completely, up to the end of its last entry |
| StagingRing.StepGrows | runtime_logger.h:430-563 | nothing committed or delivered is ever taken back |
| StagingRing.NoStuckProducer | runtime_logger.h:448-484 | once all committed bytes are consumed, a blocking reserve of any size below the buffer size succeeds within six steps, or after one complete peek and one more step |
| StagingRing.PeekServes | runtime_logger.h:529-541 | the peek that is needed is the roll-over of the consumer, and the producer's next load then succeeds |
| StagingBuffers.StagingBuffer.constructor | runtime_logger.h:584-603 | the positions and the free space a new buffer starts with |
| StagingBuffers.StagingBuffer.ReserveProducerSpace | runtime_logger.h:430-488 | the retry loop computes `Reserve`, for any values its loads return |
| StagingBuffers.StagingBuffer.FinishReservation | runtime_logger.h:497-507 | under its two asserts it moves the position and shrinks the bound, and nothing else |
| StagingBuffers.StagingBuffer.PeekSpan | runtime_logger.h:521-547 | returns the span and rolls over exactly when the recorded end is reached |
| StagingBuffers.StagingBuffer.Consume | runtime_logger.h:557-563 | moves the consumer by the bytes given back |
| StagingBuffers.PassIsRun | runtime_logger.h:448-484 | one pass of the retry loop is a run of the step system with the same outcome |
| StagingBuffers.RetryIsRun | runtime_logger.h:448-484 | the retry loop, whatever each of its loads returns, is a run of the step system |
| StagingBuffers.ReserveIsRun | runtime_logger.h:430-488 | the whole reserve from its call on, the fast path included and for all values its loads may return, is a run of the step system: what is proved of every run holds of the method |
| StagingBuffers.ReserveAnswersIff | runtime_logger.h:430-488 | with a fresh look at the consumer a reserve answers exactly if so many bytes are free in front of it or before the end of the storage, and with which position; otherwise it waits or gives up |
| StagingBuffers.FinishIsRun | runtime_logger.h:497-507 | publishing and shrinking the bound are the two steps of the commit |
| StagingBuffers.ConsumeIsRun | runtime_logger.h:557-563 | giving a chunk back is the release step |
| StagingBuffers.PeekIsRun | runtime_logger.h:521-547 | so is `peek`, for every pair of values its loads may return |
| StagingBuffers.PeekFindsAll | runtime_logger.h:521-547 | a peek at the newest positions finds something exactly if there is something, and all of it up to the end of the consumer's lap |
| StagingBuffers.CopyIsRun | runtime_logger.cpp:77-88 | the copy loop to its end is a run: the rest of the span goes out byte by byte, and the consumer moves by all of it |
| StagingBuffers.ChunkIsGivenBack | runtime_logger.cpp:77-88 | after 65536 copied bytes or at the span's end, and only then, the next step gives the chunk back |
| LogBlocks.EntryAt | runtime_logger.cpp:280-344 | the header of the entry the parser stands at carries that entry's size |
| LogBlocks.BlockAt | runtime_logger.cpp:270-274 | a block's header carries its thread name and the size of its entries |
| LogBlocks.WriteBlock | runtime_logger.cpp:276-345 | the inner loop visits exactly the entries of the block, in order, and its counter ends at zero |
| LogBlocks.WriteBuffer | runtime_logger.cpp:267-348 | the outer loop visits exactly the blocks that were appended, and its counter ends at zero |
| LogBlocks.PrintedAre | runtime_logger.cpp:300-345 | each record prints one line, of its thread's name and its entry |
| LogBlocks.BufferBytesAppend | runtime_logger.cpp:69-89 | appending a block to a buffer appends its header and its entries to the bytes |
| SinkBuffering.StepInv | runtime_logger.cpp:91-385 | every step of poller and sink keeps the invariant over all buffer slots, with the counter reset outside the mutex |
| SinkBuffering.WrittenInOrder | runtime_logger.cpp:91-385 | what the sink has written is at every moment a prefix of what has been appended: nothing lost, doubled or reordered |
| SinkBuffering.NoAssertFails | runtime_logger.cpp:200-240 | no assert of the sink loop fails and no null buffer is used; at the top of each iteration both spares are there and empty |
| SinkBuffering.OneOwner | runtime_logger.cpp:100-125 | no buffer is ever in two slots, whatever moves happen |
| SinkBuffering.PendingIsBounded | runtime_logger.cpp:204-240 | at most 4 supplements are counted, at most 9 buffers are pending and at most 10 being written |
| SinkBuffering.RotateKeeps | runtime_logger.cpp:205-239 | the locked hand-over keeps the invariant after a notified wait and after a timeout |
| SinkBuffering.TimeoutHandsOverAll | runtime_logger.cpp:206-239 | after a wait that timed out all that has been appended is written or in the sink's hands, however little it is |
| SinkBuffering.NotifiedHandsOver | runtime_logger.cpp:206-239 | otherwise all full buffers are handed over, and with them the current one exactly if more than 107374182 of its bytes are used |
| SinkBuffering.AllWritten | runtime_logger.cpp:258-349 | writing all handed-over buffers at once is writing them record by record |
| SinkBuffering.FlushIsRun | runtime_logger.cpp:196-385 | after a timeout the sink thread alone can write all that has been appended within one iteration and is back at the top with the counter reset |
| SinkBuffering.StepKept | runtime_logger.cpp:91-385 | a block in some slot after a step was in one before, or has just been appended |
| SinkLoggers.SinkBuffer.constructor | runtime_logger.h:89-93 | an empty buffer of its size |
| SinkLoggers.SinkBuffer.Append | runtime_logger.h:99-104 | under its assert the bytes are appended to the contents |
| SinkLoggers.SinkBuffer.Emplace | runtime_logger.h:111-113 | a header written in place is appended to the contents |
| SinkLoggers.SinkBuffer.Reset | runtime_logger.h:115 | empties the buffer |
| SinkLoggers.CopySpan | runtime_logger.cpp:77-88 | chunk by chunk the whole span arrives, each chunk is given back after it has been copied, and the room `append` has tested is enough for every chunk |
| SinkLoggers.AppendInternal | runtime_logger.cpp:69-89 | what it leaves in the buffer is one more block, with the bytes the sink expects of it, though the span goes back in chunks; the consumer moves by the span's length |
| SinkLoggers.SinkLogger.constructor | runtime_logger.cpp:60-67 | four empty buffers with bytes of their own, and the state they stand for satisfies the invariant of the step system |
| SinkLoggers.SinkLogger.Append | runtime_logger.cpp:91-134 | a pass places the block whose entries the span holds exactly if the buffer has room, the next one is there or supplements are left, leaves the state that the steps of search and put leave, and otherwise changes nothing; every buffer's bytes remain those of its blocks |
| SinkLoggers.SinkLogger.Admit | runtime_logger.cpp:97-125 | the search finds a buffer with room in exactly these three cases, and changes only which buffer is where |
| SinkLoggers.AdmitStep | runtime_logger.cpp:97-125 | a span fits below 128 MB with its header of 24 bytes; if it does not, the next buffer, then a supplement of the at most four, then nothing |
| SinkLoggers.SinkLogger.Place | runtime_logger.cpp:69-89 | the block goes into the buffer that was found, and afterwards every buffer's bytes are again those of its blocks |
| SinkLoggers.SinkLogger.Enter | runtime_logger.cpp:203-210 | with no full buffer the sink waits, which frees the mutex, and otherwise goes on at once: the enter step of the system |
| SinkLoggers.SinkLogger.Wake | runtime_logger.cpp:208-240 | after the wait, notified or timed out, the locked section is the wake step; after a timeout everything appended is handed over |
| SinkLoggers.SinkLogger.HandOver | runtime_logger.cpp:211-240 | the rest of the locked section is the rotation of the step system and keeps the invariant; after a timeout, or with more than 0.8 of the current buffer used, nothing that has been appended stays behind |
| SinkLoggers.SinkLogger.WriteAll | runtime_logger.cpp:258-349 | parsing the bytes in the handed-over buffers prints exactly the records appended to them, in order |
| SinkLoggers.SinkLogger.Recycle | runtime_logger.cpp:351-383 | afterwards both spares are there and empty, nothing is left to write and the counter is zero, and the buffers of the poller are untouched, bytes included |
| Pollers.Poller.VisitAt | runtime_logger.cpp:502-545 | one iteration takes the span that `peek` returns, or deletes an empty buffer whose thread has ended, knows where to go on, and leaves all other buffers alone |
| Pollers.Poller.Round | runtime_logger.cpp:493-547 | each buffer there or registering on the way is visited exactly once and in order though deletion shifts the others; each visit finds what `peek` returns where the visits before have left the consumer, and those that stay are the right ones |
| Pollers.NotVisited | runtime_logger.cpp:502-545 | the consumer of a buffer that is not visited stays where it was |
| Pollers.AllHandedOver | runtime_logger.cpp:511-531 | all that a round takes out of the buffers is handed over, and the number of bytes it reports is theirs |
| EndToEnd.StepInv | runtime_logger.cpp:477-559 | every step of any thread keeps the invariant that connects all rings, the poller's index and the sink |
| EndToEnd.ProcessedIsPrefixOfCommitted | runtime_logger.cpp:477-547 | for every thread the entries the sink has processed are at every moment an in-order, duplicate-free prefix of those the thread has committed, while buffers come and go |
| EndToEnd.BuffersReadBack | runtime_logger.cpp:69-89 | in every run, if committed entries carry their size, every block in any buffer of poller or sink is one that the sink's nested loops read back |
| EndToEnd.EmptyPeek | runtime_logger.h:521-547 | a peek that finds nothing has taken everything up to the position it loaded |
| EndToEnd.DeletionLosesNothingIff | runtime_logger.cpp:505-545 | whenever the poller can delete a buffer, deleting it loses nothing if and only if nothing was committed after the position that the last peek loaded |
| EndToEnd.DeletionCanLose | runtime_logger.cpp:505-545 | a run of the whole system, from no thread to a deleted buffer, in which the order of peek and flag loses a committed entry |
| EndToEnd.DeletionAfterEndLosesNothing | runtime_logger.cpp:532-545 | once a thread has ended and a peek has loaded its last position, the deletion of its buffer loses nothing, by whatever steps it comes to it |
| EndToEnd.EndedRun | runtime_logger.h:521-547 | in no run does an ended thread publish anything more, nor its consumer forget what it has loaded |
| EndToEnd.NoThreadForgotten | runtime_logger.cpp:493-547 | in every run each thread that has not ended is among those the poller visits |
| Visits.AppendIsRun | runtime_logger.cpp:69-134 | from a span in the poller's hands a pass that finds room is a run of the whole system, with the sink as `Append` leaves it, the block made of the bytes of the span, and these gone out of the ring |
| Visits.VisitIsRun | runtime_logger.cpp:502-545 | so is a whole iteration over one buffer, for every pair of values its loads may return: the consumer ends where `VisitAt` leaves it, an empty buffer stays or goes with the index as there, a span ends up in the sink as `Append` puts it there |
| Arrival.SinkSettles | runtime_logger.cpp:196-385 | from the top of an iteration or from the wait the sink can write all that has been appended and wait again, with a buffer in reserve |
| Arrival.EverythingArrives | runtime_logger.cpp:477-559 | from every state between two rounds there is a run without a step of a logging thread, of two rounds of the poller and the sink's iterations between, after which the processed entries of every thread with a ring are its whole stream, and one by one what it has committed if none of these is empty |
| ArgEncoding.GetStrSizeArray | tz_logger.h:95-148 | fills one entry for each `%s` argument, in order |
| ArgEncoding.StoreSizes | tz_logger.h:211-288 | slots and strings end up exactly as long as `getNArgsSize` and the recorded sizes say |
| ArgEncoding.StoreDynamics | tz_logger.h:222-243 | dynamic width and precision arguments are stored in front of their argument, in order |
| ArgEncoding.StoreArg | tz_logger.h:151-205 | a string goes behind the strings with its distance in the slot, anything else into the slot, and nothing else changes |
| ArgEncoding.StoreArgs | tz_logger.h:211-288 | both cursors end where the sizes say and the bytes are those of `Store` |
| ArgEncoding.Dump | tz_logger.h:447-458 | leaves the dumped bytes at `storage`, touches nothing else and advances by their length |
| ArgEncoding.ArgBack | tz_logger.h:291-302 | one slot read at any address gives what the direct conversion looks at |
| ArgEncoding.FieldsBack | tz_logger.h:318-373 | the widths and precisions that the reader takes from memory, in either order of `*` and `.*`, are those that direct formatting takes from its arguments |
| ArgEncoding.ReadBack | tz_logger.h:304-402 | reading all slots makes the conversions of the stored arguments, with their widths and precisions |
| ArgEncoding.DeferredIsDirect | tz_logger.h:151-402 | wherever dumped bytes have been copied to, the conversions made from them are those of direct formatting |
| ArgEncoding.DeferredSees | tz_logger.h:151-402 | so does the k-th conversion made from dumped bytes at any address: the string by its characters, other objects as they are, width and precision by the values of their arguments |
| ArgEncoding.AddSizes | tz_logger.h:504-508 | the buffer size is the sum of all recorded sizes and what it starts from |
| ArgEncoding.LookIs | tz_logger.h:151-205 | every conversion sees what its argument is: characters for `%s` of a `char*`, units for `%ls` of a `wchar_t*`, the object for all other specifiers |
| ArgEncoding.IntegerIs | constexpr_fmt.h:1158-1173 | the value of an integral object of 1, 2, 4 or 8 bytes, signed or not, and the `int` it becomes, which is itself if it fits |
| ArgEncoding.FieldsAre | constexpr_fmt.h:1914-1962 | width and precision are the arguments in the order of their stars, 0 and -1 without a star |
| ArgEncoding.DirectAt | constexpr_fmt.h:1906-1988 | the k-th conversion takes the argument behind its own stars, of those that the specifiers before it have left |
| ArgEncoding.WriteLogEntry | tz_logger.h:502-537 | writes exactly the log entry, normal or too large, and the assert on its size holds |
| ArgEncoding.LogEntryFits | tz_logger.h:504-537 | every entry carries its own size and is below the bound under which a blocking reserve always succeeds |
| ArgEncoding.EntryHeaderIs | tz_logger.h:510-535 | format, size, status and time in the 24 bytes of the header; too large is a call of more than 524288 bytes, whose entry carries only its size |
| Bytes.LittleEndian | tz_logger.h:291-302 | objects of 1, 2, 4 and 8 bytes are read with the least significant byte first |
| ArgEncoding.EntryFormatsAsDirect | runtime_logger.cpp:320-324 | the sink, starting behind the header of a normal entry anywhere in memory, makes the direct conversions |
| SpecFields.ReadNumber | constexpr_fmt.h:833-836 | digits are read to their end and to their value |
| SpecFields.CaseDot | constexpr_fmt.h:824-838 | `.*`, or a possibly empty number, is one item |
| SpecFields.CaseNumber | constexpr_fmt.h:847-856 | a number without leading zero is a width |
| SpecFields.CaseTwice | constexpr_fmt.h:862-883 | `h`, `hh`, `l` and `ll` are told apart and used up |
| SpecFields.CaseOne | constexpr_fmt.h:793-904 | the other modifiers; the default case, which throws, cannot be reached |
| SpecFields.StateStep | constexpr_fmt.h:790-908 | item by item the variables of the loop follow the reading in which the last item of a kind wins |
| SpecFields.ParseFields | constexpr_fmt.h:788-913 | for every specifier the loop ends behind the conversion character and has read its meaning |
| SpecFields.CharactersAre | constexpr_fmt.h:631-673 | which characters end a specifier and which may stand in front of them |
| SpecFields.FlagsAre | constexpr_fmt.h:788-913 | `#`, `-`, `+`, space and `L` count wherever they stand, `0` where no number goes on and no precision begins; `+` wins over the space |
| SpecFields.ItemsAre | constexpr_fmt.h:862-904 | `hh`, `h`, `l`, `ll`, `j`, `t`, `z`, `L`, `*` and `.*` by their letters |
| SpecFields.WidthIs | constexpr_fmt.h:847-856 | a width is the value of all its digits |
| SpecFields.PrecIs | constexpr_fmt.h:824-838 | so is a precision, zero without digits |
| SpecFields.LastWins | constexpr_fmt.h:788-913 | of several widths, precisions or lengths the last counts; without any they are 0, none and `int` |
| SpecFields.WFirstIff | constexpr_fmt.h:807-831 | with both fields dynamic the flag is on exactly if the last `*` stands before the last `.*` |
| SpecFields.WFirstOffIff | constexpr_fmt.h:807-831 | for every specifier the flag is off exactly if a `*` stands where the precision so far is `.*` and no `.*` behind it stands where the width so far is `*` |
| SpecFields.WFirstExactIff | constexpr_fmt.h:807-856 | "off exactly if both fields are dynamic and the last `*` follows the last `.*`" holds exactly if both are dynamic or the flag has not been turned off on the way |
| SpecFields.WFirstOffForFixedWidth | constexpr_fmt.h:807-856 | a specifier with a fixed width for which the flag is off |
| SpecFields.ItemsOfPrint | constexpr_fmt.h:788-913 | reading undoes printing for every sequence of items that do not run into each other |
| SpecFields.ReadUndoesPrint | constexpr_fmt.h:788-913 | reading undoes the canonical printer, for every canonical specifier |
| SpecFields.EveryMeaningPrints | constexpr_fmt.h:788-913 | whatever modifiers mean has a canonical text, from which reading restores it |
| SpecFields.MeaningOk | constexpr_fmt.h:788-913 | what is read has a width of at least 0, a precision of at least -1 and a sign of the three there are |
| FormatScan.TokensCover | constexpr_fmt.h:728-786 | the tokens are the whole format |
| FormatScan.TokensAreOk | constexpr_fmt.h:631-673 | and each is of the characters its kind allows; only the last can be cut off |
| FormatScan.TokensOfSource | constexpr_fmt.h:728-786 | a format has only one such reading |
| FormatScan.AfterPercent | constexpr_fmt.h:728-750 | `%` and one character: a conversion for the eighteen of the standard, cut off within modifiers, a character for itself for all others |
| FormatScan.SkipModifiers | constexpr_fmt.h:736-739 | the inner loop of all scanners stops at the first character that is no modifier, in bounds |
| FormatScan.CountValidSpecInfos | constexpr_fmt.h:1051-1083 | counts exactly the valid specifiers, in bounds |
| FormatScan.SqueezeSoundSize | constexpr_fmt.h:1107-1139 | is the length of the squeezed format and its NUL |
| FormatScan.StoreOneChar | constexpr_fmt.h:998-1027 | one character, and how far reading is then ahead of writing |
| FormatScan.Preprocess | constexpr_fmt.h:1029-1046 | the fold over all characters is the format without the `%` and modifiers of every invalid specifier, with its NUL last |
| FormatCompiler.PiecesTile | constexpr_fmt.h:708-786 | literal texts and valid specifiers tile the squeezed format with no gap or overlap, to its end |
| FormatCompiler.Locate | constexpr_fmt.h:728-786 | finds the literal text of any number up to the count, in bounds, though the first loop has no test for the NUL |
| FormatCompiler.LocateEnd | constexpr_fmt.h:752-786 | from there it goes on to the next valid specifier or to the end, over invalid ones |
| FormatCompiler.GetOneSpec | constexpr_fmt.h:708-914 | position and fields of the num-th specifier, or of the text behind the last |
| FormatCompiler.Compile | constexpr_fmt.h:2017-2023 | all specifiers of a format |
| Numerals.ValueOfNumeral | constexpr_fmt.h:340-482 | the numeral of a value has that value and only digits of its base |
| Numerals.DigitsAre | constexpr_fmt.h:340-482 | the sixteen digits in their order and in both cases |
| Numerals.NumeralUnique | constexpr_fmt.h:340-482 | a digit string without superfluous zeros is the numeral of its value |
| Numerals.AtMost22 | constexpr_fmt.h:48 | no 64-bit value has more than 22 digits in the three bases |
| Numerals.FormatPairs | constexpr_fmt.h:340-482 | the backward loops over digit pairs leave the numeral at the end of the buffer and never leave it |
| IntegerField.Magnitude | constexpr_fmt.h:1175-1229 | the magnitude of every converted value, the most negative included, and its sign |
| IntegerField.ConvertedIs | constexpr_fmt.h:1175-1229 | what is converted lies in the type of the length modifier, is the argument if that does, and otherwise agrees with it in that type's bits |
| IntegerField.EffectiveFields | constexpr_fmt.h:1322-1346 | a negative width argument is left adjustment, a negative precision argument is none |
| IntegerField.StarsAreFixed | constexpr_fmt.h:1322-1346 | a width argument is that width, a negative one the `-` flag and its magnitude; a precision argument is that precision, a negative one none |
| IntegerField.DigitsWithPrefix | constexpr_fmt.h:1493-1575 | digits and prefix fit the 32-character buffer |
| IntegerField.ConvertInteger | constexpr_fmt.h:1313-1903 | the field that is written, for every value, specifier, width and precision |
| IntegerField.FieldIs | constexpr_fmt.h:1768-1894 | the field in words: blanks, sign, zeros, prefix, digits in base 8, 10 or 16 and the right case, blanks; as wide as asked for and no wider than needed, with zeros only for the precision or the `0` flag |
| IntegerField.ConformsIff | constexpr_fmt.h:1768-1894 | that field is the one of section 7.21.6.1 if and only if it is in neither of the two families |
| IntegerField.ReadsBackIff | constexpr_fmt.h:1768-1894 | read in base 8, 16 or 10 as its conversion says, the field gives the value back if and only if no zeros have come before a `0x` |
| IntegerField.PrintedReadsBackIff | constexpr_fmt.h:1493-1894 | the same from the argument, for every value its type holds |
| Outbuf.OutbufArg.constructor | constexpr_fmt.h:125-130 | an empty text |
| Outbuf.OutbufArg.Write | constexpr_fmt.h:173-185 | appends to the text, of which the buffer holds what fits, and counts |
| Outbuf.OutbufArg.WriteBlock | constexpr_fmt.h:196-211 | the same for a block that may fit in part |
| Outbuf.OutbufArg.WritePaddings | constexpr_fmt.h:213-240 | the same for a padding, sixteen characters at a time, and for none |
| Outbuf.OutbufArg.SizeToWrite | runtime_logger.cpp:338-340 | what the sink hands on is exactly what the buffer holds |
| Outbuf.OutbufArg.Reset | constexpr_fmt.h:168-171 | an empty text again |
| Outbuf.OutbufArg.Done | constexpr_fmt.h:242-245 | there is always room for the NUL |
| Printf.ConvertSingle | constexpr_fmt.h:1290-1320 | the literal text and the conversion behind it |
| Printf.Convert | constexpr_fmt.h:1906-1988 | all conversions and the tail, one after the other |
| Printf.CompiledPrints | constexpr_fmt.h:1965-1988 | compiled specifiers over the squeezed format print what one pass over the tokens of the format says, with each argument where it belongs |
| Printf.EndPrints | constexpr_fmt.h:1984-1987 | the end of a format prints nothing, nor does a specifier that it cuts off |
| Printf.LiteralPrints | constexpr_fmt.h:728-786 | any character but `%` prints itself |
| Printf.InvalidPrints | constexpr_fmt.h:998-1027 | a specifier with a character that converts nothing prints that character, as `%%` prints `%` |
| Printf.ConversionPrints | constexpr_fmt.h:1906-1962 | a valid specifier prints its conversion and takes the arguments of its stars and one more |
| Printf.ConversionIs | constexpr_fmt.h:1313-1903 | an integer of whatever type is reduced to the type of the specifier and printed as its field; an integer conversion of anything else is an error |
| Printf.CountArgsRequired | constexpr_fmt.h:1089-1100 | counts the arguments that the conversions of a compiled format take |
| Printf.RequiredIsNeeded | constexpr_fmt.h:1089-1100 | compiled specifiers take as many arguments as the tokens of the format need |
| Printf.ArgumentsRequired | constexpr_fmt.h:1994-2001 | the number a format asks for is the number its tokens need |
| Printf.SameSize | constexpr_fmt.h:2067-2068 | if squeezing does not shorten a format it does not change it, so using the format itself is right |
| Printf.CfmtStr | constexpr_fmt.h:2050-2079 | section 7.21.6.5: the result is the length of the whole text, the buffer holds as much as leaves room for the NUL, and the NUL, and nothing behind it changes |
| Printf.DeferredPrints | runtime_logger.cpp:308-324 | from the bytes of a log entry at any address the sink prints what direct formatting would have printed |
| Timestamps.Find | timestamp_formatter.cpp:42-43 | the first occurrence at or behind a position |
| Timestamps.FindOnly | timestamp_formatter.cpp:42-51 | a second occurrence of the same specifier is found if there is one, because occurrences cannot overlap |
| Timestamps.SplitFormat | timestamp_formatter.cpp:41-94 | fails exactly for formats with more than one of the three specifiers, and otherwise returns the format around the one |
| Timestamps.TimestampFormatter.constructor | timestamp_formatter.cpp:96-116 | the cache is filled for the current second |
| Timestamps.TimestampFormatter.FormatTimestamp | timestamp_formatter.cpp:124-185 | for timestamps in any order the text is the one that recomputing both parts gives, cut off at 99 characters |
| Timestamps.WriteText | timestamp_formatter.cpp:154-181 | parts and fraction into the 100-character buffer |
| Timestamps.FormatIsFractionSpec | timestamp_formatter.cpp:158-179 | "%s%03u" and the others compile to the specifiers used here |
| Timestamps.FractionDigitsIff | timestamp_formatter.cpp:150-181 | exactly 3, 6 or 9 fraction digits if and only if the timestamp is not negative or is a whole second |
| Timestamps.FractionValue | timestamp_formatter.cpp:150-181 | these digits are the fraction of the second |
| Timestamps.FractionOfSecond | timestamp_formatter.cpp:150-181 | as many whole milli-, micro- or nanoseconds have passed since the second as the 3, 6 or 9 digits of `%Qms`, `%Qus` or `%Qns` say |
| Timestamps.RecomputedIs | timestamp_formatter.cpp:124-185 | the text of a timestamp is its two parts at the second it lies in with these digits between |
| Timestamps.SecondsIs | timestamp_formatter.cpp:124-135 | the second of a timestamp, counted towards zero for negative ones |
| Pipeline.StoredIsCommitted | tz_logger.h:510-521 | whatever the stores between reserve and commit are, in any order and repeated or not, and whatever the consumer does meanwhile, the commit adds to the stream what they have left: one entry with exactly these bytes |
| Pipeline.LeavesIff | tz_logger.h:510-521 | stores leave an entry whatever the space held before, exactly if each of its bytes has been stored and not been overwritten |
| Pipeline.HeaderLast | tz_logger.h:510-521 | the order of the code, header emptied, arguments stored, header filled in, leaves the entry |
| Pipeline.RunPublishes | runtime_logger.h:497-507 | what a thread has committed after a run is what it had committed before and what its commits in the run published |
| Pipeline.ThreadsLog | tz_logger.h:510-521 | in every run in which each thread, before each commit, stores the entry of its next call in whatever order and commits its length, the commits are the entries of these calls |
| Pipeline.ProcessedAreTheCalls | runtime_logger.cpp:477-547 | in every run in which the threads log, the k-th record of a thread that the sink has processed is the entry of its k-th call |
| Pipeline.LoggedBlocksReadBack | runtime_logger.cpp:258-349 | in these runs every block in any buffer is one that the sink reads back |
| Pipeline.RecordInBytes | runtime_logger.cpp:262-349 | each record of a buffer lies in its bytes as it was committed |
| Pipeline.LoggedIsPrinted | runtime_logger.cpp:308-324 | that record, wherever its bytes are in memory, makes the conversions of the thread's k-th call and prints what formatting the call at once would have printed |

## Left out

- EndToEnd.ProcessedIsPrefixOfCommitted: a prefix and not everything, because the sink loop ends on `running_ == false` without draining.
- StagingRing.FifoOnEveryRun: loads of a position may be stale, but stores become visible in order and the storage bytes with them; weaker behaviour of the C++ memory model is not modelled.
- Printf.CfmtStr: the text of `%c`, `%s`, `%p` and the floating-point conversions is a parameter; they rest on library calls and IEEE arithmetic.
- ArgEncoding.DeferredIsDirect: the string behind a `char*` or `wchar_t*` ends in a zero. `getSizeForTerminal_s` measures it without regard to the precision, so a null pointer, or an array without NUL that direct formatting under a precision may take, is read beyond its end when it is stored; what happens then is not modelled.
- Printf.DeferredPrints: does not capture the store of `%n` through a caller's pointer, nor arguments of class type whose copy is more than their bytes.
- IntegerField.ConvertInteger: width, precision and field size are unbounded integers; the code's `int` overflows at a precision of INT_MAX or a width argument of INT_MIN.
- Outbuf.OutbufArg.constructor: sizes of at least 1; with size 0 `done` would still store its NUL.
- Timestamps.TimestampFormatter.FormatTimestamp: `localtime`, `gmtime` and `strftime` together are one function from format part, time zone and second to text.
- Pollers.Poller.Round: what `append` does with a span is in `SinkLoggers` and `EndToEnd`; here it is recorded and given back; `Visits` joins the two.
- SinkLoggers.SinkLogger.Append: takes a span of whole entries that carry their sizes, which is what the poller always hands it (`EndToEnd.BuffersReadBack`, `Pipeline.LoggedBlocksReadBack`); one pass of the loop; sleeping between passes is not modelled, and neither is `blocking == false`, which the poller never passes.
- Wide strings are sequences of four-byte units that are copied; rendering them (`%ls`, `%lc`) is not modelled.
- `setBufPtr`, `setWrittenNum` and `getAvailableSize` of the output buffer, which only the wide conversions use.
- The tables of digit pairs are given by a formula; the Windows-only table `digit_3` is not modelled.
- Template parameter lists of specifiers and arguments are sequences; `static_assert`s are preconditions.
- Formats with embedded NULs.
- Widths and precisions in a format that overflow `int`, which do not compile.
- The head of a log line (severity, file, function, line), the message for an entry that is too large, and writing the file.
- Clock calibration and conversion, thread start and stop, thread naming, callbacks, log levels, polling intervals.
- `stagingBufferCreated` and the destruction of a thread's buffer handle, beyond the deallocate flag.
