# Verified models of seven components

This project models seven stateful components of a U-Boot, hexdump and Android RIL/GPS tool set and
proves what they are for. It needs Dafny 4.11 and nothing else; `dafny verify dfyconfig.toml` checks
all of it. Modules are flat, one file each, and named after their component; `Wrappers`, `Arithmetic`
and `AtText` hold what several of them share.

**hexdump (`tools/hexdump/hexdump.c`).** A format string in the style of BSD hexdump is compiled to
bytecode with back-patched jumps, and a stack machine runs it block by block. `HexdumpParser` is the
grammar as the code reads it, with its loops as methods, and `HexdumpRender` writes every program
back as a format string; `HexdumpFormat` gives, for every parsed unit, the bytecode `emit_unit`
writes for it; `HexdumpMachine` is one step of `vm_exec`; `HexdumpReference` is a direct interpreter
of the parsed units that knows no bytecode, stack or jump.
`HexdumpContext` is the compiler in its own form, emitting and patching in a code array,
`HexdumpStream` the machine and the calls `hxd_compile`, `hxd_write`, `hxd_flush` and `hxd_read` on a
context. The main results: parsing reads back every program as it is written, and every program it
reaches can be written unless it has a conversion that cannot be performed (`ProgramReadsBack`,
`ParsedIsWritable`); running compiled code on a block is what the direct interpreter does
(`CompilerCorrect`, `OnlyEnd`); every run ends, uses at most six of the eight stack slots, and never meets a
placeholder (`SafeRun`, `RunEnds`); every jump lands on an opcode (`JumpsLand`); the single-opcode
conversions are exactly the generic ones under stated conditions (`Hex2Exact`, `Addr7Exact`, ...); the
output does not depend on how the input is cut over calls, with flushes and reads anywhere between
(`Session`, and `Dump` from the format string on); and a block, short or full, leaves earlier output alone exactly when no unit of it chops
more than the block has written (`BlockShiftsExactly`). `HexdumpWords` and `HexdumpNumbers` say what the
conversions show of bytes, words in both byte orders, and addresses (`ByteOrder`, `ArgumentIs`);
`HexdumpRows`, `HexdumpTexts` and `HexdumpTables` what formats of one row a block come to. With them
the seven predefined formats are taken from their text to their output: each parses, compiles, and
prints for every input just the rows its users know (`PredefinedParses`, `DumpPredefined`).
`snprintf` is a function of flags, width, precision, conversion and argument; its `%x`, `%c`, `%o`,
`%u` and `%s` are made concrete. `vm_throw` is a failure result. A context starts fresh.

**Environment store (`tools/envtools/fw_env.c`).** `EnvText` is the environment as a map,
`EnvStore` the pointer loops of `fw_getenv` and `fw_env_write` on the buffer, `EnvNand` reading and
writing NAND blocks around bad ones, `EnvRedundant` the choice between two copies and what histories
of closes and power losses come to, `EnvDevices` both on two devices, `EnvDefaults` reading a variable
of what was opened, `EnvChecksum` CRC-32 as the sign of a torn copy. The main results: a write is a map
update that fits exactly when it should (`UpdateIsMapUpdate`, `FitsExactly`, `EnvWrite`); the good
blocks laid end to end are the storage, and a write changes just its bytes there and reads back
(`ReadIsData`, `WriteIsData`, `WriteReadsBack`); a
power loss anywhere leaves the old or the new environment (`CrashIsAtomic`, `CrashOnDevice`); and no
history of any length loses a finished close exactly when the flag scheme is boolean, or `char` is
unsigned and the current device and its counter are of different parity (`DurableExactly`). Otherwise
closes alone lead to a store that returns the same environment for ever (`StuckForEver`); `Sessions`
carries both over to histories on two devices.

**AT channel (`libril/atchannel.c`).** `AtReply` is `processLine` as a function and what a reply has
to hold, `AtProtocol` the protocol as a state machine of any number of senders, the reader thread and
`at_close`, interleaved at every lock, unlock and wait, `AtClosed` what is left of it on a closed
channel and the attempts of `at_handshake`, `AtContext` the linked list of intermediates
and `processLine` on the fields, `AtFrames`, `AtLosses` and `AtReader` the line framer. The main results: in every
reachable state at most one command is outstanding, `AT_ERROR_COMMAND_PENDING` is never returned, and
every reply holds exactly the lines its own command is due of those processed between its write and
its reply (`CommandExclusion`, `NeverPending`, `ReplyIsOwn`; `Exchange` on the fields); from the time
the channel is closed nothing is written in any run, and commands end with just the code they should
(`ClosedForGood`, `WriteComesTo`, `AfterClose`); the lines delivered are those of the
stream cut at CR LF for every cut into reads, exactly when a prompt that starts a line is all of it
(`DeliverIsFrames`, `CutsShowExactly`), and bytes are lost exactly when a
read finds a full buffer with something in it (`LosslessExactly`), which can happen to one byte although
no line is long (`ByteLost`). On streams whose CR and LF only end lines a loss always shows in the lines
(`DeliveredExactly`); on others two losses can make up for each other (`LossUnseen`).

**CRC-32 (`tools/envtools/crc32.c`).** `Crc32` is the register that takes one bit at a time (section
8 of RFC 1952), `Crc32Code` the table, the unrolled loop and the chunked form, `Crc32Table` the table
that is compiled in, which is the one the loops make (`CompiledInIs`). The unrolled table loop
computes the bitwise checksum, checksums chain, and every difference inside 32 consecutive bits is
found (`BurstFound`); of differences of 33 bits the polynomial is the only one missed
(`LongerBurstExactly`). `Crc32Residue` ties it to the checksum others compute: a buffer followed by
its own checksum always has the checksum 0x2144DF1C, only then, and the nine digits have 0xCBF43926
(`CarriesItsSum`, `ResidueExactly`, `CheckValue`).

**SMS (`libril/sms.c`).** `SmsBits` is bit fields at any offset, `SmsCdma` the CDMA bearer data, both
ways, `SmsSeptets` the GSM 7-bit loops as one bit stream. A message comes back from its own encoding
exactly under a condition on the message (`RoundTripExactly`); packing and unpacking septets undo each
other for every length (`PackText`, `UnpackText`, `UnpackedIsText`).

**RIL scheduler (`libril/ril-core.c`).** `RilSchedule` is the queue as values and all its runs,
`RilQueue` the lists in memory. An open queue fires at a turn exactly when an event is in time, the
earliest first (`FiresInOrder`); every event fires exactly once (`ExactlyOnce`, `AllFire`), every
request is dispatched exactly once and in order (`AllDispatched`), ties are in the order of queueing
exactly when no kept billion meets an earlier event (`TiesKeptExactly`), and the stale `prev` of a new
list head is never followed. `Serve` and `Empty` carry this over to the lists.

**Calendar (`libgps/gpshal.c`).** `GpsCalendar` is `mkgmtime` against counting days year by year,
`GpsTime` the NMEA reader's date and time tokens.

Where the code and its documentation differ, the model follows the code:

- `fw_env_open` on NAND compares 255 with 0 in one direction only, so with device 1 at 255 the older
  copy is kept; where `char` is signed the counter sticks at 127 (`FinishedIsFound`, `DurableExactly`),
  and the boolean scheme never sees a flag byte of erased flash (`BooleanChoice`).
- the blank flag of a conversion is read by `getcnv` and never handed to `snprintf` (`BlankFlagIgnored`).
- the end of the input reaches senders that wait only where a callback for it is set (`EndSeenExactly`).
- `hexdump` loads immediates above 65535 with their low 16 bits only (`LoadedExactly`); a short last
  block can lose output of an earlier one to the chop of trailing blanks (`FlushChopsEarlierOutput`).
- `setvalue_of_bit` never clears a bit (`SetThenGet`); a CDMA message in a format other than ASCII or
  Unicode comes back as unreadable (`OtherFormatsAreBad`).
- `enqueueRILEvent` keeps a sum of exactly 1000000000 nanoseconds, which turns some ties round
  (`TieTurnedRound`).
- `nmea_reader_update_date` takes a year that is not two digits for 1999, and an hour, minute or
  second that is not two digits counts as -1 (`NmeaReader.UpdateDate`).

## Model

| member | source | states |
|---|---|---|
| HexdumpParser.ReadInt | tools/hexdump/hexdump.c:205-220 | the loop reads the number the grammar function does, or -1 where there is no digit |
| HexdumpParser.GetIntReadsNumeral | tools/hexdump/hexdump.c:205-220 | a run of digits that is worth at most 2147483639 is read to its end, as the decimal numeral it is |
| HexdumpParser.SkipSpaces | tools/hexdump/hexdump.c:188-202 | the loop stops at the first character that is no blank |
| HexdumpParser.ReadFlags | tools/hexdump/hexdump.c:233-265 | the loop collects the flags in front of a conversion |
| HexdumpRender.ConversionReadsBack | tools/hexdump/hexdump.c:233-339 | flags, width, precision and letter written out are read back as they were, with the bytes the conversion reads |
| HexdumpRender.ItemsReadBack | tools/hexdump/hexdump.c:1099-1246 | the text of a unit, with its escapes, is read back as its literals and conversions, each cut to the byte count |
| HexdumpRender.HeadReadsBack | tools/hexdump/hexdump.c:1356-1380 | loop count, byte count and question mark are read back as written |
| HexdumpRender.UnitReadsBack | tools/hexdump/hexdump.c:1069-1282 | a unit is read back whole, with the bytes it skips and the blanks it ends in |
| HexdumpRender.ProgramReadsBack | tools/hexdump/hexdump.c:1338-1406 | the text of a program parses to just that program |
| HexdumpRender.ParsedIsWritable | tools/hexdump/hexdump.c:1338-1406 | every program a format parses to can be written, unless it has a conversion that cannot be performed, so each format means the same as its written form |
| HexdumpParser.LinesValid | tools/hexdump/hexdump.c:1338-1406 | every parsed format has the ranges and shapes the bytecode relies on |
| HexdumpContext.Code.EmitInt | tools/hexdump/hexdump.c:979-1018 | appends the code of the number, or fails exactly for want of room |
| HexdumpContext.Code.EmitJmp | tools/hexdump/hexdump.c:1027-1035 | leaves six placeholders and where they are |
| HexdumpContext.Code.EmitLink | tools/hexdump/hexdump.c:1038-1066 | turns the placeholders into a jump between two places and changes nothing else |
| HexdumpContext.Code.EmitItem | tools/hexdump/hexdump.c:1101-1246 | appends the code of a literal or a conversion with its test for input, every placeholder patched |
| HexdumpContext.Code.EmitUnit | tools/hexdump/hexdump.c:1069-1282 | appends exactly the code of the parsed unit and adds its size, or fails as the parser does or for want of room |
| HexdumpContext.Code.EmitLine | tools/hexdump/hexdump.c:1364-1382 | appends the units of a line in order |
| HexdumpContext.Code.Compile | tools/hexdump/hexdump.c:1338-1398 | the code array is the code of the parsed format, OP_HALT and OP_TRAP to the end; it succeeds exactly when the format parses and its code fits |
| HexdumpCorrect.RunInt | tools/hexdump/hexdump.c:979-1018 | the code of a number pushes the number, or its low 16 bits |
| HexdumpCorrect.RunJump | tools/hexdump/hexdump.c:1027-1066 | the code of a jump goes to its target when the value below is not zero |
| HexdumpCorrect.RunItem | tools/hexdump/hexdump.c:1101-1246 | the code of an item does what the direct interpreter does, padding or skipping where no input is left |
| HexdumpCorrect.RunLoop | tools/hexdump/hexdump.c:1078-1097 | the loop of a unit repeats as the direct interpreter does, with the exit of a unit marked ? |
| HexdumpCorrect.RunUnit | tools/hexdump/hexdump.c:1069-1282 | the code of a unit leaves the stack as it was and does what the unit means |
| HexdumpCorrect.CompilerCorrect | tools/hexdump/hexdump.c:738-1282 | running a compiled format on any block ends at OP_HALT with the output of the direct interpreter, or throws its error |
| HexdumpCorrect.OnlyEnd | tools/hexdump/hexdump.c:738-1282 | after any number of steps the machine is still running or has ended just so |
| HexdumpSafety.LinesErrors | tools/hexdump/hexdump.c:613-721 | the only errors are those of a conversion |
| HexdumpSafety.SafeRun | tools/hexdump/hexdump.c:598-969 | at every step of every run the opcode is inside the code and no placeholder, at most six of eight slots are used, and at OP_HALT the stack is empty |
| HexdumpSafety.RunEnds | tools/hexdump/hexdump.c:738-969 | every run of a compiled format comes to an end |
| HexdumpSafety.LoadedExactly | tools/hexdump/hexdump.c:797-801 | an immediate is loaded as it is exactly when its magnitude is below 65536 |
| HexdumpLinks.ClosedUnit | tools/hexdump/hexdump.c:1069-1282 | in the code of a unit every jump goes to an opcode of the unit or to its end |
| HexdumpLinks.JumpsLand | tools/hexdump/hexdump.c:1027-1066 | in the code of every format no opcode is a placeholder and every jump goes to an opcode or to OP_HALT |
| HexdumpFast.ZeroFixedExact | tools/hexdump/hexdump.c:376-391 | a conversion the compiler takes for a fixed number of hexadecimal digits prints just those for every number exactly when it has no # and no precision zero |
| HexdumpFast.Hex2Exact | tools/hexdump/hexdump.c:381-382 | OP_2XBYTE is the generic path on every input exactly when the conversion reads one byte and has no # and no precision zero |
| HexdumpFast.Print1Refines | tools/hexdump/hexdump.c:384-385 | OP_PBYTE writes and reads what the generic path does |
| HexdumpFast.Addr8Refines | tools/hexdump/hexdump.c:390-391 | without # and precision zero OP_8XADDR is the generic path at every address |
| HexdumpFast.Addr7Exact | tools/hexdump/hexdump.c:387-388 | without # and precision zero OP_7XADDR is the generic path exactly for addresses below 2^28 |
| HexdumpFast.AddressFlagsExact | tools/hexdump/hexdump.c:376-391 | both are the generic path for all addresses that have the digits exactly without # and precision zero |
| HexdumpFast.CompiledMeansPlain | tools/hexdump/hexdump.c:738-1282 | for plain formats the compiled code writes what a reader of the format expects, numbers and printf taken at their word |
| HexdumpWords.ByteOrder | tools/hexdump/hexdump.c:865-887 | of a word of up to four bytes each byte of the input is the byte its order says, the first one the most or the least significant |
| HexdumpWords.WordShows | tools/hexdump/hexdump.c:865-887 | a compiled %02x to %08x writes two digits for each byte it reads, the most significant byte of the word first, and zeros in front of a word cut short |
| HexdumpWords.ArgumentIs | tools/hexdump/hexdump.c:668-710 | the integer conversions hand printf the number the bytes spell, unsigned for %u and as an int of the same 32 bits for the others |
| HexdumpNumbers.AddressArgument | tools/hexdump/hexdump.c:636-650 | %_ad, %_ao and %_ax hand it the low 32 bits of the address of the next byte, as an int |
| HexdumpNumbers.LabelShort | tools/hexdump/hexdump.c:93-157 | %_c prints the byte, its C escape or three octal digits, cut to a precision of 1 or 2 |
| HexdumpNumbers.NameShort | tools/hexdump/hexdump.c:160-185 | %_u prints the byte, its control name or two hexadecimal digits, cut likewise |
| HexdumpNumbers.TextShort | tools/hexdump/hexdump.c:661-667 | %s prints the bytes the precision says, or all that are left of the block, up to a NUL |
| HexdumpNumbers.BlankFlagIgnored | tools/hexdump/hexdump.c:679-696 | no conversion prints differently for the blank flag |
| HexdumpTexts.FormatReads | tools/hexdump/hexdump.c:1338-1406 | lines of units in the usual spelling, each with or without its counts, parse to their units |
| HexdumpPredefined.PredefinedParses | tools/hexdump/hexdump.h:133-141 | the text of each predefined format parses to its program, whose code fits and whose block is 16 or 12 bytes |
| HexdumpPredefined.PredefinedRows | tools/hexdump/hexdump.h:133-141 | its program prints for every block, short or full, in both byte orders and at every address, the row spelled out byte by byte |
| HexdumpRows.FlushedRows | tools/hexdump/hexdump.c:1419-1475 | a format that prints a row for every block prints, after any writes and a flush, the rows of the whole input |
| HexdumpBlocks.BlockShifts | tools/hexdump/hexdump.c:908-916 | running a full block puts its output behind whatever was there and removes none of it |
| HexdumpBlocks.BlockShiftsExactly | tools/hexdump/hexdump.c:908-916 | so does any block, short or full, exactly when no repeated unit of it runs no repetition and chops more bytes than the block has written so far |
| HexdumpBlocks.FullBlocksSafe | tools/hexdump/hexdump.c:908-916 | full blocks never do, where no count in front of chopped blanks loads as zero |
| HexdumpBlocks.FlushChopsEarlierOutput | tools/hexdump/hexdump.c:1455-1475 | under the format `2/2?"%c "` a flushed byte removes one an earlier block wrote |
| HexdumpStream.Hexdump.Dispatch | tools/hexdump/hexdump.c:738-969 | one dispatch on the fields of the context is one step of the machine |
| HexdumpStream.Hexdump.Exec | tools/hexdump/hexdump.c:738-969 | the loop ends as the run of the machine does |
| HexdumpStream.Hexdump.ExecBlock | tools/hexdump/hexdump.c:1442-1446 | a block adds to the output what the direct interpreter writes for it |
| HexdumpStream.Hexdump.Compile | tools/hexdump/hexdump.c:1338-1406 | it succeeds exactly when the format parses and its code fits, and then the context has its block size and program and is ready; a failure leaves code and buffers empty |
| HexdumpStream.Hexdump.Write | tools/hexdump/hexdump.c:1419-1452 | after any write all output so far is that of the whole blocks of all input so far, unless one of them chopped more than it had written, and the rest is buffered |
| HexdumpStream.Hexdump.Read | tools/hexdump/hexdump.c:1478-1498 | takes bytes from the front of the output and leaves the others |
| HexdumpStream.Hexdump.Flush | tools/hexdump/hexdump.c:1455-1475 | adds the output of the short block if there is one, and leaves a context ready for more input at the same address |
| HexdumpStream.Session | tools/hexdump/hexdump.c:1419-1498 | for every format and every sequence of writes, reads and flushes, all that is read and what still waits is the output of the blocks of the whole input, a short one at each flush, until a block chops more than it has written |
| HexdumpStream.Dump | tools/hexdump/hexdump.c:1338-1498 | the same from the format string on: opening, compiling and any calls come to what the direct interpreter makes of the parsed format |
| HexdumpStream.AfterWrites | tools/hexdump/hexdump.c:1419-1452 | without flushes, and if no block chops more than it has written, these are the whole blocks of everything written |
| HexdumpPredefined.DumpPredefined | tools/hexdump/hexdump.c:1338-1498 | from the text of a predefined format on: opening, compiling, any writes and reads and a flush never fail and print the row of every 16 bytes of the input, or 12, a short one for the rest, and nothing else |
| EnvText.UpdateIsMapUpdate | tools/envtools/fw_env.c:359-444 | a write sets, a delete or an overflow removes the one name, every other name keeps its value |
| EnvText.UpdateKeepsOrder | tools/envtools/fw_env.c:384-443 | of two other variables the first one still stands before the second, and the written one comes last |
| EnvText.FitsExactly | tools/envtools/fw_env.c:423-436 | it fails exactly when the old entries, the new one and the last NULs exceed the size |
| EnvStore.EnvMatch | tools/envtools/fw_env.c:1006-1015 | finds the value exactly when the names are the same |
| EnvStore.GetEnv | tools/envtools/fw_env.c:243-266 | returns the value the environment has for the name, or nothing when no entry has it |
| EnvStore.Delete | tools/envtools/fw_env.c:384-411 | the buffer holds the entries without that one |
| EnvStore.Append | tools/envtools/fw_env.c:417-443 | the buffer holds the entries and the new one, or is unchanged when it does not fit |
| EnvStore.EnvWrite | tools/envtools/fw_env.c:359-444 | on every buffer that holds entries the result and the buffer after it are those of the map update |
| EnvNand.Flash.Read | tools/envtools/fw_env.c:602-688 | the bytes that stand at the offset in the good blocks of the range laid end to end, or a failure exactly where these do not reach |
| EnvNand.Flash.WriteBlocks | tools/envtools/fw_env.c:785-845 | the loop erases and programs good blocks one after the other, as the specification function does |
| EnvNand.Flash.Write | tools/envtools/fw_env.c:695-845 | it succeeds exactly where the good blocks of the range laid end to end reach, and then just the bytes from the offset on have changed in them |
| EnvNand.GoodBlocksAre | tools/envtools/fw_env.c:645-664 | these blocks are all good ones from the first up to the top of the range or a mark that cannot be read, in ascending order |
| EnvNand.ReadIsData | tools/envtools/fw_env.c:602-688 | the reading loop as a slice of the good blocks laid end to end |
| EnvNand.WriteIsData | tools/envtools/fw_env.c:695-845 | the reading out, merging and writing as a change of that slice and of nothing else |
| EnvNand.WriteReadsBack | tools/envtools/fw_env.c:602-845 | for every map of bad blocks, size, offset and length, what a successful write wrote is read back from there |
| EnvNand.WriteKeepsAround | tools/envtools/fw_env.c:743-768 | the other bytes of the rewritten blocks are what they were |
| EnvNand.WriteSucceedsAndStays | tools/envtools/fw_env.c:695-845 | it succeeds exactly when the range has enough readable good blocks, and changes only good blocks of the range |
| EnvRedundant.FinishedIsFound | tools/envtools/fw_env.c:873-914 | the next open finds a finished close except where the current copy is intact and its counter stale |
| EnvRedundant.IncrementalChoice | tools/envtools/fw_env.c:1150-1159 | of two intact copies the second is taken exactly where its counter is larger or wrapped from 255 to 0, or, with a signed char, larger in the order 128 to 127 |
| EnvRedundant.BooleanChoice | tools/envtools/fw_env.c:1133-1149 | it is taken exactly where the flags are 0 and 1, or where only it is 255 and char is unsigned |
| EnvRedundant.ClosedCopies | tools/envtools/fw_env.c:873-914 | a close replaces the other copy with checksum, next counter and data, or with flag 1 and then marks the opened one 0; all else stays |
| EnvRedundant.CrashIsAtomic | tools/envtools/fw_env.c:341-350 | after a power loss in a close the next open returns the whole old or the whole new environment |
| EnvRedundant.StuckForEver | tools/envtools/fw_env.c:1150-1158 | once the counter is stale the same environment is returned whatever is closed |
| EnvRedundant.DurableExactly | tools/envtools/fw_env.c:1020-1183 | no history of closes and crashes loses a finished close exactly when the scheme is boolean, or char is unsigned and device and counter differ in parity |
| EnvRedundant.ErasedIsDurable | tools/envtools/fw_env.c:1017-1020 | a store that starts from erased flash is durable where char is unsigned |
| EnvDevices.InterruptedStays | tools/envtools/fw_env.c:785-845 | a write loop cut short leaves every block outside the good ones of its range as it was |
| EnvDevices.WholeIsInterrupted | tools/envtools/fw_env.c:785-845 | the finished loop is one of the states a power loss can leave |
| EnvDevices.CrashOnDevice | tools/envtools/fw_env.c:341-350 | a power loss at any point of writing the blocks of a copy leaves it readable, and the next open returns what it would have returned before or after the close |
| EnvDevices.Store.OpenEnv | tools/envtools/fw_env.c:1020-1183 | reads both copies and leaves the device, counter and data the choice gives, from a copy whose first four bytes are the checksum of what is behind its flag byte; without such a copy the data begin with the default environment and the device is the first; it fails exactly when a copy cannot be read |
| EnvDevices.Store.CloseEnv | tools/envtools/fw_env.c:341-350 | always succeeds on a store that could be opened; the other device holds the checksum, the next counter and the data, byte after byte, and the current one is as it was |
| EnvDevices.Sessions | tools/envtools/fw_env.c:1020-1183 | opens and closes one after the other leave the copies of the history on the devices; the next open returns what was closed last if device and counter differ in parity, and for ever the same if the counter is stale |
| EnvDefaults.OpenAndGet | tools/envtools/fw_env.c:243-266 | a variable of the copy that is opened, and of the default environment where no copy is intact, as on erased flash |
| EnvChecksum.DamageShows | tools/envtools/fw_env.c:1076-1118 | a copy damaged inside four consecutive bytes is never taken for intact |
| EnvChecksum.StoredCloses | tools/envtools/fw_env.c:1076-1118 | the data followed by the four bytes stored in front of them have the checksum every intact buffer with its checksum has |
| AtReply.ReplyIsDue | libril/atchannel.c:365-436 | the response built line by line, its list reversed, holds the fitting lines in order of arrival and the last final response |
| AtReply.HeardIntermediates | libril/atchannel.c:365-436 | MULTILINE collects all fitting lines, NUMERIC, SINGLELINE and RAW the first one, NO_RESULT none |
| AtReply.DueByKind | libril/atchannel.c:365-436 | of the lines that are neither final nor the prompt, RAW is due the first, NUMERIC the first that starts with a digit, SINGLELINE the first and MULTILINE all that start with the prefix, NO_RESULT none |
| AtReply.FinalResponses | libril/atchannel.c:275-315 | the nine beginnings of a final response, and the two that are good |
| AtContext.ATResponse.AddIntermediate | libril/atchannel.c:250-267 | puts the line at the head of the list |
| AtContext.ATResponse.ReverseIntermediates | libril/atchannel.c:1152-1166 | turns the list round in place, the same nodes |
| AtContext.Context.ProcessLine | libril/atchannel.c:365-436 | the line goes to the handler, the list, the final response or the prompt, one of them, the slot is the one the function gives, and the list has no nodes but its own |
| AtContext.Context.TakeReply | libril/atchannel.c:1249-1264 | returns the response with its list in order of arrival and empties the slot |
| AtContext.Exchange | libril/atchannel.c:1197-1268 | a command on the fields, from filling the slot over any lines to taking the reply, gives the fitting lines in order and the last final response, and hands all other lines to the handler |
| AtProtocol.StepKeeps | libril/atchannel.c:852-1307 | every step of every thread keeps mutual exclusion and the agreement of the slot with a channel that serves one command at a time |
| AtProtocol.CommandExclusion | libril/atchannel.c:1175-1268 | in every reachable state the slot is in use only while one thread owns requestmutex, and that thread sleeps while another holds commandmutex |
| AtProtocol.NeverPending | libril/atchannel.c:1197-1203 | a sender that got requestmutex finds the slot empty, so AT_ERROR_COMMAND_PENDING is never returned |
| AtProtocol.ReplyIsOwn | libril/atchannel.c:1175-1268 | every reply of every run is what the lines since its own write are due, and nothing else was written or finished in between |
| AtProtocol.LineIsRouted | libril/atchannel.c:365-436 | every processed line goes to one place, by the command outstanding then |
| AtProtocol.ReplyShape | libril/atchannel.c:1359-1481 | at most one intermediate but for MULTILINE; a successful single-line or numeric call with an out-pointer returns exactly one |
| AtProtocol.InvalidExactly | libril/atchannel.c:1359-1481 | AT_ERROR_INVALID_RESPONSE comes exactly where a single-line or numeric command with an out-pointer got a good final response and no line that fits; any other outcome is passed on |
| AtClosed.ClosedForGood | libril/atchannel.c:941-944 | from any state in which the channel is closed, in every run: it stays closed, no command is written, and once the reader is gone none gets a reply |
| AtClosed.WriteComesTo | libril/atchannel.c:923-971 | a command that reached its write is written exactly on an open channel, ends with AT_ERROR_CHANNEL_CLOSED on a closed one, AT_ERROR_GENERIC without memory, AT_ERROR_TIMEOUT where the write fails |
| AtClosed.WaitComesTo | libril/atchannel.c:1224-1247 | a waiting sender sleeps exactly while there is no final response and the reader lives, and the end of the reader wins |
| AtClosed.AfterClose | libril/atchannel.c:1094-1121 | when at_close is about to return, and in every run from then on, nothing is written and nothing is replied |
| AtClosed.EndSeenExactly | libril/atchannel.c:852-868 | the end of the input closes the channel exactly where a callback is set, unless it was closed before |
| AtClosed.HandshakeTries | libril/atchannel.c:1551-1587 | in every run at_handshake attempts its command once to as often as its loop says, and stops early only after a reply |
| AtFrames.FramesSplit | libril/atchannel.c:733-778 | cutting a stream at CR LF can stop anywhere and go on with the unfinished end |
| AtFrames.DeliverIsFrames | libril/atchannel.c:757-848 | for every cut into reads without losses the lines delivered are those of the whole stream, if every prompt that starts a line is all of it |
| AtFrames.CutsShowExactly | libril/atchannel.c:735-848 | for streams of lines that fit the buffer, that condition holds exactly when every cut without losses delivers the lines of the stream |
| AtFrames.DeliverAtLeast | libril/atchannel.c:735-848 | whatever the stream and its prompts, no cut without losses delivers fewer lines than the stream has |
| AtFrames.LosslessExactly | libril/atchannel.c:800-822 | every read finds just the unfinished end of the stream exactly when none finds a full buffer with something in it |
| AtFrames.LossCases | libril/atchannel.c:757-778 | that happens to a line that fills the buffer, or to a single byte in its last place |
| AtFrames.ByteLost | libril/atchannel.c:766-778 | a byte can be lost although no line comes near the size of the buffer |
| AtLosses.LossShows | libril/atchannel.c:800-822 | nothing is gained by a loss: a character of a line is missing, or the LF of a lost CR is delivered |
| AtLosses.DeliveredExactly | libril/atchannel.c:757-848 | on streams whose CR and LF only end lines, and whose prompts stand alone, lines and unfinished end are those of the stream exactly when nothing is lost |
| AtLosses.LossUnseen | libril/atchannel.c:757-822 | with stray LFs two losses can leave all lines as they are |
| AtFrames.PromptDependsOnCuts | libril/atchannel.c:735-740 | a stream whose line goes on behind the prompt gives different lines for different reads |
| AtReader.Channel.FindNextEol | libril/atchannel.c:733-755 | finds the end of the next line or the prompt and puts NULs behind it |
| AtReader.Channel.TryALine | libril/atchannel.c:757-778 | the next line in memory, or a partial line moved to the front, as the specification function says |
| AtReader.Channel.ReadLine | libril/atchannel.c:791-848 | the next line as a C string after whatever reads it takes, all bytes accounted for |
| AtReader.Channel.ReaderLoop | libril/atchannel.c:871-911 | all lines of the stream go to processLine or, two at a time, to the handler |
| AtReader.PairingIs | libril/atchannel.c:871-911 | every line is handed on, in order, but for a header at the end of the input; just the lines that announce a message take the next one with them |
| AtReader.SmsUnsolicitedAre | libril/atchannel.c:322-345 | the nine beginnings of such lines |
| Crc32.ByteByTable | tools/envtools/crc32.c:152 | one look at the table does what eight bits do, one after the other |
| Crc32.BytesAreBits | tools/envtools/crc32.c:152-176 | for every start and buffer the table form is the bitwise CRC |
| Crc32.Chains | tools/envtools/crc32.c:152-176 | going on from the checksum of one buffer gives the checksum of both |
| Crc32.StepsInjective | tools/envtools/crc32.c:69-75 | the register step loses nothing |
| Crc32.FeedDiff | tools/envtools/crc32.c:33-54 | the register is linear: differences of registers and of inputs add |
| Crc32.BurstFound | tools/envtools/crc32.c:152-176 | two buffers that differ, and only inside some 32 consecutive bits, never have the same checksum |
| Crc32.FourBytesFound | tools/envtools/crc32.c:152-176 | so errors inside four consecutive bytes are found |
| Crc32.LongerBurstExactly | tools/envtools/crc32.c:33-54 | buffers of any length that differ only inside some 33 consecutive bits have the same checksum exactly when those bits differ by the polynomial |
| Crc32Code.Unit.MakePolynomial | tools/envtools/crc32.c:61-67 | the loop over the exponents makes 0xEDB88320 |
| Crc32Code.Unit.MakeCrcTable | tools/envtools/crc32.c:56-77 | every entry is the register after the eight bits of its index |
| Crc32Table.CompiledInIs | tools/envtools/crc32.c:79-132 | every entry of the compiled-in table is the register after the eight bits of its index |
| Crc32Code.Unit.CompiledIn | tools/envtools/crc32.c:79-132 | a unit with that table is as good as one whose table was made |
| Crc32Code.Unit.Crc32 | tools/envtools/crc32.c:152-176 | the unrolled loop returns the bitwise checksum of the bytes, complemented before and after |
| Crc32Code.Unit.Crc32NoComp | tools/envtools/crc32.c:185-205 | the loop without complements returns the bare register |
| Crc32Residue.CarriesItsSum | tools/envtools/crc32.c:152-176 | any buffer followed by the four bytes of its checksum, the lowest first, has the checksum 0x2144DF1C, from any start |
| Crc32Residue.ResidueExactly | tools/envtools/crc32.c:152-176 | and a buffer followed by four bytes has it only if they are its checksum |
| Crc32Residue.CheckValue | tools/envtools/crc32.c:152-176 | the checksum of the digits 1 to 9 is 0xCBF43926 |
| Crc32Code.Unit.Crc32Wd | tools/envtools/crc32.c:207-230 | the same for every positive chunk size, and for any where there is nothing to check |
| SmsBits.SetValueOfBits | libril/sms.c:146-164 | sets the bits of the value at any offset, clears none, and touches no other byte |
| SmsBits.GetValueOfBits | libril/sms.c:165-188 | the number in the field, most significant bit first |
| SmsBits.SetThenGet | libril/sms.c:146-188 | a field reads back what was set exactly when it held no bit the value lacks |
| SmsCdma.EncodeMessage | libril/sms.c:511-643 | the bearer data has its three sub-parameters: message type deliver, identifier 0 and no header; the encoding, the count and every character in its field, in as few bytes as hold them and clear behind the last one; and the time |
| SmsCdma.DecodeMessage | libril/sms.c:205-281 | the walk over the sub-parameters, on any bytes |
| SmsCdma.DecodesTo | libril/sms.c:205-281 | decoding what was encoded gives the same format and the characters that come back |
| SmsCdma.RoundTripExactly | libril/sms.c:573-618 | it gives the message itself exactly for up to 255 characters below 128, and for an even number of bytes in 16-bit mode |
| SmsCdma.OtherFormatsAreBad | libril/sms.c:619-634 | a message in any other format comes back as unreadable |
| SmsSeptets.PackText | libril/sms.c:371-381 | the packed octets are the bit stream of the septets, ceil(7n/8) of them |
| SmsSeptets.UnpackText | libril/sms.c:482-493 | the unpacked septets are the bit stream of the octets |
| SmsSeptets.UnpackedIsText | libril/sms.c:371-493 | unpacking what was packed gives the text back, whatever fills the last octet |
| RilSchedule.DeadlineIsSum | libril/ril-core.c:384-392 | the deadline is the sum of the times, and normal unless the nanoseconds add up to exactly a billion |
| RilSchedule.BeforeExactly | libril/ril-core.c:284-287 | the comparison is that of instants but for a billion of nanoseconds against the next second |
| RilSchedule.InsertKeeps | libril/ril-core.c:400-425 | inserting keeps the queue in order of time and queueing and adds the one event |
| RilSchedule.ExactlyOnce | libril/ril-core.c:1960-2040 | in every run, with any closes and reopenings, every event fires at most once and is queued until then, and requests are dispatched in order, each at most once |
| RilSchedule.FiresInOrder | libril/ril-core.c:2010-2025 | after any run a turn of an open queue fires an event exactly when one is in time, namely the first, ahead of all others, and dispatches a request exactly when one waits; a closed queue does nothing |
| RilSchedule.AllFire | libril/ril-core.c:1960-2040 | after any run as many turns as there are events, later than their deadlines, fire all of them in order and leave none: what fired is what was queued |
| RilSchedule.TurnsDispatch | libril/ril-core.c:1960-2040 | whatever else comes in between, n turns of an open queue dispatch the first n waiting requests in order |
| RilSchedule.AllDispatched | libril/ril-core.c:1960-2040 | so every request submitted in a run is dispatched, in order and ahead of later ones |
| RilSchedule.TieTurnedRound | libril/ril-core.c:389-392 | two events for the same instant that fire in the wrong order |
| RilSchedule.TiesKeptExactly | libril/ril-core.c:389-425 | after any run all ties in the queue are in the order of queueing exactly when no event kept with a full billion stands for the same instant as an earlier one |
| RilQueue.RequestQueue.EnqueueEvent | libril/ril-core.c:396-434 | the doubly linked list is that of the sorted insertion, without following prev of the head |
| RilQueue.RequestQueue.AddRequest | libril/ril-core.c:671-706 | the request comes last |
| RilQueue.RequestQueue.TakeNext | libril/ril-core.c:2010-2025 | takes the head event if it is due and the first request, and leaves lists of the others |
| RilQueue.Serve | libril/ril-core.c:1960-2040 | a queue from its creation through any run fires and dispatches on its lists what the run does: events at most once, requests in order |
| RilQueue.Empty | libril/ril-core.c:2010-2025 | enough turns after the deadlines fire all events of the list in its order and dispatch the waiting requests one a turn |
| GpsCalendar.MkGmTime | libgps/gpshal.c:234-263 | from 1969 on, with months brought into the year, the count of days year by year, and the time |
| GpsCalendar.EpochExactly | libgps/gpshal.c:234-263 | that count for all years a short can hold, exactly for the years whose divisions towards zero come out right |
| GpsCalendar.PosixFormula | libgps/gpshal.c:212-228 | the count is the formula of section 4.16 of IEEE Std 1003.1-2017 |
| GpsCalendar.StrictlyIncreasing | libgps/gpshal.c:234-263 | on valid dates from 1970 on, later moments have more seconds, and only they |
| GpsCalendar.Fits32Exactly | libgps/gpshal.c:237-263 | 32 bits of time_t are enough exactly up to 2038-01-19 03:14:07 |
| GpsCalendar.Fits64 | libgps/gpshal.c:237-263 | 64 bits are always enough |
| GpsTime.Str2Int | libgps/gpshal.c:133-155 | the number a string of digits stands for, or -1 |
| GpsTime.NmeaReader.UpdateTime | libgps/gpshal.c:298-348 | for a time written in digits the timestamp has that time of day and the whole thousandths of its fraction; other digits count as -1; a failure leaves it as it was |
| GpsTime.NmeaReader.UpdateDate | libgps/gpshal.c:367-390 | for a date and time in digits and a month that exists the timestamp is the milliseconds of the epoch, counted year by year; a year that is not two digits is taken for 1999, an hour, minute or second for -1 |

## Left out

- hexdump: `snprintf` of `%d`, `%i` and `%X`, and `#` with `%o`, beyond the argument it is given; `setjmp` and `longjmp` as such, the Lua binding, `main`, the option parser and the dump functions.
- hexdump: `realloc` failure; the output buffer is a sequence that grows.
- hexdump: reads of more than four bytes, which C leaves undefined, are modelled as the loop over the bytes without the shifts running over.
- hexdump: a context that failed before or is compiled again without a reset, since `hxd_reset` keeps the stack pointer and the block size.
- HexdumpStream.Hexdump.Flush: what a throw during a flush leaves in the input buffer is not stated, because `hxd_flush` then keeps the short end pointer.
- HexdumpBlocks.BlockShifts: stated for formats in which no repetition count in front of chopped blanks is a multiple of 65536, which loads as zero; `BlockShiftsExactly` has no such condition.
- HexdumpStream.Session: nothing is stated once a block chops more than it has written, since its output then depends on what was read back before.
- HexdumpRender.ProgramReadsBack: one written form of each program, in quotes and with its counts; `HexdumpTexts.FormatReads` has units without counts and with a blank behind them, other text, such as text that is not in quotes, is covered only in that it parses to a program with a written form.
- EnvStore.EnvWrite: nothing is stated of a buffer that does not hold well-formed entries, except that a read behind it ends as an explicit outcome.
- fw_env: the NOR path of `flash_write_buf`, the sector locks, the config file, printing, the command line, and a store with a single copy.
- EnvNand.Flash.Write: rounding down to an erase block by masking is modelled as rounding for any block size, which is the same for powers of two.
- EnvRedundant.CrashIsAtomic: a copy torn in the middle that still has a matching checksum is excluded by hypothesis; `EnvChecksum.DamageShows` says when the checksum rules it out.
- EnvDevices.Store.CloseEnv: two NAND devices, so the incremental scheme; the boolean one is covered on images only.
- AtProtocol.StepKeeps: signals carry no state, so liveness, fairness and real time are not covered; a timed wait may time out at any moment.
- AtProtocol.ReplyIsOwn: one life of the channel, from `at_open`; the callbacks on timeout and access, and calls from inside the unsolicited handler, which are refused at once, are not steps.
- AtContext.Context.ProcessLine: sending a PDU is a counter; the bytes of `writeCtrlZ` are not modelled.
- AtFrames.LosslessExactly: stated for streams without the prompt, because a prompt delivered early is no longer in the unfinished end.
- AtReader.Channel.ReadLine: a read error and the end of input are one case.
- atchannel: the tokenizer, the error-code parsers and the disabled first `readline`.
- Crc32Code.Unit.Crc32Wd: a chunk size of zero with bytes to check, with which the source does not end.
- sms: the hexadecimal text around the packed octets, addresses and headers.
- SmsCdma.EncodeMessage: messages that do not fit the bearer data.
- SmsBits.SetValueOfBits: values are natural numbers; a negative int is not shifted.
- RilQueue.RequestQueue.EnqueueEvent: callback and parameter are one number, given in the order of queueing.
- ril-core: the mutex and the waits of the runner as steps of their own, wake-ups, the radio state filter, and every request handler.
- GpsCalendar.MkGmTime: the sum is not cut to the width of time_t; `Fits32Exactly` and `Fits64` say when that makes no difference.
- gpshal: the NMEA tokenizer, fixes and satellites, and the callbacks.
