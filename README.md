# raincoat in Dafny

A model of the core of `raincoat`, the command-line tool that detects, erases,
programs and reads back the BIOS flash chip of an original Xbox through a
memory-mapped window. The model covers:

- **the catalog of known flash types** (`KnownFlashTypes`, `ConfigScan`). This is the
  compiled-in table `aknownflashtype` with its 1023 slots plus a terminator. It is
  counted up to the first entry with a zero id. The records
  `flash = 0x<id>, "<description>", 0x<size>` of `raincoat.conf` are then merged into
  it: new keys (manufacturer id, device id) are appended in file order while slots are
  left, and an all-zero terminator is written after the last entry. The scanner is
  modelled character by character as the source runs it. Each cursor step is a
  function saying where it lands, plus a method with the source's loop proved to land
  there. The table is a class over an `array` with a ghost mirror of the entries in use.
  `CatalogExamples` loads a sample record line into the table.
- **what a record line is** (`RecordSyntax`, `RecordExamples`). The scanner's
  acceptance is restated by the positions of a record's landmarks: the `=` after the
  keyword, the first `x`, the comma within nine characters, the quotes around the
  description, the second `x` and the white space within nine characters after it.
  The scan accepts a line exactly when such positions exist, and the entry is then
  read off them. A line written as `flash = 0x<id>, "<description>", 0x<size>` scans
  back to the entry it was written from.
- **the JEDEC check** (`Jedec`). `checkID` accepts a manufacturer id exactly when it
  has odd parity.
- **the progress protocol** (`ProgressReport`). This is the callback the flash driver
  calls with erase, program and verify events, and the character bar it draws.
- **the sequencing of `main`** (`Raincoat`). A run goes through detection, the ID
  check, the unknown-device gate, the offset warning, the program block (lock gate,
  image read, size gate, erase, then program) and the readback. The model gives the
  exit status, the trace of steps and the final fields of the flash object. The
  driver's answers and the image size are inputs.

The configuration text is a `seq<char>` in which each `char` stands for one byte of
`raincoat.conf`: the 63-character description limit and the white-space and line-break
tests count and classify bytes, and multi-byte encodings are not decoded.

Integers are unbounded in Dafny, so the C widths are written out where they matter:
- `DWORD` is 32 bits wide (`Common.DwordModulus`).
- The percentage is `((pos * 100) mod 2^32) / extent`.
- The space check at line 531 of `src/raincoat.c` subtracts in DWORD arithmetic. With
  a start offset past the end of the chip it wraps, and it then admits images larger
  than the chip (`Raincoat.WrappedSpaceExceedsChip`,
  `Raincoat.OversizeImageWithLargeOffsetIsProgrammed`).

Where the program's description and its code differ, the model follows the code:
- The keyword `flash`/`Flash` is recognised only at the start of a line.
- The `x` before the id need not follow a `0`: the scan seeks the first `x` after `=`.
- A record with no hex digits in its id keeps the value of the bounded scan's countdown
  as its id. One with no size digits keeps the size of the previous record, or the
  buffer's uninitialised size for the first record, which is a parameter
  (`staleSize`).
- Ids of zero read from the file are appended like any other.
- A record whose scan stops early resumes at the next line from wherever its cursor
  stopped. So a record that runs past its own line can swallow the next one.
- An unrecognised chip is fatal only when no readback is asked for.
- Erase and program failures are reported, but the run still reads back and returns 0.
- Below 100% the bar has 39 cells, not 40. The first loop's failing test also
  advances the shared counter.

## Model

| member | source | states |
|---|---|---|
| Jedec.CheckIdBitSumIsPopCount | src/raincoat.c:131-139 | the eight-term sum of the id's bits in `checkID` is the number of set bits of the id |
| Jedec.CheckIdBitSum | src/raincoat.c:132-139 | the sum of the id's eight bits lies between 0 and 8 |
| Jedec.IsValidManufacturerId | src/raincoat.c:131-147 | `checkID`'s verdict, an odd bit sum; `ValidIffOddParity` states which ids it admits |
| Jedec.ValidIffOddParity | src/raincoat.c:131-147 | `checkID` lets an id through exactly when it has an odd number of set bits |
| Jedec.ZeroIdRejected | src/raincoat.c:131-147 | an id of 0 (even parity) is rejected |
| Jedec.AcceptedSampleOne | src/raincoat.c:131-147 | id 0x01 (one bit set) is accepted |
| Jedec.AcceptedSampleSeven | src/raincoat.c:131-147 | id 0xBF (seven bits set) is accepted |
| Jedec.RejectedSample | src/raincoat.c:131-147 | id 0x03 (two bits set) is rejected |
| ProgressReport.StarCount | src/raincoat.c:70 | the first loop draws at most 40 stars up to 100%, and exactly 40 at 100% |
| ProgressReport.DotCount | src/raincoat.c:71 | below 40 stars, stars and dots together fill 39 cells; with 40 stars no dot is drawn |
| ProgressReport.PercentOf | src/raincoat.c:89 | the percentage `(dwPos*100)/dwExtent` in DWORD arithmetic, as each update event computes it; `PercentIsFloor` states its value without wrap-around |
| ProgressReport.Progress | src/raincoat.c:67-73 | the bar is `40*percent/100` stars followed only by dots; it has 39 cells below 100% and 40 stars at 100% |
| ProgressReport.ClearProgress | src/raincoat.c:75-79 | the wipe is exactly 54 spaces |
| ProgressReport.FlashingCallback | src/raincoat.c:81-127 | every event asks the driver to carry on; start, update, end and error events map one-to-one to banner, bar, done and fault reports of the same phase; an update draws the bar of `(dwPos*100)/dwExtent`; faults carry the position and the low byte of the extent, and program and verify faults also the extent shifted right by 8 |
| ProgressReport.PercentIsFloor | src/raincoat.c:89-91 | without wrap-around the percentage is the floor of `100*pos/extent`, and a position within the extent shows at most 100 |
| ProgressReport.FaultDecodesPackedBytes | src/raincoat.c:96-124 | a program or verify fault shows the byte written and the byte read that the driver packed into the extent; an erase fault shows the byte read |
| ProgressReport.HalfwayUpdate | src/raincoat.c:89-91 | position 20 of 40 shows 50%: 20 stars then 19 dots |
| ConfigScan.SpacesEnd | src/raincoat.c:326 | skipping white space stops inside the text, at a character that is not white space or at the end |
| ConfigScan.SpacesEndSkipsOnlySpaces | src/raincoat.c:326 | every character skipped is white space |
| ConfigScan.SkipSpaces | src/raincoat.c:326 | the loop stops where `SpacesEnd` says |
| ConfigScan.SeekEnd | src/raincoat.c:328 | seeking a character stops on it, or at a NUL or the end of the text |
| ConfigScan.SeekEndIsFirst | src/raincoat.c:328 | the seek passes over no occurrence of the character and no NUL |
| ConfigScan.Seek | src/raincoat.c:328 | the loop stops where `SeekEnd` says |
| ConfigScan.ProbeFrom | src/raincoat.c:334-336 | the bounded scan finds a stop character inside its window or gives up at the window's limit or the end of the text |
| ConfigScan.ProbeFromIsFirst | src/raincoat.c:334-336 | a found stop is the first one in the window |
| ConfigScan.Probe9 | src/raincoat.c:334-336 | the nine-character scan finds its stop within nine characters of its start, or fails |
| ConfigScan.ProbeWindow | src/raincoat.c:334-336 | the counting loop gives the result of `Probe9`, and on success leaves its countdown at `8 - offset`, which is not negative |
| ConfigScan.HexOr | src/raincoat.c:337 | the value `%x` stores: that of the digit run at the cursor, or the variable's previous value when there is none; `ReadHex` and `HexOrOfRun` state it |
| ConfigScan.HexEnd | src/raincoat.c:337 | the digits `%x` reads are the longest run of hex digits at the cursor |
| ConfigScan.ReadHex | src/raincoat.c:337 | the digit loop yields the run's value, or the variable's previous value when there are no digits |
| ConfigScan.DescriptionEnd | src/raincoat.c:341-347 | the description copy stops at a quote, a NUL or the end, or after `n` characters |
| ConfigScan.DescriptionEndStopsAtQuote | src/raincoat.c:345-347 | no copied character is a quote or a NUL |
| ConfigScan.CopyDescription | src/raincoat.c:343-348 | the copy loop takes exactly the characters `DescriptionEnd` delimits |
| ConfigScan.LineEnd | src/raincoat.c:440 | the skip to the end of the line stops on a line break, a NUL or the end, and moves when not already on a break |
| ConfigScan.BreaksEnd | src/raincoat.c:441 | the skip over line breaks passes only breaks and stops on a character that is not one |
| ConfigScan.NextLine | src/raincoat.c:440-441 | moving to the next line always advances from a live position and lands just after a line break |
| ConfigScan.SkipLine | src/raincoat.c:440-441 | the two loops land where `NextLine` says |
| ConfigScan.Record | src/raincoat.c:324-339 | a line that does not start with the keyword is no candidate and leaves the cursor in place; an accepted candidate starts with the keyword, has a description of at most 63 characters without quotes, and the scan stops on the white space after its size; `RecordSyntax.RecordAcceptance` states exactly which lines it accepts and with which entry |
| ConfigScan.AfterId | src/raincoat.c:340-348 | every candidate accepted after the id's comma has a bounded, quote-free description and ends on white space; `RecordSyntax.DescriptionWhenStopped` gives its result once the quote and the description's end are found |
| ConfigScan.AfterDescription | src/raincoat.c:349-357 | an accepted candidate keeps the copied description and ends on the white space after the size; `RecordSyntax.SizeWhenStopped` gives its entry once the second `x` and the white space are found |
| ConfigScan.SizeDigitsFit | src/raincoat.c:352-357 | the size digits end before the white space found within nine characters, so at most eight are read and the size fits a DWORD |
| ConfigScan.ParseRecord | src/raincoat.c:324-339 | the nested scans give the candidate and cursor of `Record` |
| ConfigScan.ParseDescription | src/raincoat.c:340-348 | the description scans give the result of `AfterId` |
| ConfigScan.ParseSize | src/raincoat.c:349-357 | the size scans give the result of `AfterDescription` |
| ConfigScan.Records | src/raincoat.c:323-441 | the candidates of the loop, one per line attempted, in file order, each record scanned with the size of the last accepted one; `RecordKeysIgnoreLastSize` and the merge lemmas state what it yields |
| ConfigScan.RecordsAt | src/raincoat.c:323-441 | one record scan at a live cursor, followed by the candidates from the next line on |
| ConfigScan.AfterDescriptionIgnoresLastSize | src/raincoat.c:357 | the size carried over from the previous record changes no key and no cursor of the size scan |
| ConfigScan.AfterIdIgnoresLastSize | src/raincoat.c:340-357 | the carried-over size changes no key and no cursor of the description scans |
| ConfigScan.RecordIgnoresLastSize | src/raincoat.c:324-357 | the carried-over size changes neither whether a record is accepted, nor its key, nor where its scan stops |
| ConfigScan.RecordKeysIgnoreLastSize | src/raincoat.c:323-441 | the keys of the whole record stream do not depend on the initial carried-over size |
| RecordSyntax.RecordAcceptance | src/raincoat.c:324-357 | the scan accepts a line exactly when its landmarks can be placed: keyword, spaces, `=`, first `x`, comma within nine, first quote, a description of at most 63 characters closed by a quote, second `x`, white space within nine; it then yields the id's two low bytes, the description and the size read at those landmarks, and stops on that white space |
| RecordSyntax.RecordOfLayout | src/raincoat.c:324-357 | a line whose landmarks are placed at a layout is accepted with the entry that layout spells, and the size read fits a DWORD |
| RecordSyntax.LayoutOfRecord | src/raincoat.c:324-357 | every accepted line has a layout: the positions where the scans stop are its landmarks |
| RecordSyntax.RecordRoundTrip | src/raincoat.c:324-357 | `flash = 0x<h>, "<d>", 0x<z>` followed by a line break, with one to eight hex digits in `h` and `z` and a description of at most 63 characters without quote or NUL, scans to the entry with `h`'s low two bytes, `d` and `z`'s value, stopping on the line break |
| RecordSyntax.PiecesRoundTrip | src/raincoat.c:324-357 | the same holds for any text that starts with such a line, whatever follows it |
| RecordSyntax.SpacesEndAt | src/raincoat.c:326 | the white-space skip stops at the first character that is not white space |
| RecordSyntax.SeekEndAt | src/raincoat.c:328 | the seek for a character stops at its first occurrence when no NUL comes before it |
| RecordSyntax.ProbeFromAt | src/raincoat.c:334-336 | the bounded scan finds the first stop character inside its window |
| RecordSyntax.DescriptionEndAt | src/raincoat.c:341-347 | the description copy ends at the first quote, NUL or end of text, or after its limit |
| RecordSyntax.HexEndAt | src/raincoat.c:337 | the digit run `%x` reads ends at the first character that is not a hex digit |
| RecordExamples.NewChipExample | src/raincoat.c:324-357 | `flash = 0x0304, "NewChip", 0x00080000` gives manufacturer 0x03, device 0x04, "NewChip" and 0x80000 bytes |
| CatalogExamples.NewChipMerged | src/raincoat.c:323-442 | loaded as the whole configuration text, that line adds exactly the entry 03 04 "NewChip" 0x80000 to a table without key 03 04 that has a free slot |
| RecordExamples.ShortIdRejected | src/raincoat.c:334-336 | `flash = 0xAB` with no comma after the id gives no candidate |
| RecordExamples.CommaMissingRejected | src/raincoat.c:334-336 | a line with no comma after the cursor is never accepted |
| RecordExamples.PrefixedNumbersExample | src/raincoat.c:328-357 | `flash = 0x0x0304, "E", 0x0x10` gives ids 0, 0 and size 0: each number is read from the character after the first `x` and stops at the second |
| KnownFlashTypes.IsStop | src/raincoat.c:184 | the built-in count stops at an entry whose manufacturer id or device id is 0 |
| KnownFlashTypes.CountSeen | src/raincoat.c:184-186 | the count is the index of the first entry with a zero id, and no earlier entry has one |
| KnownFlashTypes.FlashCatalog.constructor | src/raincoat.c:62-64 | the table is the compiled-in list padded with all-zero entries, and the count stops at the first zero-id entry |
| KnownFlashTypes.FlashCatalog.IsKnown | src/raincoat.c:367-380 | the search answers true exactly when the candidate's key is among the entries in use |
| KnownFlashTypes.FlashCatalog.Append | src/raincoat.c:386-426 | the candidate is appended exactly when its key is new; otherwise the table is unchanged |
| KnownFlashTypes.FlashCatalog.Offer | src/raincoat.c:386-426 | one candidate is offered: the entries in use gain exactly that candidate when its key is new and nothing otherwise, and the table still ends up as the loop's target table |
| KnownFlashTypes.NextRecord | src/raincoat.c:324-441 | the candidate is the record scanned at the cursor, the next cursor is the start of the line after the scan stopped, and the size field carries over from an accepted record; together they are the head of the record stream and the start of its tail |
| KnownFlashTypes.FlashCatalog.Absorb | src/raincoat.c:323-442 | one turn of the loop appends the record scanned at the cursor exactly when its key is new, resumes at the start of the next line with the size field carried over, and sets `filled` exactly when that turn used the last slot |
| KnownFlashTypes.FlashCatalog.MergeLines | src/raincoat.c:323-442 | the loop appends exactly `Merge` of the record stream to the entries in use, leaves the free slots untouched, and reports whether it filled the table |
| KnownFlashTypes.FlashCatalog.Terminate | src/raincoat.c:450 | the slot after the last entry in use is all zeros and no other slot changes |
| KnownFlashTypes.FlashCatalog.MergeConfig | src/raincoat.c:309-450 | the entries in use become the old ones followed by `Merge` of the file's records; no key is added twice; the terminator follows; the count added and the capacity notice are reported |
| KnownFlashTypes.Merge | src/raincoat.c:323-442 | the entries the loop appends: accepted candidates whose key is new, in file order, until no slot is left; the lemmas below state its properties |
| KnownFlashTypes.MergeWithinBudget | src/raincoat.c:314-392 | the file never adds more entries than there are free slots |
| KnownFlashTypes.MergeAddsNoDuplicates | src/raincoat.c:367-426 | no appended entry repeats a key already in the table or appended earlier from the file |
| KnownFlashTypes.MergeKeepsFileOrder | src/raincoat.c:323-426 | the appended entries are accepted records, in the order the file gives them |
| KnownFlashTypes.MergeCoversCandidates | src/raincoat.c:323-442 | when the table does not fill up, every accepted record's key is in the table afterwards |
| KnownFlashTypes.KnownCandidatesAddNothing | src/raincoat.c:367-387 | records whose keys are all known add nothing |
| KnownFlashTypes.MergeAgainAddsNothing | src/raincoat.c:323-442 | merging a stream with the same keys a second time adds nothing |
| KnownFlashTypes.MergeIdempotent | src/raincoat.c:309-450 | loading the same configuration text twice adds nothing the second time, whatever the carried-over size |
| KnownFlashTypes.MergeAppend | src/raincoat.c:323-442 | merging two streams in turn is merging the first, then the second against the table the first left |
| KnownFlashTypes.MergeAddsOnlyCandidateKeys | src/raincoat.c:367-426 | a key that no record carries is never appended |
| KnownFlashTypes.FirstSeenWins | src/raincoat.c:367-426 | the first record with a key not in the table is appended, while a slot is left, right after the entries the records before it added |
| KnownFlashTypes.LaterDuplicateIgnored | src/raincoat.c:367-387 | a record whose key is in the table or on an earlier record adds nothing: the merge without it gives the same entries |
| KnownFlashTypes.FirstOfTwoKept | src/raincoat.c:367-426 | of two records with the same key, the first is kept and the second dropped |
| Raincoat.Available | src/raincoat.c:531 | the space after the start offset, `m_dwLengthInBytes - m_dwStartOffset` in DWORD arithmetic; `SizeGateInRange` and `WrappedSpaceExceedsChip` state its value |
| Raincoat.ReadbackLength | src/raincoat.c:563 | the length read back: the chip's, or 0x100000 when it is 0; `DumpLength` states it |
| Raincoat.ProgramPhase | src/raincoat.c:500-553 | the program block's fatal flag, steps and used area; the gate and erase lemmas below state its cases |
| Raincoat.MainOutcome | src/raincoat.c:479-579 | the status, steps, used area and length of a run; the lemmas below state its paths |
| Raincoat.FlashObject.constructor | src/raincoat.c:174-182 | the flash object starts with zero ids, lengths and offset, and description "Unknown" |
| Raincoat.FlashObject.Describe | src/raincoat.c:480 | detection fills in the id, length, description and write capability the driver read, and leaves offset and used area alone |
| Raincoat.FlashObject.ProgramBlock | src/raincoat.c:500-553 | the program block gives the steps and fatal flag of `ProgramPhase` and sets the used area as it does; every other field of the flash object is unchanged |
| Raincoat.FlashObject.ReadBack | src/raincoat.c:557-566 | a zero length is replaced by 0x100000 before the dump of that many bytes; every other field of the flash object is unchanged |
| Raincoat.Run | src/raincoat.c:174-579 | the status, steps, used area and length of a run are those of `MainOutcome`; the flash object keeps the start offset of the options and the ids, description and write flag the driver reported |
| Raincoat.AlwaysChecksId | src/raincoat.c:479-491 | every run detects and then checks the id, on both detection outcomes, and exits with 0 or 1 |
| Raincoat.EvenParityHalts | src/raincoat.c:479-491 | an id of even parity ends the run with status 1 right after the check: no erase, program or readback |
| Raincoat.UnknownDeviceGate | src/raincoat.c:483-490 | an unrecognised chip returns 1 without readback; with readback and no programming the run succeeds |
| Raincoat.OffsetOnlyWarns | src/raincoat.c:493-495 | the offset check only warns: without programming an accepted chip ends in status 0, and the warning appears exactly when the offset is at or past the length |
| Raincoat.LockedChipStopsBeforeImage | src/raincoat.c:506-509 | a chip not believed writable returns 1 before any erase, whatever the image |
| Raincoat.OversizeImageStopsBeforeErase | src/raincoat.c:529-534 | an image larger than the DWORD difference of length and offset returns 1 before any erase or readback |
| Raincoat.ProgramIffErased | src/raincoat.c:536-549 | a program step is taken exactly when an erase was made and succeeded |
| Raincoat.ProgramFollowsErase | src/raincoat.c:536-540 | every program step comes right after the erase step |
| Raincoat.FailuresStillReadBack | src/raincoat.c:529-566 | once the image passes the gates, erase and program failures still end with the readback and status 0, and the used area is the size cut to 32 bits |
| Raincoat.DumpLength | src/raincoat.c:563-564 | a readback dumps the chip length, or 0x100000 when the length is 0, and the object keeps that length |
| Raincoat.SizeGateInRange | src/raincoat.c:531 | with the offset inside the chip, the size gate rejects exactly the images that do not fit after the offset |
| Raincoat.WrappedSpaceExceedsChip | src/raincoat.c:531 | with the offset past the chip, the space the gate allows is `2^32 - (offset - length)`, which is more than the chip holds |
| Raincoat.OversizeImageWithLargeOffsetIsProgrammed | src/raincoat.c:493-540 | a 2 MiB image for a 1 MiB chip at offset 0x100001 draws the offset warning, then is erased and programmed |

## Left out

- Opening `/dev/mem`, mapping the BIOS window, the I/O-port permissions on FreeBSD and the `SIGTRAP` handler are left out: they are operating-system calls.
- Command-line parsing is left out. `Raincoat.Options` stands for its result.
- The search for the configuration file, its reading and the allocation failures are left out. The text read is a parameter of `MergeConfig`.
- A failure to open, size, allocate or read the image file is one case, the image given as `None`.
- The text of printed messages is left out: the version banner, the verbose record listing, the counts, the capacity notice and the error messages. Whether the capacity notice is printed is modelled (`MergeConfig`'s `full`), and so are the exit paths the messages precede and the steps that carry information (the offset warning, the erase-failure hint for manufacturer 0xbf).
- The flash driver (`BootFlashGetDescriptor`, `BootFlashEraseMinimalRegion`, `BootFlashProgram`) is not part of this model. Its answers are inputs (`Raincoat.Driver`). Detection's use of the catalog happens inside it.
- The readback file's creation and the unchecked result of its `write` are left out; the dump is a trace step.
- ConfigScan.HexOr: `sscanf` is modelled as the longest run of hex digits right at the cursor. `%x` would also skip leading white space and accept a sign or a second `0x` prefix. On such a field the model reads differently. After leading white space or a sign it finds no digits and keeps the previous value. After a second prefix it reads the `0` and stops at the `x`, so `flash = 0x0x0304, "E", 0x0x10` gives ids 0, 0 and size 0 where `%x` would give 0x0304 and 0x10 (`RecordExamples.PrefixedNumbersExample`). The model also misses a size whose digits `sscanf` would read past the nine-character window.
- ConfigScan.ProbeFrom: the bounded scans of lines 335 and 355 do not test for the NUL. A record cut off within nine characters of the end of the file would make them read past the buffer. The model stops at the end of the text and rejects the record.
- DWORD is taken as 32 bits and the description buffer as 64 bytes, which gives 63 characters plus the NUL. The header that fixes them is not part of this model.
- ProgressReport.FlashingCallback: an update event with a zero extent divides by zero at line 89 of `src/raincoat.c`; the precondition excludes it, leaving a non-zero extent to the driver.
- ProgressReport.Progress: does not model the overflow of the C `int` product `40 * nPercent`. It happens only above about 53 million percent, which a driver reporting a position far past its extent could cause; the model computes the product unbounded.
- The compiled-in list `flashtypes.h` is not part of this model. The constructor takes any seed list that fits the table.
- Concurrency is left out: there is none in the source.
