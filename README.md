# Flight log client: verified model of its core

This project models the sequential logic of a flight-school log written in TypeScript:

- **Flight-duration arithmetic.** `calcFlightTime` turns two `H:MM` strings into an elapsed
  `H:MM` string. It returns `"0:00"` for empty or unreadable input and adds one day once
  when the landing is earlier than the takeoff (`FlightTime`).
- **The spreadsheet export.** This is `excelExport.ts`. Its parts are modelled one module each:
  - XML escaping (`XmlEscape`);
  - the worksheet builder and a reader of its layout (`Worksheet`);
  - the little-endian encoders (`LittleEndian`);
  - the table-driven CRC-32 (`Crc32`);
  - UTF-8 encoding for `TextEncoder` (`Utf8`);
  - `concat` and the stored ZIP writer (`Zip`);
  - the five-part workbook package (`Export`).
- **The flight-entry forms.** These are shared by the page that records a flight and the dialog that edits one (`Forms`):
  - `validate`, where the first broken rule wins;
  - `parseInt` for the landing count;
  - the `/^\d{1,2}:\d{2}$/` time pattern;
  - the record each save handler builds.

  The page is a class (`EntryPage.FlightLogEntryPage`), and so is the dialog
  (`EditDialog.EditFlightEntryDialog`). Their React state hooks are fields, and their
  handlers are methods.

Supporting modules:
- `Options`: an option type;
- `Bytes`;
- `JsStrings`: JavaScript's `String(n)`, `padStart`, `split`/`join` and `trim`, together with decimal digit strings;
- `Backend`: the store's `FlightEntry` record.

The main results:
- `calcFlightTime` gives `(L − T) mod 1440` minutes for clock times, and its output parses back to the total.
- Unescaping `escapeXml(s)` gives `s`, and the escaped text holds no markup character.
- Reading the generated worksheet back gives the header row, then one row per entry with the entry's eleven values.
- The table CRC equals the bit-at-a-time reflected CRC-32.
- The little-endian encoders decode back to `n mod 2^(8k)`.
- The archive `buildZip` writes places each record where the central directory says it is. It carries matching CRC and size fields, and an end record that counts the entries.
- The exported package holds the five parts, and each part decodes to its text.
- `validate` returns no message exactly when the form is valid, and otherwise the message of the first broken rule.
- Saving a dialog loaded from a record, without changes, sends the record back under its own key, with only the duration recomputed.

The model abstracts the program's environment. The clock, the store's mutations, the parent component's callback and the DOM are parameters or results of the methods. The browser download is left out.

Facts about the code that the model keeps as they are:
- `calcFlightTime` checks neither the width nor the range of its fields. `"9:5"`, `"12:"`, `"25:00"` and `"99:99"` are all read as numbers (FlightTime.SingleDigitMinutesAccepted, EmptyMinutesFieldIsZero, OutOfRangeExceedsDay).
- The time pattern counts digits only, so `"99:99"` passes validation (Forms.NinetyNineMatches, NinetyNineValidates).

## Model

| member | source | states |
|---|---|---|
| FlightTime.ToNumber | frontend/src/utils/timeCalculations.ts:7-8 | `Number` of a string of decimal digits is its decimal value (`""` is 0) |
| FlightTime.NumberOfString | frontend/src/utils/timeCalculations.ts:7-8 | `Number(String(n))` is `n` |
| FlightTime.JsRemainder60 | frontend/src/utils/timeCalculations.ts:15 | JavaScript `%` by 60: the remainder has the dividend's sign, is below 60 in magnitude and differs from the dividend by a multiple of 60 |
| FlightTime.CalcFlightTime | frontend/src/utils/timeCalculations.ts:5-17 | an empty argument, or any field that `Number` reads as NaN, gives exactly `"0:00"` |
| FlightTime.FormatDuration | frontend/src/utils/timeCalculations.ts:14-16 | `${Math.floor(m / 60)}:${String(m % 60).padStart(2, '0')}` with JavaScript's flooring division and truncating `%`; its round trip is FormatDurationRoundTrip, its negative case OutOfRangeStaysNegative |
| FlightTime.FormatDurationRoundTrip | frontend/src/utils/timeCalculations.ts:14-16 | a non-negative total formats as canonical hours, `:`, two minute digits below 60, and parses back to the total |
| FlightTime.DurationOfDigitTimes | frontend/src/utils/timeCalculations.ts:7-16 | for digit fields the result is the formatted landing-minus-takeoff minutes, plus one day when negative |
| FlightTime.ClockTimesGiveElapsedModuloDay | frontend/src/utils/timeCalculations.ts:11-16 | for clock times (hours < 24, minutes < 60) the result parses back to a value below 1440: `L − T` when landing is not earlier, `L − T + 1440` when it is |
| FlightTime.ElapsedMinutes | frontend/src/utils/timeCalculations.ts:11-12 | the result is the landing-minus-takeoff difference or that plus one day, and it is non-negative whenever the difference is at least minus one day |
| FlightTime.ElapsedWithinDay | frontend/src/utils/timeCalculations.ts:11-12 | for clock times the elapsed minutes lie in [0, 1440), equal `(L − T) mod 1440`, equal `L − T` when that is non-negative and `L − T + 1440` otherwise |
| FlightTime.EqualTimesGiveZero | frontend/src/utils/timeCalculations.ts:11 | equal digit times give `"0:00"` |
| FlightTime.MidnightCrossing | frontend/src/utils/timeCalculations.ts:2-3 | takeoff `23:30` and landing `00:15` give `"0:45"`: the day is added once |
| FlightTime.SingleDigitMinutesAccepted | frontend/src/utils/timeCalculations.ts:7-8 | `"9:5"` to `"10:00"` gives `"0:55"`: the fields are read as numbers, not checked for width |
| FlightTime.EmptyMinutesFieldIsZero | frontend/src/utils/timeCalculations.ts:7-9 | `"12:"` to `"13:30"` gives `"1:30"`: an empty field reads as 0, not NaN |
| FlightTime.OutOfRangeExceedsDay | frontend/src/utils/timeCalculations.ts:11-12 | `"0:00"` to `"99:99"` gives `"100:39"`, more than a day |
| FlightTime.OutOfRangeStaysNegative | frontend/src/utils/timeCalculations.ts:12-16 | `"99:99"` to `"0:00"` stays negative after the single added day and formats as `"-77:-39"` |
| JsStrings.NatToDecimal | frontend/src/components/EditFlightEntryModal.tsx:63 | `String(n)` is a canonical decimal: digits only, no leading zero, one digit exactly when n < 10 |
| JsStrings.DecimalRoundTrip | frontend/src/components/EditFlightEntryModal.tsx:63 | the decimal value of `String(n)` is `n` |
| JsStrings.CanonicalRoundTrip | frontend/src/utils/timeCalculations.ts:16 | a canonical decimal is `String` of its value |
| JsStrings.PadStart | frontend/src/utils/timeCalculations.ts:16 | `padStart` keeps the string as a suffix, fills the front, and yields at least the width |
| JsStrings.SplitParts | frontend/src/utils/timeCalculations.ts:7-8 | joining the pieces of `split` with the separator gives the string back, and no piece holds the separator |
| JsStrings.JoinSplit | frontend/src/utils/timeCalculations.ts:7-8 | splitting a join of separator-free pieces gives the pieces back |
| JsStrings.TrimStart | frontend/src/utils/timeCalculations.ts:7-8 | the trimmed text is a suffix of the input that starts with no white space |
| XmlEscape.ReplaceAll | frontend/src/utils/excelExport.ts:10-14 | after a global replace whose replacement lacks the character, the character no longer occurs |
| XmlEscape.EscapeXmlConcat | frontend/src/utils/excelExport.ts:8-15 | escaping distributes over concatenation |
| XmlEscape.EscapeXml | frontend/src/utils/excelExport.ts:8-15 | the five global replacements in the source's order; what they achieve is stated by EscapeXmlIsEscaped, EscapedIsText and EscapeXmlRoundTrip |
| XmlEscape.EscapeXmlIsEscaped | frontend/src/utils/excelExport.ts:8-15 | the five chained replacements, `&` first, equal escaping each character on its own |
| XmlEscape.UnescapeEscaped | frontend/src/utils/excelExport.ts:8-15 | unescaping the per-character escape gives the text back |
| XmlEscape.EscapedIsText | frontend/src/utils/excelExport.ts:8-15 | the escaped text holds none of `< > " '`, and every `&` in it opens one of the five entities |
| XmlEscape.EscapeXmlRoundTrip | frontend/src/utils/excelExport.ts:8-15 | `escapeXml` output unescapes to the input, holds no markup character, and every `&` opens an entity |
| Worksheet.Column | frontend/src/utils/excelExport.ts:22 | `String.fromCharCode(65 + i)` is a capital letter for the 26 columns |
| Worksheet.ColumnCode | frontend/src/utils/excelExport.ts:44 | column `i` has character code `65 + i`, so the eleven cells of a row sit in columns `A` to `K` |
| Worksheet.EntryValues | frontend/src/utils/excelExport.ts:30-42 | eleven values, one per header; their contents (`Solo`/`Dual`, `Day`/`Night`, `String(landingCount)`) are stated row by row in LayoutRows and SheetContents |
| Worksheet.Layout | frontend/src/utils/excelExport.ts:20-48 | the sheet lays out one row more than there are entries |
| Worksheet.BuildSheetXml | frontend/src/utils/excelExport.ts:17-54 | the loop that pushes the header row, then one row per entry, returns the sheet text |
| Worksheet.ReadSheetOfBuilt | frontend/src/utils/excelExport.ts:17-54 | reading the sheet text back recovers every row's number and, cell by cell, the column-and-row reference and the unescaped value |
| Worksheet.LayoutRows | frontend/src/utils/excelExport.ts:3-6 | the rows are the header row numbered 1 with `HEADERS`, then entry `i` as row `i + 2` with its eleven values |
| Worksheet.SheetContents | frontend/src/utils/excelExport.ts:17-54 | the sheet read back has `entries.length + 1` rows: the header row, then each entry in order with its eleven cells in columns A to K |
| LittleEndian.DecodeEncodeLE | frontend/src/utils/excelExport.ts:100-114 | decoding the `k` bytes of `n` gives `n mod 256^k` |
| LittleEndian.EncodeDecodeLE | frontend/src/utils/excelExport.ts:100-114 | encoding the value of a byte string in its own width gives the bytes back |
| LittleEndian.ByteOfLE | frontend/src/utils/excelExport.ts:102-105 | byte `j` of the encoding is `(n >> 8j) & 0xff` |
| LittleEndian.Uint16LE | frontend/src/utils/excelExport.ts:109-114 | a fresh 2-byte array holding `n` little-endian |
| LittleEndian.Uint32LE | frontend/src/utils/excelExport.ts:100-107 | a fresh 4-byte array holding `n` little-endian |
| LittleEndian.Bytes2 | frontend/src/utils/excelExport.ts:111-112 | the two bytes are `n & 0xff` and `(n >> 8) & 0xff` |
| LittleEndian.Bytes4 | frontend/src/utils/excelExport.ts:102-105 | the four bytes are `(n >> 8k) & 0xff` for k = 0..3 |
| Crc32.BuildTable | frontend/src/utils/excelExport.ts:117-124 | the nested loops fill 256 entries, entry `i` being eight register steps from `i` |
| Crc32.Crc32 | frontend/src/utils/excelExport.ts:116-130 | the table-driven loop returns the reflected CRC-32 of the data: initial value and final XOR 0xFFFFFFFF |
| Crc32.StepIsBranch | frontend/src/utils/excelExport.ts:121 | the branch-free register step equals the source's `c & 1 ? 0xedb88320 ^ (c >>> 1) : c >>> 1` |
| Crc32.TableUpdateIsBitwise | frontend/src/utils/excelExport.ts:127 | one table lookup `table[(crc ^ b) & 0xff] ^ (crc >>> 8)` equals eight bit steps after folding in the byte |
| Crc32.LowByteDecides | frontend/src/utils/excelExport.ts:127 | eight steps of a register equal eight steps of its low byte XOR its high bits |
| Crc32.CheckValue | frontend/src/utils/excelExport.ts:116-130 | the checksum of `"123456789"` is the CRC-32 check value 0xCBF43926 |
| Crc32.EmptyChecksum | frontend/src/utils/excelExport.ts:125-129 | the checksum of no data is 0 |
| Utf8.Encode | frontend/src/utils/excelExport.ts:96-98 | `TextEncoder.encode` as UTF-8, one to four bytes per scalar value; DecodeEncode, AsciiEncode and EncodeAppend state its properties |
| Utf8.DecodeEncode | frontend/src/utils/excelExport.ts:96-98 | decoding the UTF-8 bytes of a string gives the string back |
| Utf8.AsciiEncode | frontend/src/utils/excelExport.ts:96-98 | an ASCII string encodes to one byte per character, with the same values |
| Utf8.EncodeAppend | frontend/src/utils/excelExport.ts:96-98 | encoding distributes over concatenation |
| Zip.FlattenLength | frontend/src/utils/excelExport.ts:133 | the concatenation is as long as the summed lengths |
| Zip.FlattenPart | frontend/src/utils/excelExport.ts:135-139 | part `k` sits at the summed length of the parts before it |
| Zip.Concat | frontend/src/utils/excelExport.ts:132-141 | the copying loop returns the parts laid end to end in a fresh array |
| Zip.LocalHeader | frontend/src/utils/excelExport.ts:159-173 | the local header assembled from its thirteen fields |
| Zip.CentralHeader | frontend/src/utils/excelExport.ts:177-196 | the central directory header assembled from its eighteen fields |
| Zip.EndOfCentralDirectory | frontend/src/utils/excelExport.ts:205-214 | the end record assembled from its eight fields |
| Zip.BuildZip | frontend/src/utils/excelExport.ts:148-218 | the loop over entries returns the local records, the central directory and the end record, with offsets summed as it goes |
| Zip.ZipBytes | frontend/src/utils/excelExport.ts:148-218 | the bytes `buildZip` returns; BuildZip is proved to produce them, and ZipSplit, LocalRecordAt, CentralDirectoryAt, EndRecordAt and DataAt state their layout |
| Zip.ZipSplit | frontend/src/utils/excelExport.ts:216 | the archive is the local records, then the central directory, then the end record |
| Zip.LocalRecordLayout | frontend/src/utils/excelExport.ts:159-173 | a local record is `30 + |name| + |data|` bytes: signature, method 0, CRC, both sizes, then name and data |
| Zip.CentralRecordLayout | frontend/src/utils/excelExport.ts:177-196 | a central record is `46 + |name|` bytes: signature, method 0, CRC, both sizes, the local offset, then the name |
| Zip.LocalRecordAt | frontend/src/utils/excelExport.ts:198 | local record `i` sits at the summed length of the records before it |
| Zip.CentralDirectoryAt | frontend/src/utils/excelExport.ts:201 | the central directory starts where the local records end |
| Zip.EndRecordAt | frontend/src/utils/excelExport.ts:205-216 | the 22-byte end record closes the archive |
| Zip.CentralOffsetField | frontend/src/utils/excelExport.ts:194 | central record `i`'s offset field reads as the start of local record `i`, modulo 2^32 |
| Zip.CentralPointsToLocal | frontend/src/utils/excelExport.ts:194-198 | below 4 GiB of local records, the offset in central record `i` points at a local file header signature |
| Zip.CrcFieldsAgree | frontend/src/utils/excelExport.ts:166-185 | the CRC fields of a local record and its central record are the same bytes, and they read as the data's checksum |
| Zip.StoredSizes | frontend/src/utils/excelExport.ts:163-168 | a local record has method 0, and both its size fields read as the data length modulo 2^32 |
| Zip.EndRecordFields | frontend/src/utils/excelExport.ts:205-214 | the end record counts the entries twice and holds the directory's size and start, each modulo its field width |
| Zip.DataAt | frontend/src/utils/excelExport.ts:171-172 | entry `i`'s data is stored uncompressed right after its local header and name |
| Zip.EntryCount | frontend/src/utils/excelExport.ts:209-210 | with fewer than 65536 entries the end record's two count fields read as the entry count |
| Export.Package | frontend/src/utils/excelExport.ts:227-233 | the package has five parts |
| Export.ExportToExcel | frontend/src/utils/excelExport.ts:220-235 | the buffer is the archive of the five parts, with the worksheet built from the entries |
| Export.ContentTypesPart | frontend/src/utils/excelExport.ts:228 | part 1 is `[Content_Types].xml`, and its bytes decode to the content-types text |
| Export.RootRelsPart | frontend/src/utils/excelExport.ts:229 | part 2 is `_rels/.rels`, and its bytes decode to the package relationships |
| Export.WorkbookPart | frontend/src/utils/excelExport.ts:230 | part 3 is `xl/workbook.xml`, and its bytes decode to the workbook text |
| Export.WorkbookRelsPart | frontend/src/utils/excelExport.ts:231 | part 4 is `xl/_rels/workbook.xml.rels`, and its bytes decode to the workbook relationships |
| Export.SheetPart | frontend/src/utils/excelExport.ts:232 | part 5 is `xl/worksheets/sheet1.xml` with the worksheet's UTF-8 bytes, which decode to the worksheet |
| Export.SheetNameBytes | frontend/src/utils/excelExport.ts:232 | the worksheet's part name is 24 bytes in UTF-8 |
| Export.SheetStored | frontend/src/utils/excelExport.ts:232-235 | the archive stores the worksheet's bytes uncompressed after the four fixed parts' records and its own header |
| Export.ExportedRows | frontend/src/utils/excelExport.ts:221-232 | in the archive built for `entries`, the bytes at the worksheet's data offset decode to `buildSheetXml(entries)`, and reading that text gives the header row and one row per entry, in order, each with its eleven cells |
| Export.StoredSheetDecodes | frontend/src/utils/excelExport.ts:228-232 | the worksheet's bytes, cut out of the archive at their offset, decode back to the worksheet's text |
| Export.FiveEntries | frontend/src/utils/excelExport.ts:227-235 | the exported archive's end record (lines 209-210) counts five entries, twice |
| Forms.FailureMessage | frontend/src/pages/FlightLogEntryPage.tsx:88-90 | a rejection shows the `Error`'s message, and otherwise the fallback text |
| Forms.DigitRun | frontend/src/pages/FlightLogEntryPage.tsx:53 | `parseInt` reads the longest run of digits of the base |
| Forms.ReadRun | frontend/src/pages/FlightLogEntryPage.tsx:53-54 | the result is NaN exactly when no digit follows |
| Forms.ParseInt | frontend/src/pages/FlightLogEntryPage.tsx:53 | `parseInt` without a radix: white space skipped, one sign, `0x` selects base 16, the longest run of digits is the value, none is NaN; its readings are stated by ReadRun, ParseIntOfDigits, ParseIntStopsAtNonDigit, ParseIntOfString and ParseIntEmpty |
| Forms.ParseIntOfDigits | frontend/src/pages/FlightLogEntryPage.tsx:53 | a string of decimal digits, leading zeros included, reads as its decimal value (`"07"` is 7) |
| Forms.ParseIntStopsAtNonDigit | frontend/src/pages/FlightLogEntryPage.tsx:53 | `parseInt` of decimal digits followed by a non-digit is the digits' value, whenever the text does not open with `0x` or `0X` |
| Forms.ParseIntOfString | frontend/src/components/EditFlightEntryModal.tsx:63 | `parseInt(String(n))` is `n` for every count `n` ≥ 0, so the count loaded here reads back unchanged at lines 90 and 119 |
| Forms.ParseIntEmpty | frontend/src/pages/FlightLogEntryPage.tsx:53-54 | an empty landing count is NaN |
| Forms.NegativeCountInvalid | frontend/src/components/EditFlightEntryModal.tsx:90-91 | `String` of a negative count (as loaded at line 63) does not pass the count rule |
| Forms.MatchesClock | frontend/src/pages/FlightLogEntryPage.tsx:51-52 | `/^\d{1,2}:\d{2}$/.test(s)`; MatchesClockShape proves it equal to the pattern's grammar |
| Forms.MatchesClockShape | frontend/src/pages/FlightLogEntryPage.tsx:51-52 | the pattern holds exactly for one or two digits, `:`, and two digits |
| Forms.ValidTimesDuration | frontend/src/pages/FlightLogEntryPage.tsx:41-52 | for times that match the pattern, `calcFlightTime` never falls back to `"0:00"`: it gives the duration of the digits as written |
| Forms.NinetyNineMatches | frontend/src/pages/FlightLogEntryPage.tsx:51-52 | `"99:99"` matches the time pattern |
| Forms.Validate | frontend/src/pages/FlightLogEntryPage.tsx:43-56 | no message exactly when the form is valid (the independent Valid conjunction); the same rules and messages appear at EditFlightEntryModal.tsx lines 80-93, and ValidateReportsFirstBroken states which message is returned |
| Forms.ValidateNoneIffValid | frontend/src/pages/FlightLogEntryPage.tsx:43-56 | `validate` returns null exactly when all seven fields are filled in, both times match, and the count parses to at least 1 |
| Forms.ValidateReportsFirstBroken | frontend/src/pages/FlightLogEntryPage.tsx:43-56 | when rule `k` is the first broken rule in the fixed order, the message is rule `k`'s |
| Forms.ValidateMessageIsFirstBroken | frontend/src/components/EditFlightEntryModal.tsx:80-93 | every message `validate` returns belongs to the first broken rule |
| Forms.NinetyNineValidates | frontend/src/pages/FlightLogEntryPage.tsx:51-52 | an otherwise complete form with `"99:99"` as both times validates |
| Forms.FlightTypeOf | frontend/src/pages/FlightLogEntryPage.tsx:76 | the result is solo exactly when the choice is `'solo'` |
| Forms.LandingTypeOf | frontend/src/pages/FlightLogEntryPage.tsx:80 | the result is night exactly when the choice is `'night'` |
| Forms.ChoicesRoundTrip | frontend/src/components/EditFlightEntryModal.tsx:59-62 | loading a type into its select and mapping it back (lines 114 and 118) gives the type, and the other way round for the select's two values |
| Forms.WithText | frontend/src/pages/FlightLogEntryPage.tsx:127 | editing an input (this and the `onChange` handlers at lines 138, 249, 261, 313) changes that input only |
| Forms.Record | frontend/src/pages/FlightLogEntryPage.tsx:69-82 | a record built from a valid form carries the given key and a landing count of at least 1 |
| Forms.NewEntry | frontend/src/pages/FlightLogEntryPage.tsx:67-82 | a new record's key is a multiple of 10^6, dividing it by 10^6 gives the clock reading, and its count is at least 1 |
| Forms.UpdatedEntry | frontend/src/components/EditFlightEntryModal.tsx:106-120 | the edited record keeps the original's `dateEpoch` and has a count of at least 1 |
| Forms.LoadForm | frontend/src/components/EditFlightEntryModal.tsx:53-63 | the loaded selects hold button values that map back to the record's flight and landing types; the count round trip is SaveUnchanged |
| Forms.RecordDerivedFields | frontend/src/pages/FlightLogEntryPage.tsx:69-82 | the record's duration is that of its times, and its count is `parseInt` of the text |
| Forms.SaveUnchanged | frontend/src/components/EditFlightEntryModal.tsx:106-120 | saving the inputs loaded from a record (lines 52-64) gives the record back, except that `totalFlightTime` is recomputed |
| EntryPage.FlightLogEntryPage.constructor | frontend/src/pages/FlightLogEntryPage.tsx:29-39 | the page mounts with an empty form dated today: dual, day, one landing, no error |
| EntryPage.FlightLogEntryPage.TotalFlightTime | frontend/src/pages/FlightLogEntryPage.tsx:41 | the shown duration of two valid times is the duration their digits spell |
| EntryPage.FlightLogEntryPage.EditText | frontend/src/pages/FlightLogEntryPage.tsx:127 | a text input (this and the handlers at lines 138, 249, 313) takes its value, and the error line clears |
| EntryPage.FlightLogEntryPage.ChooseFlightType | frontend/src/pages/FlightLogEntryPage.tsx:215-227 | the dual and solo buttons set the flight type and leave the error line |
| EntryPage.FlightLogEntryPage.ChooseLandingType | frontend/src/pages/FlightLogEntryPage.tsx:280-292 | the day and night buttons set the landing type and leave the error line |
| EntryPage.FlightLogEntryPage.HandleSave | frontend/src/pages/FlightLogEntryPage.tsx:58-93 | An invalid form shows the first broken rule's message and submits nothing. A valid form submits the record keyed by the clock in nanoseconds. On success the page goes to `/flight-records`; on failure it shows the rejection's message. |
| EntryPage.SubmittedRecord | frontend/src/pages/FlightLogEntryPage.tsx:67-82 | a submitted record maps back to the selected types, has count ≥ 1, carries its times' duration, and its key divided by 10^6 is the clock reading |
| EditDialog.EditFlightEntryDialog.Synced | frontend/src/components/EditFlightEntryModal.tsx:52-78 | the effect loads the record while open on one, resets to the defaults while closed, and otherwise keeps the inputs |
| EditDialog.EditFlightEntryDialog.constructor | frontend/src/components/EditFlightEntryModal.tsx:38-78 | the dialog mounts with its props and runs the effect once |
| EditDialog.EditFlightEntryDialog.Rerender | frontend/src/components/EditFlightEntryModal.tsx:52-78 | the effect runs only when `open` or `entry` change; loading or resetting clears the error, and props that do not change leave the inputs alone |
| EditDialog.EditFlightEntryDialog.EditText | frontend/src/components/EditFlightEntryModal.tsx:167 | a text input (this and the handlers at lines 178, 289, 353) takes its value, and the error line clears |
| EditDialog.EditFlightEntryDialog.ChooseFlightType | frontend/src/components/EditFlightEntryModal.tsx:255-267 | the dual and solo buttons set the flight type and leave the error line |
| EditDialog.EditFlightEntryDialog.ChooseLandingType | frontend/src/components/EditFlightEntryModal.tsx:320-332 | the day and night buttons set the landing type and leave the error line |
| EditDialog.EditFlightEntryDialog.HandleSave | frontend/src/components/EditFlightEntryModal.tsx:95-136 | Without a record nothing happens. An invalid form shows the first broken rule's message. A valid form sends `EditRequest(entry.dateEpoch, updated record)`. On success the dialog asks to close; on failure it shows the message. |
| EditDialog.EditFlightEntryDialog.HandleOpenChange | frontend/src/components/EditFlightEntryModal.tsx:138-142 | open/close requests reach the parent exactly when no edit is pending, unchanged |
| EditDialog.EditKeepsKey | frontend/src/components/EditFlightEntryModal.tsx:106-128 | the updated record keeps the original key, which is also the request's `entryId`, and has count ≥ 1 |
| EditDialog.OpenAndSaveUnchanged | frontend/src/components/EditFlightEntryModal.tsx:95-121 | opening (lines 52-64) on a valid record and saving without changes validates and sends the record with only its duration recomputed |

## Left out

- Download: the `Blob`, the object URL, the anchor element and its click, and the `filename` parameter are browser I/O.
- Toasts and rendering: the success and error toasts, the page layout, the category lists feeding the selects, and the `disabled` flags while a mutation is pending are not modelled.
  - The handlers treat the awaited mutation as one step, with its outcome as a parameter. That means no input can change while a save is in flight.
- Remote store: the react-query hooks and the remote actor are not modelled.
  - A mutation's outcome is a parameter (`Forms.Outcome`).
  - The submitted record or edit request is a result.
  - The parent's `onOpenChange` is modelled as a returned request.
- Clock: `Date.now()` is the `nowMs` parameter. The date the create page starts from (`getTodayDateString`) is the constructor's `today` parameter.
- EditDialog.EditFlightEntryDialog.Rerender: React compares the `entry` prop by object identity. The model compares records by value, so a new object with equal contents does not rerun the effect here.
- EditDialog.EditFlightEntryDialog: the `id` field of the `entry` prop is never read by the dialog and is not modelled.
- FlightTime.ToNumber: `Number()` is modelled for the empty string, for optional sign plus ASCII digits, and for these after trimming white space; everything else reads as NaN.
  - The model does not cover decimal points, exponents, `Infinity` or hex literals, which `Number` would accept. Nor does it cover integer precision beyond 2^53.
- Forms.ParseInt: values are exact integers. JavaScript rounds results beyond 2^53 to doubles, and `BigInt` of such a result can differ from the digits written. A run of digits too large for a double (about 1.8 × 10^308 or more, such as 309 nines) reads as `Infinity` in JavaScript, but as its exact value here.
- EntryPage.FlightLogEntryPage.HandleSave: a landing count that `parseInt` reads as `Infinity` passes the count rule, and then `BigInt(Infinity)` throws a `RangeError` at FlightLogEntryPage.tsx line 81, before the `try` at line 84. The source then submits nothing, does not navigate and leaves the error line empty. The model submits a record with the exact count instead.
- EditDialog.EditFlightEntryDialog.HandleSave: the same overflow throws at EditFlightEntryModal.tsx line 119, before the `try` at line 122. The source sends no edit, does not close and leaves the error line empty. The model sends the edit with the exact count instead.
- Utf8.Encode: a string is a sequence of Unicode scalar values. Lone surrogates, which `TextEncoder` replaces with U+FFFD, are not representable.
- Zip.BuildZip: `buildZip` returns the array's `ArrayBuffer`; the model returns the array.
  - Lengths, offsets and counts are unbounded integers. The header fields hold them modulo 2^16 or 2^32, which the lemmas state; the source also truncates silently.
- Crc32.Crc32: the table is built by its own method `BuildTable` on every call, as in the source. The JavaScript number-to-`Uint32` conversions are modelled as `bv32` arithmetic.
- Worksheet.BuildSheetXml: `map(...).join('')` for the cells is a function (`CellsXml`), and the `forEach` over entries is the method's loop.
- `formatHours`, `dateStringToEpochBigInt` and the report pages depend on floating point or the `Date` parser. They are not part of this model.
- `ListManager` and the category pages are glue over remote mutations and are not part of this model.
