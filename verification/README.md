# dbfmini, modelled in Dafny

dbfmini is a small Go reader for dBase/FoxPro `.dbf` tables. This project models its core:

- `Open` reads the 32-byte header and the 32-byte field descriptors. It normalises the options, checks the version (strict mode), looks for a memo sibling, validates each field (strict mode) and checks the record length (strict mode).
- `ReadRecords` advances a cursor over fixed-length record buffers. `Reset` rewinds it.
- `parseRecord` handles the deletion marker, walks the contiguous field spans and applies one decoder per type letter (C, N/F, Y, L, D, I, B, T, M, unknown).
- The helpers are `normOptions`, `isValidVersion`, `validateField`, `calcRecordLen`, `rtrimSpaces`, `fieldEncoding`, `decodeBytes` (the encoding-name switch) and `vfpDateTimeToUTC` (the Julian-day conversion).
- The test suite's `julianDay`, its 573-byte fixture table and its four tests are modelled as lemmas about that fixture.

The model is functional:

- a file is an immutable `seq<byte>`;
- the table is a datatype whose cursor field `recordsRead` is threaded through `ReadRecords`;
- every error path is a `Result`/`Parsed`/`FieldOutcome` value.

The modules follow the program's structure:

| module | file | what it holds |
|---|---|---|
| `Results` | Results.dfy | `Option`, `Result`, the error kinds of the source |
| `Bytes` | Bytes.dfy | little-endian integers, `ReadAt`, NUL search, two's-complement views |
| `Text` | Text.dfy | Go's `TrimSpace`/`TrimRight`, `ReplaceAll`, UTF-8 byte length |
| `Options` | Options.dfy | `OpenOptions`, `normOptions`, `fieldEncoding` |
| `Encodings` | Encodings.dfy | the `decodeBytes` name switch; the Latin-1 reference decoder |
| `Calendar` | Calendar.dfy | Go's truncating division; `vfpDateTimeToUTC`; the test's `julianDay` |
| `Schema` | Schema.dfy | header and descriptor layout; `validateField`; `calcRecordLen` |
| `Records` | Records.dfy | `parseRecord` and the per-type decoders |
| `Tables` | Tables.dfy | `Open` and the descriptor loop |
| `Cursor` | Cursor.dfy | `ReadRecords` and `Reset` |
| `Fixture`, `FixtureRows`, `FixtureReads` | Fixture*.dfy | the test suite's byte fixture and its tests |

Where the code and the design text disagree, the model follows the code:

- **Name encoding.** Field names are decoded with `fieldEncoding(opts.Encoding, "")` (dbf.go:149). A per-field override registered under the empty name therefore does apply to descriptor names; it is not always the table default.
- **Name trimming.** Names are trimmed of white space on both sides (`strings.TrimSpace`, dbf.go:156), not only on the right.
- **Division.** Every division in `vfpDateTimeToUTC` is Go's `/`, which truncates toward zero (`Calendar.Quot`). It is not floor division, and the two differ on negative Julian days and negative milliseconds.
- **Name length.** Strict validation measures the name's length in UTF-8 bytes (`len(f.Name)`), not in characters.

Foreign collaborators become parameters, bundled in `Externals`:

- `decode(charset, bytes)` stands for the `golang.org/x/text` character-map decoders.
- `parsesFloat(text)` stands for `strconv.ParseFloat` succeeding.

The fixture lemmas require `decode` to agree with the concrete `Encodings.Latin1Decode` on ISO-8859-1. They also require `parsesFloat` to accept the four numeric literals of the fixture. The file system's answer to `os.Stat` on memo siblings is the `Siblings` parameter of `Open`.

## Model

| member | source | states |
|---|---|---|
| Options.NormOptions | dbf.go:380-390 | an unrecognised read mode becomes strict and an empty default encoding becomes ISO-8859-1; the result is normalised, already-normalised options are returned unchanged, and per-field encodings and includeDeleted are untouched |
| Options.NormOptionsIdempotent | dbf.go:380-390 | normalising twice is the same as normalising once |
| Options.NormOptionsLoose | dbf.go:380-390 | asking for loose mode before normalising equals switching the normalised options to loose mode, since only an unrecognised mode is rewritten |
| Encodings.AliasSelectsCharset | dbf.go:465-475 | each spelling in the decodeBytes switch (CP850, CP437, CP1252/WINDOWS-1252, ISO-8859-1/ISO8859-1/LATIN1, UTF-8/UTF8) selects its own character set |
| Encodings.UnknownNameFallsBack | dbf.go:476-478 | a name matching none of the spellings falls back to ISO-8859-1 |
| Encodings.ResolveIgnoresCaseAndSpace | dbf.go:463 | surrounding white space and lower-case letters do not change which character set a name selects |
| Encodings.CanonicalNameResolves | dbf.go:463-479 | the canonical name of every character set resolves back to that set |
| Encodings.DecodeBytesByName | dbf.go:462-482 | decodeBytes transcodes with the character set whose spelling the trimmed, upper-cased name is, and with ISO-8859-1 (the concrete Latin-1 decoding) for any other name |
| Encodings.Latin1RoundTrip | dbf.go:472-473 | decoding ISO-8859-1 bytes inverts encoding text whose code points are below 256 |
| Bytes.ReadAt | dbf.go:134-135 | a positioned read succeeds exactly when the requested span lies inside the file (or is empty) and then returns exactly that span |
| Bytes.Uint32RoundTrip | dbf.go:92 | reading a little-endian u32 inverts writing it |
| Bytes.PutUint32RoundTrip | dbf.go:92 | writing a little-endian u32 inverts reading four bytes |
| Bytes.Uint16RoundTrip | dbf.go:93-94 | reading a little-endian u16 inverts writing it |
| Bytes.Uint64RoundTrip | dbf.go:301 | reading a little-endian u64 inverts writing it |
| Bytes.Int32RoundTrip | dbf.go:338 | the int32 conversion of the u32 image of a signed value gives the value back |
| Bytes.Int64RoundTrip | dbf.go:302 | the int64 conversion of the u64 image of a signed value gives the value back |
| Text.TrimSpaceInvertsPadding | dbf.go:156 | TrimSpace removes exactly the white space added around a core that neither starts nor ends with white space |
| Text.TrimRightBlanks | dbf.go:451-453 | rtrimSpaces returns a prefix of its input that does not end with a space, and every character it drops is a space |
| Text.TrimRightPadded | dbf.go:451-453 | right-trimming removes exactly the trailing characters the predicate drops, leaving the core |
| Schema.DecodeHeader | dbf.go:86-94 | the decoded header holds a year of 1900 plus a byte, a u32 record count and u16 header and record lengths |
| Schema.HeaderRoundTrip | dbf.go:86-94 | decoding the written header of any representable header gives it back |
| Schema.PrologueRoundTrip | dbf.go:86-94 | the 12 header bytes the source reads, written back, reproduce any 32-byte prologue |
| Schema.DescriptorSlot | dbf.go:143-160 | any 32-byte slot decodes to the trimmed text of its bytes before the first NUL among the first eleven (all eleven without one), decoded with the encoding of the empty field name, and to the type, width and decimals of bytes 11, 16 and 17 |
| Schema.DescriptorRoundTrip | dbf.go:143-160 | a descriptor written from a storable name, type, width and decimal count decodes to exactly that field when names are decoded as ISO-8859-1 |
| Schema.ValidateField | dbf.go:401-441 | validation passes exactly for acceptable fields; the name error is reported exactly when the name is empty or longer than 10 bytes, the type error exactly when the name is fine and the type letter unknown, and otherwise only a width error |
| Schema.TextWidthUnconstrained | dbf.go:411-413 | a text field with a valid name passes at every width, since a byte-sized width never exceeds 255 |
| Schema.CalcRecordLen | dbf.go:443-449 | the record length is one plus the sum of the widths, truncated to 16 bits |
| Schema.SumSizesAppend | dbf.go:445-447 | the width sum distributes over concatenation of field lists |
| Calendar.JdnToDateInvertsJulianDay | dbf.go:486-497 | the Fliegel-Van Flandern conversion JdnToDate inverts the test suite's julianDay on every valid Gregorian date from year -4799 on |
| Calendar.VfpDateTimeRoundTrip | dbf.go:486-505 | every valid date with a non-negative Julian day number converts back to itself at midnight |
| Calendar.VfpDateTimeOfDay | dbf.go:486-505 | vfpDateTimeToUTC of a date's day number and a time within the day gives that date and a valid time of day holding the whole seconds of the milliseconds |
| Calendar.JulianDayInjective | dbf_test.go:308-313 | julianDay gives distinct valid dates from year -4799 on distinct day numbers |
| Calendar.ClockRoundTrip | dbf.go:499-503 | milliseconds written from hours, minutes, seconds and any sub-second part read back as the same hours, minutes and seconds |
| Calendar.ClockIgnoresSubSecond | dbf.go:499 | the sub-second part of the milliseconds does not affect the time of day |
| Calendar.ClockWithinDay | dbf.go:499-503 | milliseconds within one day give a valid time of day |
| Calendar.ClockOf | dbf.go:499-503 | hours, minutes and seconds recombine to the whole seconds, and minutes and seconds stay below 60 for non-negative input |
| Records.DecodeLogical | dbf.go:305-317 | true exactly for a first byte T/t/Y/y, false exactly for F/f/N/n, null otherwise (including an empty span) |
| Records.LogicalRoundTrip | dbf.go:305-317 | the byte T or F decodes to the matching boolean |
| Records.DecodeInt | dbf.go:333-338 | a 4-byte span gives a signed 32-bit value congruent to its little-endian u32; any other width gives null |
| Records.IntRoundTrip | dbf.go:333-338 | every int32 written little-endian decodes to itself |
| Records.DecodeCurrency | dbf.go:296-303 | an 8-byte span gives a signed 64-bit count of ten-thousandths congruent to its u64; any other width gives null |
| Records.CurrencyRoundTrip | dbf.go:296-303 | every int64 count written little-endian decodes to itself |
| Records.DecodeDouble | dbf.go:340-346 | an 8-byte span gives the IEEE-754 bit pattern whose little-endian image is the span; any other width gives null |
| Records.DoubleRoundTrip | dbf.go:340-346 | every 64-bit pattern written little-endian decodes to itself |
| Records.DecodeDateTime | dbf.go:348-355 | an 8-byte span gives the VFP conversion of its signed 32-bit day number and signed 32-bit milliseconds, with a valid time of day when the milliseconds are below one day; any other width gives null |
| Records.DateTimeRoundTrip | dbf.go:348-355 | a date and time written as Julian day and milliseconds, with any sub-second part, decode to that date and whole-second time |
| Records.ParseYmd | dbf.go:322-331 | a parsed YYYYMMDD string is a valid date whose formatting is that string; anything not eight digits is rejected |
| Records.ParseYmdComplete | dbf.go:326-330 | every valid date with a four-digit year formats to a string that parses back to it |
| Records.DigitsValueOfDigits | dbf.go:326 | the value of the zero-padded decimal digits of n is n |
| Records.DigitsOfDigitsValue | dbf.go:326 | reformatting the value of a digit string at its own width gives the string back |
| Records.DecodeDate | dbf.go:319-331 | a date field is null or a midnight timestamp of a valid date whose YYYYMMDD text is the trimmed decoded span |
| Records.FormatYmdAccepted | dbf.go:322 | the text of a valid date is 8 bytes long, contains no space and is not 00000000, so the guard lets it through |
| Records.DateFieldRoundTrip | dbf.go:319-331 | a valid date written as YYYYMMDD, padded with white space, decodes to that date at midnight |
| Records.NormaliseDecimal | dbf.go:282-285 | commas become dots only when the text has a comma and no dot; otherwise the text is unchanged |
| Records.NormaliseDecimalIdempotent | dbf.go:282-285 | normalising the decimal separator twice is the same as once |
| Records.DecodeNumber | dbf.go:276-294 | a number is never omitted; it is a value exactly when the trimmed, normalised text is non-empty and parses; a failure happens only in strict mode and names the normalised text; otherwise null |
| Records.NumberFieldRoundTrip | dbf.go:276-294 | a parseable literal padded with white space decodes to that literal |
| Records.BlankNumberIsNull | dbf.go:277-281 | an all-blank numeric span is null in both modes |
| Records.TextFieldRoundTrip | dbf.go:272-274 | text padded with blanks decodes and right-trims back to the text |
| Records.FieldValue | dbf.go:270-369 | each known type yields a value of its own shape; an unknown type is omitted in loose mode and an UnsupportedFieldType error in strict mode; a memo is an error in strict mode and null in loose mode; failures only happen in strict mode, and an invalid-number failure only on N/F |
| Records.LooseDecoderNeverFails | dbf.go:288-291 | outside strict mode no field decoding fails |
| Records.DecodeFields | dbf.go:260-370 | the field walk succeeds only when the spans fit the buffer (exactly when they fit, for a decoder that never fails); keys only come from field names, and keys not named by any field are untouched |
| Records.DecodeFieldsValues | dbf.go:263-370 | after the walk, the last field of each name holds the value its own span decoded to |
| Records.DecodeFieldsKeys | dbf.go:263-370 | every field whose span decoded to a value has its name as a key |
| Records.DecodeFieldsFailure | dbf.go:264-266 | a failed walk reports the error of one of its fields |
| Records.ParseRecord | dbf.go:251-376 | an empty buffer, or a deleted one not wanted, is skipped; in loose mode a kept buffer decodes exactly when the field spans fit; a kept deleted record carries _deleted = true; the keys are field names plus _deleted |
| Records.ParseRecordRejects | dbf.go:264-266 | a rejected record failed on truncation, or in strict mode on an invalid number, a memo or an unsupported type |
| Records.ParseRecordValues | dbf.go:263-374 | each field that is the last of its name holds, in the decoded record, the value decoded from its own span |
| Records.ParseRecordKeys | dbf.go:263-374 | every field that decoded to a value has its name as a key of the record |
| Records.RecordLayout | dbf.go:261-268 | in a buffer written as a marker followed by the fields' spans, the walk hands each field exactly its own span |
| Records.LooseWrittenRecordDecodes | dbf.go:251-376 | in loose mode a buffer written span by span decodes exactly when it is not deleted or deleted records are wanted |
| Records.WrittenRecordValue | dbf.go:263-374 | a decoded written record holds, under each field's name, the value of that field's own span |
| Records.WrittenRecordEntry | dbf.go:251-376 | in loose mode a kept written record decodes and holds the value its field's span yields |
| Records.BinaryDispatch | dbf.go:296-346 | currency, logical, integer and double fields are decoded by their own decoders in both modes |
| Records.StampDispatch | dbf.go:348-355 | a T field is decoded by the VFP datetime decoder in both modes |
| Records.OverrideDecodesField | dbf.go:455-460 | a field whose name carries a non-empty per-field encoding is transcoded with that encoding, for text, numbers and dates |
| Records.DefaultDecodesField | dbf.go:455-460 | a field without a non-empty per-field encoding is transcoded with the table default |
| Records.OverrideSelectsCharset | dbf.go:462-482 | a text field's override selects the character set it names |
| Records.DateDispatch | dbf.go:319-331 | a D field with no per-field encodings is decoded with the default encoding |
| Tables.MemoOf | dbf.go:101-124 | a .dbt memo is found exactly for dBase memo versions with a .dbt sibling, an .fpt memo exactly for FoxPro versions with an .fpt sibling |
| Tables.ReadDescriptors | dbf.go:126-174 | the descriptor loop extends the accumulated fields; in strict mode every new field is acceptable and the names stay distinct |
| Tables.ReadDescriptorsMeaning | dbf.go:126-174 | the fields read are exactly the consecutive readable, non-terminator slots below the header length, ending at the header length or a terminator |
| Tables.ReadDescriptorsComplete | dbf.go:126-174 | such a slot array, acceptable and distinct in strict mode, is read in full |
| Tables.StrictDescriptorsAreLoose | dbf.go:162-172 | a strict read of the descriptors agrees with a loose one when it succeeds, and succeeds whenever the loose one gives acceptable, distinct fields |
| Tables.Open | dbf.go:69-194 | a file shorter than 32 bytes is a short-header error; a success holds the decoded header, the normalised options, a rewound cursor and the discovered memo, and is strictly valid in strict mode; an unknown version fails strict; loose opens only fail on short reads |
| Tables.OpenReadsDescriptorArray | dbf.go:126-174 | an opened table's fields are the descriptor slots of the file |
| Tables.StrictVersionGate | dbf.go:392-399 | a strict open reports an unsupported version exactly when the version byte is not 0x03, 0x83, 0x8B, 0x30 or 0xF5 |
| Tables.MissingDbtFailsStrict | dbf.go:104-115 | a strict open of a dBase memo version without a .dbt sibling fails with the memo-missing error |
| Tables.FptSiblingOptional | dbf.go:116-124 | an .fpt sibling changes only the memo the table records, never whether or how it opens |
| Tables.StrictOpenAgreesWithLoose | dbf.go:96-180 | a table that opens strictly opens loosely to the same table |
| Tables.OpenWellFormed | dbf.go:69-194 | a file laid out as prologue, decodable slots and terminator opens to the table its header and fields describe, in strict mode when its checks hold |
| Cursor.ReadRecords | dbf.go:199-241 | the read obeys the batch relation; a loose read never fails; the cursor never passes the record count |
| Cursor.ReadBatch | dbf.go:199-241 | the batch loop over any record parser obeys the batch relation |
| Cursor.ReadOutcomeUnique | dbf.go:199-241 | the batch relation determines the table and result of a read |
| Cursor.CompleteBatch | dbf.go:213-240 | when every buffer up to the limit is readable and none fails strictly, the cursor ends at the limit and the result is the decoded records in file order |
| Cursor.ExhaustedReadsNothing | dbf.go:203-205 | an exhausted cursor returns no records and leaves the table unchanged |
| Cursor.Reset | dbf.go:244 | the cursor is rewound and nothing else changes |
| Cursor.RereadAfterReset | dbf.go:244 | reading after a reset, from any cursor, gives the same outcome as reading a freshly opened table |
| Cursor.LaidOutBuffer | dbf.go:213-218 | record k of a file laid out as header then fixed-length buffers is the k-th buffer |
| Fixture.FixtureOpens | dbf_test.go:73-113 | the fixture opens, in any mode and with any siblings, to 3 records dated 2024-01-01 with the ten expected fields |
| Fixture.FieldsAcceptable | dbf_test.go:90-101 | every fixture field passes strict validation |
| FixtureRows.FirstRecord | dbf_test.go:132-163 | the first record decodes to José, 42, 123.45, 12.34 as ten-thousandths, true, 1990-01-01, 123456, the bits of 3.14159, 2023-08-15 23:59:59 and a null memo |
| FixtureRows.SecondRecord | dbf_test.go:165-197 | the second record decodes to an empty name, null numbers, -9876.5432, false, 2021-12-31, -50, the bits of -42.5, 2020-03-10 08:30:15 and a null memo |
| FixtureRows.ThirdRecord | dbf_test.go:226-261 | with deleted records included, the third record decodes to Deleted, 99, 1.23, 0, a null logical, 2000-01-01, 7, the bits of 2.5, 2019-12-31 and _deleted = true |
| FixtureRows.FirstKeys | dbf_test.go:132-163 | the first record has exactly the ten field names as keys |
| FixtureRows.ThirdKeys | dbf_test.go:226-261 | the kept deleted record has the ten field names and _deleted as keys |
| FixtureReads.ReadAllFieldTypes | dbf_test.go:115-207 | a loose open and full read returns the two live records as expected, and a second read returns nothing |
| FixtureReads.ReadIncludingDeleted | dbf_test.go:209-262 | a loose open with deleted records included reads three records, the third being the deleted one |
| FixtureReads.EndOfDayStamp | dbf_test.go:264-306 | a T field holding julianDay(2023-08-15) and 23:59:59.999 decodes to 2023-08-15 23:59:59 |

## Left out

- File system: `os.Open`, `os.Stat` and path splicing are not modelled. A file is its bytes, and the existence of `.dbt`/`.DBT` and `.fpt`/`.FPT` siblings is the `Siblings` parameter. `Open` failing to open the path is not modelled.
- I/O errors other than end of file: `ReadAt` either returns the whole span or reports a short read. `ReadRecords` treats every short read as the end-of-file break; the non-EOF error return of dbf.go:222 is not modelled.
- Character decoding: the CP850, CP437 and CP1252 decoders come from an external library and are the `decode` parameter. Only ISO-8859-1 has a concrete reference (`Encodings.Latin1Decode`). UTF-8 pass-through is also left to the parameter.
- Encodings.UpperChar: models Go's `unicode.ToUpper` only for characters whose upper case can be ASCII (a-z, dotless i, long s). Every other character is left unchanged, which decides every comparison with the ASCII charset names the same way.
- Records.DecodeNumber: `strconv.ParseFloat` is the `parsesFloat` parameter. A parsed number is kept as its normalised text (`Num`), not as a float64.
- Records.DecodeCurrency: returns the signed 64-bit count of ten-thousandths. The float64 division by 10000.0 is floating point and is not modelled.
- Records.DecodeDouble: returns the IEEE-754 bit pattern. `math.Float64frombits` is not modelled.
- Calendar.VfpDateTime: returns the raw year, month, day, hour, minute and second. `time.Date` normalisation is not modelled, so out-of-range parts (negative or over-a-day milliseconds, day 0) are not carried into neighbouring units.
- Schema.DecodeHeader: the last-update date is likewise kept as its raw year, month and day, without `time.Date` normalisation.
- Schema.ValidateField: the `'C'` width check (`f.Size > 255`, dbf.go:411) can never fire because the width is a byte, so it is absent.
- Error messages: errors are datatype constructors carrying the relevant field name, type or text. The formatted message strings are not modelled.
- `Version()` (dbf.go:247): a plain getter; the table datatype exposes `version` directly.
- Memo contents: no memo bytes are read anywhere in the source, so only the memo discovery is modelled.
- FixtureRows.FirstRecord, FixtureRows.SecondRecord, FixtureRows.ThirdRecord: the float comparisons of the tests (123.45, 12.34, 3.14159, ...) are stated on the exact forms the model keeps: literal text, ten-thousandths and bit patterns. That `parsesFloat` accepts "42", "123.45", "99" and "1.23" is a hypothesis (`FixtureExternals`), not a proof.
