# NMEA 0183 sentence validation, checksum and the VTG sentence

A Dafny model of the core of the marine-api Java library (package
`net.sf.marineapi.nmea`):

- **SentenceValidator** (`isSentence`, `isValid`) decides whether a line of
  text is an NMEA 0183 sentence and whether it is a valid one. A sentence is
  laid out as `<begin char><address>,<fields>[*<checksum>]`, with the
  parts below (the choices among them are listed after this overview):
  - the begin char is `$` or `!`;
  - the address is 3 to 10 upper-case letters or digits;
  - the fields are comma-separated runs of printable characters other than
    `,`, `*`, `$` and `!`, and any of them may be empty;
  - the optional checksum is two upper-case hex digits.

  A sentence is valid when any checksum it carries equals the checksum of
  its body. A Java `null` is modelled as `None`.
- **Checksum** (`calculate`, `add`): the checksum is the XOR of the
  characters between the begin char and the first `*`, written as two
  upper-case hex digits. `add` appends `*` and the checksum to a line
  without `*`. On a line that already has a `*`, the model chooses to
  replace everything from the first `*` on with `*` and the correct
  checksum, so that `add` is idempotent.
- **VTGSentence**: course over ground (true and magnetic), speed over ground
  (knots and km/h) and the receiver's operating mode. It has:
  - the constants `KMPH`, `KNOT`, `MODE_MANUAL` and `MODE_AUTOMATIC`;
  - five getters, which distinguish a field that carries no data
    (`DataNotAvailable`) from one whose text cannot be read (`ParseError`);
  - five setters. `setTrueCourse` refuses a course outside 0..360 degrees
    with `IllegalArgument`.

  A sentence is a class over its list of data fields, and every setter
  rewrites that list in place.

The validator and the checksum are modelled from the behaviour their unit
test (`SentenceValidatorTest.java`) fixes and from the NMEA 0183 sentence
layout. Every test vector of that test, except those at lines 102-112, is a
lemma here. Where the tests leave a choice open, the model makes these:

- The address is 3 to 10 upper-case letters and digits, whether or not it
  starts with `P`. The tests accept the 4-character `PUBX` and the
  8-character `PRWIILOG`, and reject the 2-character `AB` and the
  11-character `ABCDEFGHIJK`.
- The address must be followed by a comma, so `$ABCDE` with no comma is not
  a sentence. Every line the tests accept has that comma, and no test
  decides `$ABCDE`.
- `isSentence` checks the whole layout above: begin char, address, comma,
  the field alphabet and, when a `*` is present, the shape of the checksum
  field. Only the checksum's value separates `isValid` from `isSentence`.
  So `$ABCDE,1*0` (one hex digit) and `$ABCDE,a$b` (a `$` in a field) are
  not sentences.
- The field alphabet (printable characters other than `,`, `*`, `$` and
  `!`) is chosen, not fixed by the tests: the fields of the lines they
  accept hold only letters, digits and `. - ? # { }`, and no test rejects a
  line for a field character.
- Checksum digits must be upper-case hex. No test has a line with
  lower-case checksum digits.
- The course bound of `setTrueCourse` includes 360, since
  `VTGSentence.java:127` gives the bounds as 0..360 degrees.

Modules:

| file | module | what |
|---|---|---|
| common.dfy | Common | Option, Result, errors, delimiters, first-occurrence search |
| bytes.dfy | Bytes | byte/integer conversions |
| checksum.dfy | Checksum | XOR checksum, hex encoding, `calculate`, `add` |
| validator.dfy | SentenceValidator | `isSentence`, `isValid` and the lemmas that characterise them |
| validator_vectors.dfy | SentenceValidatorTest | every vector of `SentenceValidatorTest.java` as a lemma |
| decimal.dfy | Decimal | the decimal text a course or speed field holds: parsing, formatting, rounding |
| fields.dfy | Fields | the data fields as a list: split/join, typed reads, writes by index |
| vtg.dfy | Vtg | the VTG sentence class, its getters and setters |
| vtg_example.dfy | VtgExample | the example sentence in the interface documentation |

The long test lines in the lemmas are written as concatenations of shorter
literals, which Dafny joins into the same string.

## Model

| member | source | states |
|---|---|---|
| Checksum.XorAppend | src/test/java/net/sf/marineapi/nmea/parser/SentenceValidatorTest.java:43-46 | the checksum of a concatenation is the XOR of the parts' checksums |
| Checksum.HexRoundTrip | src/test/java/net/sf/marineapi/nmea/parser/SentenceValidatorTest.java:76 | reading the two hex digits written for a byte gives back that byte |
| Checksum.HexPairRoundTrip | src/test/java/net/sf/marineapi/nmea/parser/SentenceValidatorTest.java:76 | writing the byte read from two hex digits gives back those digits |
| Checksum.ToHexInjective | src/test/java/net/sf/marineapi/nmea/parser/SentenceValidatorTest.java:76 | distinct checksums are written as distinct hex pairs |
| Checksum.FromHex | src/test/java/net/sf/marineapi/nmea/parser/SentenceValidatorTest.java:76 | a checksum field is read exactly when it is two upper-case hex digits |
| Checksum.Xor | src/test/java/net/sf/marineapi/nmea/parser/SentenceValidatorTest.java:46 | the checksum byte of an empty body is 0, and of a one-character body that character's code |
| Checksum.ToHex | src/test/java/net/sf/marineapi/nmea/parser/SentenceValidatorTest.java:46 | a byte is written as two upper-case hex digits whose values give back the byte |
| Checksum.Calculate | src/test/java/net/sf/marineapi/nmea/parser/SentenceValidatorTest.java:46 | the checksum is always two upper-case hex digits |
| Checksum.ChecksumField | src/test/java/net/sf/marineapi/nmea/parser/SentenceValidatorTest.java:76 | the checksum field is what follows the first `*`, and the line is what precedes it, `*`, then the field |
| Checksum.Body | src/test/java/net/sf/marineapi/nmea/parser/SentenceValidatorTest.java:63-65 | the checksummed body holds no `*`, and is the text between the begin char (`$` or `!`) and the first `*` |
| Checksum.Add | src/test/java/net/sf/marineapi/nmea/parser/SentenceValidatorTest.java:44-46 | on a line without `*`, Checksum.add appends `*` and the checksum; on any line the result ends in `*` and the line's checksum |
| Checksum.AddCarriesChecksum | src/test/java/net/sf/marineapi/nmea/parser/SentenceValidatorTest.java:44-46 | after Checksum.add the body is unchanged and the checksum field holds its checksum |
| Checksum.AddSelfChecked | src/test/java/net/sf/marineapi/nmea/parser/SentenceValidatorTest.java:44-46 | Checksum.add keeps the first character of a line and yields a line carrying its own checksum |
| Checksum.AddIdempotent | src/test/java/net/sf/marineapi/nmea/parser/SentenceValidatorTest.java:46 | adding a checksum twice is the same as adding it once |
| SentenceValidator.IsSentenceText | src/test/java/net/sf/marineapi/nmea/parser/SentenceValidatorTest.java:85-91 | a sentence starts with `$` or `!` and carries an address of 3 to 10 upper-case letters or digits |
| SentenceValidator.IsValidText | src/test/java/net/sf/marineapi/nmea/parser/SentenceValidatorTest.java:75-76 | a valid line is a sentence, and a checksum field it carries reads as the XOR of its body |
| SentenceValidator.IsSentence | src/test/java/net/sf/marineapi/nmea/parser/SentenceValidatorTest.java:118 | null is not a sentence, and a sentence starts with `$` or `!` |
| SentenceValidator.IsValid | src/test/java/net/sf/marineapi/nmea/parser/SentenceValidatorTest.java:76-78 | null is not valid, every valid line is a sentence, and a checksum field of a valid line reads as the XOR of its body |
| SentenceValidator.Anatomy | src/test/java/net/sf/marineapi/nmea/parser/SentenceValidatorTest.java:44 | a line begin char, address, `,`, fields, optional `*`-suffix has that body and that address, and its body is well formed exactly when address and fields are |
| SentenceValidator.ValidWithoutChecksum | src/test/java/net/sf/marineapi/nmea/parser/SentenceValidatorTest.java:43-65 | a line without checksum is a sentence, and valid, exactly when begin char, address and fields are well formed |
| SentenceValidator.ValidWithChecksum | src/test/java/net/sf/marineapi/nmea/parser/SentenceValidatorTest.java:76 | a line with a checksum field is a sentence exactly when its parts are well formed and the field is two hex digits, and valid exactly when the field is the checksum of address and fields |
| SentenceValidator.AddValidIff | src/test/java/net/sf/marineapi/nmea/parser/SentenceValidatorTest.java:46 | Checksum.add yields a valid line exactly when the line given is well framed, whatever checksum it had |
| SentenceValidator.AddPreservesValid | src/test/java/net/sf/marineapi/nmea/parser/SentenceValidatorTest.java:45-46 | a valid line stays valid through Checksum.add |
| SentenceValidator.WrongChecksumRejected | src/test/java/net/sf/marineapi/nmea/parser/SentenceValidatorTest.java:92 | replacing a correct checksum by other hex digits keeps a sentence but makes it invalid |
| SentenceValidatorTest.NormalFieldsChecksum | src/test/java/net/sf/marineapi/nmea/parser/SentenceValidatorTest.java:44 | the XOR of `,1,2,3,4,5,6,7,8,9` is 0x1D |
| SentenceValidatorTest.ValidNormal | src/test/java/net/sf/marineapi/nmea/parser/SentenceValidatorTest.java:43-46 | `$ABCDE,1,2,3,4,5,6,7,8,9` is valid, with and without an added checksum |
| SentenceValidatorTest.ValidSingleEmptyField | src/test/java/net/sf/marineapi/nmea/parser/SentenceValidatorTest.java:48-51 | `$ABCDE,` is valid, with and without an added checksum |
| SentenceValidatorTest.ValidEmptyFields | src/test/java/net/sf/marineapi/nmea/parser/SentenceValidatorTest.java:53-56 | `$ABCDE,,,,,,` is valid, with and without an added checksum |
| SentenceValidatorTest.ValidMixedFields | src/test/java/net/sf/marineapi/nmea/parser/SentenceValidatorTest.java:58-60 | the mixed-case, punctuated field line is valid, with and without an added checksum |
| SentenceValidatorTest.ValidAlternativeBeginChar | src/test/java/net/sf/marineapi/nmea/parser/SentenceValidatorTest.java:62-65 | the `!` begin char is accepted, with and without an added checksum |
| SentenceValidatorTest.MismatchInvalid | src/test/java/net/sf/marineapi/nmea/parser/SentenceValidatorTest.java:76 | a checksum field other than the body's checksum makes a line invalid, while it stays a sentence when well formed |
| SentenceValidatorTest.ZeroChecksumMismatch | src/test/java/net/sf/marineapi/nmea/parser/SentenceValidatorTest.java:76 | the checksums 0x5C and 0x4B are not written `00` |
| SentenceValidatorTest.NormalWrongChecksumInvalid | src/test/java/net/sf/marineapi/nmea/parser/SentenceValidatorTest.java:75-76 | `$ABCDE,1,2,3,4,5,6,7,8,9*00` is invalid (its checksum is 0x5C) |
| SentenceValidatorTest.NoSentenceInvalid | src/test/java/net/sf/marineapi/nmea/parser/SentenceValidatorTest.java:77-86 | null, the empty line, `*`, `foobar` and a line without begin char are invalid |
| SentenceValidatorTest.NoBeginCharInvalid | src/test/java/net/sf/marineapi/nmea/parser/SentenceValidatorTest.java:84-86 | a line that does not start with `$` or `!` is neither a sentence nor valid |
| SentenceValidatorTest.NoAddressInvalid | src/test/java/net/sf/marineapi/nmea/parser/SentenceValidatorTest.java:80-83 | `$`, `$,*` and `$GPGSV*` are invalid |
| SentenceValidatorTest.BeginCharOnly | src/test/java/net/sf/marineapi/nmea/parser/SentenceValidatorTest.java:80 | a bare begin char is invalid |
| SentenceValidatorTest.EmptyAddress | src/test/java/net/sf/marineapi/nmea/parser/SentenceValidatorTest.java:82 | an empty address with an empty checksum is invalid |
| SentenceValidatorTest.AddressOnly | src/test/java/net/sf/marineapi/nmea/parser/SentenceValidatorTest.java:83 | an address followed by `*` and no comma is invalid |
| SentenceValidatorTest.BadAddressCharInvalid | src/test/java/net/sf/marineapi/nmea/parser/SentenceValidatorTest.java:85-89 | an address with any character other than an upper-case letter or digit makes the line neither a sentence nor valid |
| SentenceValidatorTest.LowerCaseAddressInvalid | src/test/java/net/sf/marineapi/nmea/parser/SentenceValidatorTest.java:85 | `$gpgga,1,2,3,4,5,6,7,8,9` is invalid |
| SentenceValidatorTest.InnerLowerCaseAddressInvalid | src/test/java/net/sf/marineapi/nmea/parser/SentenceValidatorTest.java:87 | `$GpGGA,1,2,3,4,5,6,7,8,9` is invalid |
| SentenceValidatorTest.LastLowerCaseAddressInvalid | src/test/java/net/sf/marineapi/nmea/parser/SentenceValidatorTest.java:88 | `$GPGGa,1,2,3,4,5,6,7,8,9` is invalid |
| SentenceValidatorTest.HashAddressInvalid | src/test/java/net/sf/marineapi/nmea/parser/SentenceValidatorTest.java:89 | `$GPGG#,1,2,3,4,5,6,7,8,9` is invalid |
| SentenceValidatorTest.AddressLengthInvalid | src/test/java/net/sf/marineapi/nmea/parser/SentenceValidatorTest.java:90-91 | an address shorter than 3 or longer than 10 characters makes the line neither a sentence nor valid |
| SentenceValidatorTest.AddressTooShortInvalid | src/test/java/net/sf/marineapi/nmea/parser/SentenceValidatorTest.java:90 | `$AB,1,2,3,4,5,6,7,8,9` is invalid |
| SentenceValidatorTest.AddressTooLongInvalid | src/test/java/net/sf/marineapi/nmea/parser/SentenceValidatorTest.java:91 | `$ABCDEFGHIJK,1,2,3,4,5,6,7,8,9` is invalid |
| SentenceValidatorTest.GgaWrongChecksumInvalid | src/test/java/net/sf/marineapi/nmea/parser/SentenceValidatorTest.java:92 | `$GPGGA,1,2,3,4,5,6,7,8,9*00` is invalid (its checksum is 0x4B) |
| SentenceValidatorTest.LongProprietaryId | src/test/java/net/sf/marineapi/nmea/parser/SentenceValidatorTest.java:115-120 | `$PRWIILOG,GGA,A,T,1,0` is a sentence and valid |
| SentenceValidatorTest.ShortProprietaryId | src/test/java/net/sf/marineapi/nmea/parser/SentenceValidatorTest.java:122-127 | `$PUBX,03,GT{,ID,s,AZM,EL,SN,LK},` is a sentence and valid |
| Decimal.Digits | src/net/sf/marineapi/nmea/sentence/VTGSentence.java:94-120 | the digits written for a number have no leading zero and read back as that number |
| Decimal.ParseDecimal | src/net/sf/marineapi/nmea/sentence/VTGSentence.java:48-55 | only non-empty text without `,` or `*` reads as a number, so an empty field never does |
| Decimal.FormatFixed | src/net/sf/marineapi/nmea/sentence/VTGSentence.java:94-120 | a value is written as non-empty text of digits, `.` and `-` only, so as field text with no `,` or `*` |
| Decimal.FormatParseRoundTrip | src/net/sf/marineapi/nmea/sentence/VTGSentence.java:94-120 | a value written with d decimals reads back exactly |
| Decimal.UnitsRoundTrip | src/net/sf/marineapi/nmea/sentence/VTGSentence.java:94-120 | the digits and point written for a magnitude read back as the same units and decimal place |
| Decimal.Scaled | src/net/sf/marineapi/nmea/sentence/VTGSentence.java:94-120 | rounding half toward +infinity to d decimals lands within half a unit of the d-th place |
| Decimal.Rounded | src/net/sf/marineapi/nmea/sentence/VTGSentence.java:94-120 | the rounded value is within half a unit of the last decimal of the value given |
| Decimal.RoundedExact | src/net/sf/marineapi/nmea/sentence/VTGSentence.java:94-120 | a value that already has at most d decimals is not changed by rounding |
| Fields.Split | src/net/sf/marineapi/nmea/sentence/VTGSentence.java:31-32 | the data region splits into at least one field, none holding a comma |
| Fields.JoinSplit | src/net/sf/marineapi/nmea/sentence/VTGSentence.java:31-32 | splitting then joining the fields gives back the data region |
| Fields.SplitJoin | src/net/sf/marineapi/nmea/sentence/VTGSentence.java:31-32 | joining then splitting comma-free fields gives them back |
| Fields.Join | src/net/sf/marineapi/nmea/sentence/VTGSentence.java:31-32 | fields of field text join into a data region the validator accepts, with no `*` in it |
| Fields.SetField | src/net/sf/marineapi/nmea/sentence/VTGSentence.java:94-129 | writing field i stores the text there, keeps every other field and pads missing fields before it with empty ones |
| Fields.SetFieldText | src/net/sf/marineapi/nmea/sentence/VTGSentence.java:94-129 | writing field text keeps every field field text |
| Fields.GetReal | src/net/sf/marineapi/nmea/sentence/VTGSentence.java:48-55 | DataNotAvailable exactly when the field is missing or empty, ParseError exactly when its text is not a number, else the number |
| Fields.GetChar | src/net/sf/marineapi/nmea/sentence/VTGSentence.java:57-65 | DataNotAvailable exactly when the field is missing or empty, ParseError exactly when it holds more than one character, else that character |
| Fields.Render | src/net/sf/marineapi/nmea/sentence/VTGSentence.java:94-120 | a value is written as non-empty field text |
| Fields.WriteThenRead | src/net/sf/marineapi/nmea/sentence/VTGSentence.java:94-120 | a decimal field read after a write yields the value written, rounded to two decimals |
| Fields.WriteLeavesOthers | src/net/sf/marineapi/nmea/sentence/VTGSentence.java:94-129 | writing one field changes no read of any other field |
| Fields.WriteThenReadChar | src/net/sf/marineapi/nmea/sentence/VTGSentence.java:101-106 | a one-character field reads back as that character |
| Vtg.ModeChar | src/net/sf/marineapi/nmea/sentence/VTGSentence.java:43-46 | a mode is written as `A` (MODE_AUTOMATIC) or `M` (MODE_MANUAL) |
| Vtg.ModeOf | src/net/sf/marineapi/nmea/sentence/VTGSentence.java:43-46 | a character stands for a mode exactly when it is `A` or `M` |
| Vtg.ModeRoundTrip | src/net/sf/marineapi/nmea/sentence/VTGSentence.java:43-46 | modes and mode characters correspond one to one |
| Vtg.IndicatorsAreFieldText | src/net/sf/marineapi/nmea/sentence/VTGSentence.java:39-46 | `K` and `N` are distinct units indicators, `M` and `A` distinct modes, all writable into a field |
| Vtg.GetRealIsDecimalRead | src/net/sf/marineapi/nmea/sentence/VTGSentence.java:48-92 | the decimal read is the one and only result keeping the getters' promise: value, DataNotAvailable or ParseError |
| Vtg.ReadMode | src/net/sf/marineapi/nmea/sentence/VTGSentence.java:57-65 | the mode is null (Ok(None)) when the sentence has no mode field, DataNotAvailable when it is empty, ParseError unless it is `A` or `M` |
| Vtg.ModeReadUnique | src/net/sf/marineapi/nmea/sentence/VTGSentence.java:57-65 | ReadMode is the only result that keeps the mode getter's promise |
| Vtg.VtgSentence.constructor | src/net/sf/marineapi/nmea/sentence/VTGSentence.java:26-32 | an empty sentence has the nine VTG fields, empty but for the indicators `T`, `M`, `N`, `K` |
| Vtg.VtgSentence.FromData | src/net/sf/marineapi/nmea/sentence/VTGSentence.java:26-32 | a sentence read from a data region holds its fields, which join back to the region |
| Vtg.VtgSentence.MagneticCourse | src/net/sf/marineapi/nmea/sentence/VTGSentence.java:48-55 | the magnetic course field as a number, or DataNotAvailable / ParseError |
| Vtg.VtgSentence.Mode | src/net/sf/marineapi/nmea/sentence/VTGSentence.java:57-65 | the mode, null when the sentence has no mode field, or DataNotAvailable / ParseError |
| Vtg.VtgSentence.SpeedKmh | src/net/sf/marineapi/nmea/sentence/VTGSentence.java:67-74 | the km/h speed field as a number, or DataNotAvailable / ParseError |
| Vtg.VtgSentence.SpeedKnots | src/net/sf/marineapi/nmea/sentence/VTGSentence.java:76-83 | the knots speed field as a number, or DataNotAvailable / ParseError |
| Vtg.VtgSentence.TrueCourse | src/net/sf/marineapi/nmea/sentence/VTGSentence.java:85-92 | the true course field as a number, or DataNotAvailable / ParseError |
| Vtg.VtgSentence.SetMagneticCourse | src/net/sf/marineapi/nmea/sentence/VTGSentence.java:94-99 | the magnetic course then reads as the value rounded; every other read is unchanged |
| Vtg.VtgSentence.SetMode | src/net/sf/marineapi/nmea/sentence/VTGSentence.java:101-106 | the mode then reads as the mode set, the field added when missing; every other read is unchanged |
| Vtg.VtgSentence.SetSpeedKmh | src/net/sf/marineapi/nmea/sentence/VTGSentence.java:108-113 | the km/h speed then reads as the value rounded; every other read is unchanged |
| Vtg.VtgSentence.SetSpeedKnots | src/net/sf/marineapi/nmea/sentence/VTGSentence.java:115-120 | the knots speed then reads as the value rounded; every other read is unchanged |
| Vtg.VtgSentence.SetTrueCourse | src/net/sf/marineapi/nmea/sentence/VTGSentence.java:122-129 | a course outside 0..360 fails with IllegalArgument and changes nothing; otherwise the true course reads as the value rounded and every other read is unchanged |
| Vtg.WriteValue | src/net/sf/marineapi/nmea/sentence/VTGSentence.java:94-129 | writing a course or speed makes that field read as the value rounded and leaves the other getters' results as they were |
| Vtg.WriteKeepsMode | src/net/sf/marineapi/nmea/sentence/VTGSentence.java:57-65 | writing any field before the mode leaves the mode read unchanged |
| Vtg.SplitIsFieldText | src/net/sf/marineapi/nmea/sentence/VTGSentence.java:31-32 | the fields of a validated data region are field text |
| Vtg.VtgSentence.ToSentence | src/net/sf/marineapi/nmea/sentence/VTGSentence.java:26-32 | a VTG sentence written with a two-letter talker id is a valid line that starts with `$`, carries `*` and its own checksum, has the address, `,` and the joined fields as body, and whose data region splits back into its fields |
| Vtg.WrittenLine | src/net/sf/marineapi/nmea/sentence/VTGSentence.java:26-32 | the line written for a talker id and fields of field text is valid, starts with `$`, carries its own checksum, and its body and fields are as written |
| Vtg.TalkerAddress | src/net/sf/marineapi/nmea/sentence/VTGSentence.java:32 | talker id and `VTG` form a well-formed address |
| VtgExample.BodyChecksum | src/net/sf/marineapi/nmea/sentence/VTGSentence.java:32 | the checksum of `GPVTG,46.96,T,,,16.89,N,31.28,K,A` is 0x43 |
| VtgExample.ChecksumText | src/net/sf/marineapi/nmea/sentence/VTGSentence.java:32 | 0x43 is written `43` |
| VtgExample.ExampleValid | src/net/sf/marineapi/nmea/sentence/VTGSentence.java:31-32 | the documented example `$GPVTG,46.96,T,,,16.89,N,31.28,K,A*43` is a sentence and valid |
| VtgExample.ExampleFields | src/net/sf/marineapi/nmea/sentence/VTGSentence.java:31-32 | the example's data region splits into its nine fields |
| VtgExample.ExampleReads | src/net/sf/marineapi/nmea/sentence/VTGSentence.java:26-32 | on the example, the magnetic course is DataNotAvailable, the true course 46.96, the speeds 16.89 knots and 31.28 km/h, the mode automatic |

## Left out

- The line terminator, reading lines from a device, the sentence parser
  that builds a sentence object from a line, and the registry of sentence
  types: they are outside this core.
- The test vectors at `SentenceValidatorTest.java:102-112`: they refer to
  example sentences of other sentence types whose test classes are not
  part of this model.
- Vtg.VtgSentence.constructor: the empty sentence is a modelling choice. It
  carries the indicators `T`, `M`, `N`, `K` in fields 1, 3, 5 and 7 and
  leaves the other fields empty, following the field layout of the example
  at `VTGSentence.java:32`. Each setter writes only its value field. The
  class implementing `VTGSentence` is not part of this model.
- Vtg.VtgSentence.SetTrueCourse: values are written with two decimals,
  rounded half toward +infinity (-0.125 is written `-0.12`, where Java's
  HALF_UP would give `-0.13`), as in the documented example. The parser's own number
  format is not part of this model.
- Vtg.VtgSentence.TrueCourse: courses and speeds are exact reals. Java
  `double` rounding, NaN and the infinities are not modelled, and neither
  are exponents in field text. Java's number reading also trims surrounding
  spaces and accepts a `d` or `f` suffix (`5d`, `5f`); here a field such as
  ` 5` or `5d` does not read as a number and its getter gives ParseError.
- Vtg.VtgSentence.ToSentence: the talker id is taken to be two upper-case
  letters. The talker id list of the library is not part of this model.
- Vtg.ReadMode: `GpsMode` has only the two modes the interface names
  (`A`, `M`). Any other mode letter reads as ParseError.
- Vtg.VtgSentence.SetSpeedKnots: any speed, negative ones included, is
  accepted, since the interface declares no bound.
