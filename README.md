# GNX sentence decoder, modelled in Dafny

This project models the GNX protocol decoder of the Traccar GPS tracking server
(`GnxProtocolDecoder.decode`). A GNX device sends one ASCII sentence per report,
such as `$GNX_MIF,<imei>,<length>,<history>,HHMMSS,DDMMYY,HHMMSS,DDMMYY,<valid>,dd.d+,N|S,ddd.d+,E|W,<card>,<rfid>,...`
or the same location fields after `$GNX_<any three characters>,`.
Latitude needs exactly two whole digits and longitude exactly three, so a latitude such as
`1234.5678` or a longitude such as `08912.3456` is rejected (`GnxProperties.LatitudeTooWide`
proves this for the latitude).

The decoder reads a sentence in four steps:

1. It reads the subtype at offsets 5..7. `MIF` selects the tagged grammar; any other subtype selects the generic one. A sentence shorter than 8 characters makes `substring(5, 8)` throw.
2. The whole sentence must match the selected grammar, or the result is `null`.
3. The first capture group, the device identifier, must resolve to a known device, or the result is `null`.
4. A cursor walks the remaining groups in order and fills in the position record:
   - the archive flag (history `1`);
   - the device time and the fix time, each in GMT+5:30;
   - validity;
   - latitude and longitude, each with its hemisphere;
   - for `MIF` only, the RFID.

The model has six modules.

- `Text` covers character classes, greedy runs and the value of digit strings.
- `Grammar` defines the pattern language, a list of slots, each an atom that may be a capture group. `Match` is a greedy full matcher. For well-formed patterns it is proved sound (`Match`'s postcondition) and complete (`MatchAccepted`). Together these two mean it succeeds exactly when a split of the sentence into accepted slot texts exists. `MatchRejects` and `PrefixRejects` give sufficient conditions for rejection.
- `GnxPatterns` holds the three grammar constants `PATTERN_LOCATION`, `PATTERN_MIF` and `PATTERN_OTHER`, as slot lists. It proves them well formed and gives their capture-group atoms.
- `GnxDecoder` holds the decoder in two forms. `DecodeSpec` states the outcome of `decode` as a function of the sentence. `Decode` is the step-by-step walk with a `Parser` cursor class and a `DateBuilder` class, and is proved equal to `DecodeSpec`.
- `GnxSentence` holds the message view. A `Message` is the field values a sentence carries, `Render` spells a message as a sentence, and `Parse` reads a matched sentence back as a message. The round trips go both ways:
  - `DecodeRendered`: the text of a grammatical message decodes to the record its fields describe.
  - `ParseRenders` / `ParseRender`: every matched sentence is such a text, and parsing gives the message back.
- `GnxProperties` states what `decode` promises about any sentence:
  - when it emits a record, and when it rejects;
  - how each field of the record follows from the text;
  - examples of malformed sentences that are rejected.

## Model

| member | source | states |
|---|---|---|
| Grammar.Match | src/org/traccar/protocol/GnxProtocolDecoder.java:83-86 | A successful full match yields one text per slot; together they spell the sentence, and each is accepted by its slot's atom. |
| Grammar.MatchAccepted | src/org/traccar/protocol/GnxProtocolDecoder.java:83-86 | For a well-formed pattern, any split of a sentence into slot texts the atoms accept is exactly what `Match` returns, so the greedy reading misses no match and the split is unique. |
| Grammar.MatchRejects | src/org/traccar/protocol/GnxProtocolDecoder.java:84-85 | When a slot cannot start the text that follows the earlier slots, the whole sentence does not match. |
| Grammar.PrefixRejects | src/org/traccar/protocol/GnxProtocolDecoder.java:84-85 | The same rejection, stated for a sentence that fits a pattern's header and first k location slots and then breaks slot k. |
| Grammar.GroupsAccepted | src/org/traccar/protocol/GnxProtocolDecoder.java:83-86 | Each capture-group text of a match is accepted by that group's atom. |
| Text.DecimalPoint | src/org/traccar/protocol/GnxProtocolDecoder.java:114-115 | A `dd.d+` or `ddd.d+` field is a number with one decimal point, found right after the whole digits. |
| Text.NumeralAppend | src/org/traccar/protocol/GnxProtocolDecoder.java:114-115 | The value of the digits of `a + b` is a's value shifted left by \|b\| places plus b's value; this is how a coordinate's whole and fraction digits combine. |
| GnxPatterns.PatternLocation | src/org/traccar/protocol/GnxProtocolDecoder.java:36-49 | PATTERN_LOCATION as 32 slots, one per atom of its builder calls, in order, with the captured ones marked as groups. |
| GnxPatterns.PatternMif | src/org/traccar/protocol/GnxProtocolDecoder.java:51-57 | PATTERN_MIF: the `$GNX_MIF,` literal, PATTERN_LOCATION, the card flag `[01],`, the RFID group `([^,]+),` and `.*`. |
| GnxPatterns.PatternOther | src/org/traccar/protocol/GnxProtocolDecoder.java:59-64 | PATTERN_OTHER: the `$GNX_` literal, any three characters and a comma, PATTERN_LOCATION, and `.*`. |
| GnxPatterns.PatternsWellFormed | src/org/traccar/protocol/GnxProtocolDecoder.java:36-64 | In all three grammars, every greedy atom is followed by a comma literal, and `.*` comes last. |
| GnxPatterns.LocationGroups | src/org/traccar/protocol/GnxProtocolDecoder.java:36-49 | PATTERN_LOCATION captures 19 groups, in this order: identifier `d+`, history `[01]`, twelve `dd`, validity `d`, `dd.d+`, `[NS]`, `ddd.d+`, `[EW]`. The length field is not captured. |
| GnxPatterns.MifGroups | src/org/traccar/protocol/GnxProtocolDecoder.java:51-57 | PATTERN_MIF captures the 19 location groups and then the RFID `[^,]+` as group 20. The card flag is matched but not captured. |
| GnxPatterns.OtherGroups | src/org/traccar/protocol/GnxProtocolDecoder.java:59-64 | PATTERN_OTHER captures exactly the 19 location groups; the subtype `...` is not captured. |
| GnxDecoder.Classify | src/org/traccar/protocol/GnxProtocolDecoder.java:71-81 | The MIF grammar is chosen exactly when offsets 5..7 hold `MIF`. |
| GnxDecoder.PatternOf | src/org/traccar/protocol/GnxProtocolDecoder.java:73-81 | The grammar chosen for either kind is well formed. |
| GnxDecoder.MatchedShape | src/org/traccar/protocol/GnxProtocolDecoder.java:83-86 | The capture groups of any matched sentence have the shapes the walk relies on: 20 groups for MIF and 19 otherwise, the flags 0/1, two-digit clock parts, decimals and hemisphere letters. |
| GnxDecoder.CalendarYear | src/org/traccar/protocol/GnxProtocolDecoder.java:104 | A two-digit year yy is read as 2000 + yy. |
| GnxDecoder.DateBuilder.constructor | src/org/traccar/protocol/GnxProtocolDecoder.java:102 | A new builder has the given zone and a cleared calendar. |
| GnxDecoder.DateBuilder.SetTime | src/org/traccar/protocol/GnxProtocolDecoder.java:103 | Sets hour, minute and second, and leaves the date unchanged. |
| GnxDecoder.DateBuilder.SetDateReverse | src/org/traccar/protocol/GnxProtocolDecoder.java:104 | Takes the date day first, and leaves the time unchanged. |
| GnxDecoder.ClockOf | src/org/traccar/protocol/GnxProtocolDecoder.java:100-110 | A timestamp reads the time from the first three groups and the date day first from the next three. Its zone is GMT+5:30, and a two-digit year lands in 2000..2099. |
| GnxDecoder.WithHemisphere | src/org/traccar/protocol/GnxProtocolDecoder.java:114-115 | The hemisphere keeps the scale and at most flips the sign. The result is never positive for S or W, and N or E leaves the value as it is. |
| GnxDecoder.Assemble | src/org/traccar/protocol/GnxProtocolDecoder.java:94-123 | The record built from the groups has: the resolved device; archive true only for history `1`; validity true unless the digit is `0`; both clocks in GMT+5:30 with their hours from groups 3 and 9; latitude and longitude non-positive for S and W; and the RFID group only for MIF. |
| GnxDecoder.ParseDecimal | src/org/traccar/protocol/GnxProtocolDecoder.java:114-115 | The value of `w.f` is exactly w·10^\|f\| + f over 10^\|f\|. |
| GnxDecoder.SentenceGroups | src/org/traccar/protocol/GnxProtocolDecoder.java:83-86 | The groups of a matched sentence have the shape `MatchedShape` gives. |
| GnxDecoder.DecodeSpec | src/org/traccar/protocol/GnxProtocolDecoder.java:66-126 | The exception outcome happens exactly when the sentence is shorter than 8 characters. |
| GnxDecoder.Parser.constructor | src/org/traccar/protocol/GnxProtocolDecoder.java:83 | A new parser holds the pattern and the sentence, with no groups yet. |
| GnxDecoder.Parser.Matches | src/org/traccar/protocol/GnxProtocolDecoder.java:84 | True exactly when the whole sentence matches. The cursor then stands before group 1 of that match's groups. |
| GnxDecoder.Parser.Next | src/org/traccar/protocol/GnxProtocolDecoder.java:91 | Returns the current group's text and advances the cursor by one. |
| GnxDecoder.Parser.NextInt | src/org/traccar/protocol/GnxProtocolDecoder.java:96 | Returns the current group's decimal value and advances the cursor by one. |
| GnxDecoder.Parser.NextCoordinate | src/org/traccar/protocol/GnxProtocolDecoder.java:114-115 | Reads degrees and then the hemisphere, with S and W negative, and advances the cursor by two. |
| GnxDecoder.ReadClock | src/org/traccar/protocol/GnxProtocolDecoder.java:100-110 | A fresh GMT+5:30 builder is set from the next six groups, time then date day first. It yields ClockOf of those groups, and the cursor moves by six. |
| GnxDecoder.ReadPosition | src/org/traccar/protocol/GnxProtocolDecoder.java:96-123 | Walking the groups after the identifier builds exactly the record Assemble describes and reads every group. |
| GnxDecoder.Decode | src/org/traccar/protocol/GnxProtocolDecoder.java:66-126 | The decoder's walk returns what DecodeSpec states. When it emits a record, its cursor has read 20 groups for MIF and 19 otherwise. |
| GnxSentence.RenderedKind | src/org/traccar/protocol/GnxProtocolDecoder.java:71-81 | Offsets 5..7 of a message's text hold `MIF` or its subtype, so the text is read with its own variant's grammar. |
| GnxSentence.RenderMatch | src/org/traccar/protocol/GnxProtocolDecoder.java:83-86 | The text of a grammatical message matches its grammar, and the slot texts are the message's pieces. |
| GnxSentence.GroupTextsShape | src/org/traccar/protocol/GnxProtocolDecoder.java:36-57 | The captured fields of a grammatical message have the shape the grammar gives the groups. |
| GnxSentence.AssembledExpected | src/org/traccar/protocol/GnxProtocolDecoder.java:94-123 | Assembling a grammatical message's groups gives the record its fields describe: archive, both clocks, validity, signed coordinates, and the RFID. |
| GnxSentence.RenderedGroups | src/org/traccar/protocol/GnxProtocolDecoder.java:83-91 | A grammatical message's text matches the grammar its subtype selects, and its groups are the message's captured fields. |
| GnxSentence.DecodeRendered | src/org/traccar/protocol/GnxProtocolDecoder.java:66-126 | Round trip: a grammatical message's text decodes to the expected record when its identifier resolves, and to `null` when it does not. |
| GnxSentence.ParseRenders | src/org/traccar/protocol/GnxProtocolDecoder.java:83-86 | Every matched sentence is the text of a grammatical message, namely the one it spells, of the kind its subtype selects. |
| GnxSentence.ParseRender | src/org/traccar/protocol/GnxProtocolDecoder.java:36-64 | Parsing the text of a grammatical message gives back that message. |
| GnxSentence.RenderInjective | src/org/traccar/protocol/GnxProtocolDecoder.java:36-64 | Two grammatical messages with the same text are equal, so a sentence fixes every field, including the uncaptured ones. |
| GnxProperties.DecodedSentence | src/org/traccar/protocol/GnxProtocolDecoder.java:66-126 | A sentence that decodes to a record is the text of a grammatical message whose identifier resolves, and the record is that message's expected record. |
| GnxProperties.DecodedRecord | src/org/traccar/protocol/GnxProtocolDecoder.java:88-125 | The record of a decoded sentence is the expected record of the message it spells. |
| GnxProperties.DecodeEmittedIff | src/org/traccar/protocol/GnxProtocolDecoder.java:66-126 | A record is emitted iff the sentence is a grammatical message's text and its identifier resolves. `null` is returned iff the sentence has at least 8 characters and is no such text. |
| GnxProperties.ParseGroups | src/org/traccar/protocol/GnxProtocolDecoder.java:83-91 | The groups the cursor walks are the captured fields of the parsed message, and the first of them is the identifier. |
| GnxProperties.UnknownDeviceRejected | src/org/traccar/protocol/GnxProtocolDecoder.java:91-93 | A matched sentence whose identifier does not resolve gives `null`. |
| GnxProperties.DeviceOfRecord | src/org/traccar/protocol/GnxProtocolDecoder.java:91-94 | The record's device is what the sentence's identifier resolves to. |
| GnxProperties.ArchiveFlag | src/org/traccar/protocol/GnxProtocolDecoder.java:96-98 | The archive attribute is true exactly for history 1 and absent for history 0; it is never false. |
| GnxProperties.Validity | src/org/traccar/protocol/GnxProtocolDecoder.java:112 | The record is valid exactly when the validity digit is not 0. |
| GnxProperties.Timestamps | src/org/traccar/protocol/GnxProtocolDecoder.java:100-110 | Device time comes from fields 1-2 and fix time from fields 3-4, read the same way. Both are in the same GMT+5:30 zone. |
| GnxProperties.TimestampRange | src/org/traccar/protocol/GnxProtocolDecoder.java:100-110 | Every component of a timestamp is below 100, the year lies in 2000..2099, and the offset is 330 minutes. |
| GnxProperties.CoordinateValue | src/org/traccar/protocol/GnxProtocolDecoder.java:114-115 | A coordinate's magnitude is the value of its digits with the point dropped, over 10 to the number of fraction digits. It is negated for the southern or western hemisphere. |
| GnxProperties.CoordinateSigns | src/org/traccar/protocol/GnxProtocolDecoder.java:114-115 | Latitude is the first decimal field, negative exactly for S; longitude is the second, negative exactly for W. |
| GnxProperties.RfidIffMif | src/org/traccar/protocol/GnxProtocolDecoder.java:117-123 | A record carries an RFID exactly when the subtype is MIF. The RFID is then the sentence's non-empty, comma-free RFID field. |
| GnxProperties.TruncatedRejected | src/org/traccar/protocol/GnxProtocolDecoder.java:36-49 | A sentence that is correct up to location slot k and then continues with text that slot cannot start decodes to `null`. |
| GnxProperties.HistoryOutOfRange | src/org/traccar/protocol/GnxProtocolDecoder.java:39 | A history field that is not a single 0 or 1 followed by a comma is rejected. This covers another first character, a longer field such as `10` or `01`, and a missing comma. |
| GnxProperties.HistoryDigitMissing | src/org/traccar/protocol/GnxProtocolDecoder.java:39 | A history field that does not start with 0 or 1 is rejected. |
| GnxProperties.HistoryCommaMissing | src/org/traccar/protocol/GnxProtocolDecoder.java:39 | A valid history digit followed by anything but a comma is rejected. |
| GnxProperties.TimeNotDigits | src/org/traccar/protocol/GnxProtocolDecoder.java:40 | A device time whose hour is not two digits is rejected. |
| GnxProperties.LatitudeTooWide | src/org/traccar/protocol/GnxProtocolDecoder.java:45 | A latitude with three or more whole digits is rejected. |
| GnxProperties.HemisphereMissing | src/org/traccar/protocol/GnxProtocolDecoder.java:48 | A sentence without E or W where the longitude hemisphere belongs is rejected. |

## Left out

- `Parser`, `PatternBuilder`, `DateBuilder`, `Position` and `BaseProtocolDecoder` are not part of this model. Their behaviour is modelled only as far as `decode` uses it:
  - the cursor is the `Parser` class;
  - the regular expressions are slot lists;
  - the calendar is the `DateBuilder` class;
  - the record is the `Position` datatype.
- The Java regular-expression engine is replaced by the greedy slot matcher `Grammar.Match`. For well-formed patterns, which all three GNX grammars are, the matcher is proved to succeed exactly when the sentence splits into slot texts the atoms accept. That this is the question `Pattern.matcher(...).matches()` answers rests on two assumptions the model does not check:
  - `.` in `...,` and in `.any()` is taken to match every character, line terminators included. PatternBuilder, which would decide whether DOTALL is set, is not part of this model.
  - A Dafny string counts characters, while Java's `substring(5, 8)` and the regular expression count UTF-16 code units. The two agree only for sentences without supplementary characters, and GNX sentences are ASCII.
- `identify(parser.next(), channel, remoteAddress)` and `getDeviceId()` are one parameter, `resolve: string -> Option<int>`. The device lookup, the channel and the remote address are not modelled.
- `setProtocol(getProtocolName())` is left out; the protocol name is a constant of the surrounding framework.
- Floating point is left out. Coordinates are exact decimals (`Degrees`, mantissa × 10^-scale) rather than `double` values, so `Double.parseDouble` rounding is not modelled.
- `DateBuilder.getDate()` is modelled as the six calendar components and the zone offset. Conversion to an instant, and the lenient calendar's normalisation of out-of-range components (month 13, hour 99), are not modelled.
- GnxDecoder.CalendarYear: the two-digit-year rule is taken to be 2000 + yy. The builder's source is not part of this model, so the century pivot cannot be confirmed.
- `Parser.nextCoordinate` also treats a `-` hemisphere as negative. Neither GNX grammar admits that letter, so the model handles only N, S, E and W.
- The MIF card flag `[01]` and the length field are matched but not captured, as in the code. They appear only in `Message`, so that a message fixes its whole text.
