/**
 * GNX sentences as messages: the fields a sentence carries, the text that spells
 * them, and what `decode` makes of that text. Rendering a message walks the same
 * fragments as the grammar, so every grammatical message's text decodes to the
 * record its fields describe, and every sentence that decodes is such a text.
 */
module GnxSentence {
  import opened Options
  import opened Text
  import opened Grammar
  import opened GnxPatterns
  import opened GnxDecoder

  /** Three two-digit components of a six-digit field: HHMMSS or DDMMYY. */
  datatype Triple = Triple(first: string, second: string, third: string)

  /** `$GNX_MIF,` with a card flag and an RFID token, or `$GNX_` and any other subtype. */
  datatype Variant = Tagged(card: char, rfid: string) | Untagged(subtype: string)

  /** The fields of one sentence, in the order it writes them. */
  datatype Message = Message(
    variant: Variant,
    imei: string,
    length: string,
    history: char,
    deviceTime: Triple,
    deviceDate: Triple,
    fixTime: Triple,
    fixDate: Triple,
    validity: char,
    latitude: string,
    latHemisphere: char,
    longitude: string,
    lonHemisphere: char,
    trailer: string)

  predicate TwoDigits(t: string) {
    |t| == 2 && AllIn(t, Digit)
  }

  predicate TripleDigits(t: Triple) {
    TwoDigits(t.first) && TwoDigits(t.second) && TwoDigits(t.third)
  }

  /** The location fields have the forms PATTERN_LOCATION gives them. */
  predicate LocationGrammatical(m: Message) {
    && IsNumeral(m.imei) && IsNumeral(m.length) && m.history in "01"
    && TripleDigits(m.deviceTime) && TripleDigits(m.deviceDate)
    && TripleDigits(m.fixTime) && TripleDigits(m.fixDate)
    && IsDigit(m.validity)
    && IsDecimal(m.latitude, 2) && m.latHemisphere in "NS"
    && IsDecimal(m.longitude, 3) && m.lonHemisphere in "EW"
  }

  /** The header and tail fields have the forms of the grammar the subtype selects. */
  predicate VariantGrammatical(v: Variant) {
    match v
    case Tagged(card, rfid) => card in "01" && |rfid| >= 1 && AllIn(rfid, NotComma)
    case Untagged(subtype) => |subtype| == 3 && subtype != "MIF"
  }

  predicate Grammatical(m: Message) {
    LocationGrammatical(m) && VariantGrammatical(m.variant)
  }

  function KindOf(v: Variant): Kind {
    if v.Tagged? then Mif else Other
  }

  function TriplePieces(t: Triple): seq<string> {
    [t.first, t.second, t.third, ","]
  }

  /** The texts of the device half of PATTERN_LOCATION, fragment by fragment. */
  function DevicePieces(m: Message): (p: seq<string>)
    ensures |p| == |DeviceFields|
  {
    [m.imei, ","] + [m.length, ","] + [[m.history], ","]
    + TriplePieces(m.deviceTime) + TriplePieces(m.deviceDate)
  }

  /** The texts of the fix half of PATTERN_LOCATION, fragment by fragment. */
  function FixPieces(m: Message): (p: seq<string>)
    ensures |p| == |FixFields|
  {
    TriplePieces(m.fixTime) + TriplePieces(m.fixDate) + [[m.validity], ","] + CoordinatePieces(m)
  }

  /** The texts of the coordinate fields of PATTERN_LOCATION. */
  function CoordinatePieces(m: Message): (p: seq<string>)
    ensures |p| == |CoordinateFields|
  {
    [m.latitude, ","] + [[m.latHemisphere], ","] + [m.longitude, ","] + [[m.lonHemisphere], ","]
  }

  /** The texts of the slots of PATTERN_LOCATION. */
  function LocationPieces(m: Message): (p: seq<string>)
    ensures |p| == |PatternLocation|
  {
    DevicePieces(m) + FixPieces(m)
  }

  /** The slots before the location fields: `$GNX_MIF,`, or `$GNX_`, any three characters, `,`. */
  function HeadSlots(kind: Kind): seq<Slot> {
    if kind == Mif then MifHeader else OtherHeader
  }

  function HeadPieces(v: Variant): (p: seq<string>)
    ensures |p| == |HeadSlots(KindOf(v))|
  {
    match v
    case Tagged(_, _) => ["$GNX_MIF,"]
    case Untagged(subtype) => ["$GNX_", subtype, ","]
  }

  /** The slots after the location fields: card flag, RFID and `.*`, or `.*` alone. */
  function TailSlots(kind: Kind): seq<Slot> {
    if kind == Mif then MifTail else OtherTail
  }

  function TailPieces(v: Variant, trailer: string): (p: seq<string>)
    ensures |p| == |TailSlots(KindOf(v))|
  {
    match v
    case Tagged(card, rfid) => [[card], ",", rfid, ",", trailer]
    case Untagged(_) => [trailer]
  }

  function Pieces(m: Message): seq<string> {
    HeadPieces(m.variant) + LocationPieces(m) + TailPieces(m.variant, m.trailer)
  }

  /** The sentence text of a message. */
  function Render(m: Message): string {
    Concat(Pieces(m))
  }

  /** Each grammar is its header, the location fields and its tail. */
  lemma PatternSplit(kind: Kind)
    ensures PatternOf(kind) == HeadSlots(kind) + PatternLocation + TailSlots(kind)
  {
  }

  /** A comma-terminated field whose text its atom accepts. */
  lemma FieldFits(x: Slot, t: string)
    requires Accepts(x.atom, t)
    ensures Fits([x, Plain(Literal(","))], [t, ","])
  {
  }

  lemma TripleFits(t: Triple)
    requires TripleDigits(t)
    ensures Fits(SixDigitField, TriplePieces(t))
  {
  }

  /** The device fields of a message fit the device half of PATTERN_LOCATION slot by slot. */
  lemma DeviceFits(m: Message)
    requires LocationGrammatical(m)
    ensures Fits(DeviceFields, DevicePieces(m))
  {
    FieldFits(Group(Digits), m.imei);
    FieldFits(Plain(Digits), m.length);
    FieldFits(Group(OneOf("01")), [m.history]);
    TripleFits(m.deviceTime);
    TripleFits(m.deviceDate);
    var g, q := ImeiField, [m.imei, ","];
    FitsAppend(g, LengthField, q, [m.length, ","]);
    g, q := g + LengthField, q + [m.length, ","];
    FitsAppend(g, HistoryField, q, [[m.history], ","]);
    g, q := g + HistoryField, q + [[m.history], ","];
    FitsAppend(g, SixDigitField, q, TriplePieces(m.deviceTime));
    g, q := g + SixDigitField, q + TriplePieces(m.deviceTime);
    FitsAppend(g, SixDigitField, q, TriplePieces(m.deviceDate));
  }

  /** The coordinate fields of a message fit their slots. */
  lemma CoordinateFits(m: Message)
    requires LocationGrammatical(m)
    ensures Fits(CoordinateFields, CoordinatePieces(m))
  {
    FieldFits(Group(Decimal(2)), m.latitude);
    FieldFits(Group(OneOf("NS")), [m.latHemisphere]);
    FieldFits(Group(Decimal(3)), m.longitude);
    FieldFits(Group(OneOf("EW")), [m.lonHemisphere]);
    var g, q := LatitudeField, [m.latitude, ","];
    FitsAppend(g, NorthSouthField, q, [[m.latHemisphere], ","]);
    g, q := g + NorthSouthField, q + [[m.latHemisphere], ","];
    FitsAppend(g, LongitudeField, q, [m.longitude, ","]);
    g, q := g + LongitudeField, q + [m.longitude, ","];
    FitsAppend(g, EastWestField, q, [[m.lonHemisphere], ","]);
  }

  /** The fix fields of a message fit the fix half of PATTERN_LOCATION slot by slot. */
  lemma FixFits(m: Message)
    requires LocationGrammatical(m)
    ensures Fits(FixFields, FixPieces(m))
  {
    TripleFits(m.fixTime);
    TripleFits(m.fixDate);
    FieldFits(Group(Fixed(1)), [m.validity]);
    CoordinateFits(m);
    var g, q := SixDigitField, TriplePieces(m.fixTime);
    FitsAppend(g, SixDigitField, q, TriplePieces(m.fixDate));
    g, q := g + SixDigitField, q + TriplePieces(m.fixDate);
    FitsAppend(g, ValidField, q, [[m.validity], ","]);
    g, q := g + ValidField, q + [[m.validity], ","];
    FitsAppend(g, CoordinateFields, q, CoordinatePieces(m));
  }

  /** The location fields of a message fit PATTERN_LOCATION slot by slot. */
  lemma LocationFits(m: Message)
    requires LocationGrammatical(m)
    ensures Fits(PatternLocation, LocationPieces(m))
  {
    DeviceFits(m);
    FixFits(m);
    FitsAppend(DeviceFields, FixFields, DevicePieces(m), FixPieces(m));
  }

  /** The texts of a grammatical message fit the grammar its subtype selects. */
  lemma PiecesFit(m: Message)
    requires Grammatical(m)
    ensures Fits(PatternOf(KindOf(m.variant)), Pieces(m))
  {
    var v := m.variant;
    LocationFits(m);
    PatternSplit(KindOf(v));
    assert Fits(HeadSlots(KindOf(v)), HeadPieces(v));
    assert Fits(TailSlots(KindOf(v)), TailPieces(v, m.trailer));
    FitsAppend(HeadSlots(KindOf(v)), PatternLocation, HeadPieces(v), LocationPieces(m));
    FitsAppend(HeadSlots(KindOf(v)) + PatternLocation, TailSlots(KindOf(v)),
               HeadPieces(v) + LocationPieces(m), TailPieces(v, m.trailer));
  }

  /**
   * Whatever follows a header, offsets 5..7 of the text hold `MIF` for a tagged
   * message and the subtype otherwise, and the text is long enough to classify.
   */
  lemma HeaderText(v: Variant, rest: seq<string>)
    requires v.Untagged? ==> |v.subtype| == 3
    ensures |Concat(HeadPieces(v) + rest)| >= 9
    ensures Concat(HeadPieces(v) + rest)[5..8] == if v.Tagged? then "MIF" else v.subtype
  {
    ConcatAppend(HeadPieces(v), rest);
    var h := HeadPieces(v);
    if v.Tagged? {
      assert Concat(h) == "$GNX_MIF," by {
        assert h[1..] == [];
      }
    } else {
      assert Concat(h) == "$GNX_" + (v.subtype + ",") by {
        assert h[1..] == [v.subtype, ","] && h[1..][1..] == [","] && h[1..][1..][1..] == [];
        assert Concat([","]) == ",";
      }
    }
  }

  /**
   * Offsets 5..7 of a message's text hold `MIF` when it is tagged and its subtype
   * otherwise, so the text is read with the grammar of its own variant.
   */
  lemma RenderedKind(m: Message)
    requires m.variant.Untagged? ==> |m.variant.subtype| == 3
    ensures |Render(m)| >= 8
    ensures Render(m)[5..8] == if m.variant.Tagged? then "MIF" else m.variant.subtype
    ensures m.variant.Tagged? || m.variant.subtype != "MIF" ==> Classify(Render(m)) == KindOf(m.variant)
  {
    HeaderText(m.variant, LocationPieces(m) + TailPieces(m.variant, m.trailer));
    assert Pieces(m) == HeadPieces(m.variant) + (LocationPieces(m) + TailPieces(m.variant, m.trailer));
  }

  /** The 19 location groups of a message's text, in group order. */
  function LocationGroupTexts(m: Message): (g: seq<string>)
    ensures |g| == 19
  {
    [m.imei, [m.history]]
    + [m.deviceTime.first, m.deviceTime.second, m.deviceTime.third]
    + [m.deviceDate.first, m.deviceDate.second, m.deviceDate.third]
    + [m.fixTime.first, m.fixTime.second, m.fixTime.third]
    + [m.fixDate.first, m.fixDate.second, m.fixDate.third]
    + [[m.validity], m.latitude, [m.latHemisphere], m.longitude, [m.lonHemisphere]]
  }

  /** All group texts of a message's text: the RFID follows the location groups when tagged. */
  function GroupTexts(m: Message): seq<string> {
    LocationGroupTexts(m) + if m.variant.Tagged? then [m.variant.rfid] else []
  }

  lemma TripleGroups(t: Triple)
    ensures Captured(SixDigitField, TriplePieces(t)) == [t.first, t.second, t.third]
  {
    var two, comma := Group(Fixed(2)), Plain(Literal(","));
    assert SixDigitField == [two, two] + [two, comma];
    assert TriplePieces(t) == [t.first, t.second] + [t.third, ","];
    CapturedPair(two, two, t.first, t.second);
    CapturedPair(two, comma, t.third, ",");
    CapturedAppend([two, two], [two, comma], [t.first, t.second], [t.third, ","]);
  }

  /** The groups of a field and its comma: the field's text when it is captured. */
  lemma FieldGroups(x: Slot, t: string)
    ensures Captured([x, Plain(Literal(","))], [t, ","]) == if x.Group? then [t] else []
  {
    CapturedPair(x, Plain(Literal(",")), t, ",");
  }

  /** The identifier, length and history fields capture the identifier and the history digit. */
  lemma RecordGroupTexts(m: Message)
    ensures Captured(ImeiField + LengthField + HistoryField, [m.imei, ","] + [m.length, ","] + [[m.history], ","])
         == [m.imei, [m.history]]
  {
    FieldGroups(Group(Digits), m.imei);
    FieldGroups(Plain(Digits), m.length);
    FieldGroups(Group(OneOf("01")), [m.history]);
    CapturedThree(ImeiField, LengthField, HistoryField, [m.imei, ","], [m.length, ","], [[m.history], ","]);
  }

  /** The first 8 groups: identifier, history and the device clock. */
  lemma DeviceGroupTexts(m: Message)
    ensures Captured(DeviceFields, DevicePieces(m)) == LocationGroupTexts(m)[..8]
  {
    RecordGroupTexts(m);
    TripleGroups(m.deviceTime);
    TripleGroups(m.deviceDate);
    CapturedThree(ImeiField + LengthField + HistoryField, SixDigitField, SixDigitField,
                [m.imei, ","] + [m.length, ","] + [[m.history], ","],
                TriplePieces(m.deviceTime), TriplePieces(m.deviceDate));
    var t, d := m.deviceTime, m.deviceDate;
    assert LocationGroupTexts(m)[..8]
        == [m.imei, [m.history]] + [t.first, t.second, t.third] + [d.first, d.second, d.third];
  }

  /** The coordinate groups: latitude, its hemisphere, longitude, its hemisphere. */
  lemma CoordinateGroupTexts(m: Message)
    ensures Captured(CoordinateFields, CoordinatePieces(m))
         == [m.latitude, [m.latHemisphere], m.longitude, [m.lonHemisphere]]
  {
    FieldGroups(Group(Decimal(2)), m.latitude);
    FieldGroups(Group(OneOf("NS")), [m.latHemisphere]);
    FieldGroups(Group(Decimal(3)), m.longitude);
    FieldGroups(Group(OneOf("EW")), [m.lonHemisphere]);
    var g, q := LatitudeField, [m.latitude, ","];
    CapturedAppend(g, NorthSouthField, q, [[m.latHemisphere], ","]);
    g, q := g + NorthSouthField, q + [[m.latHemisphere], ","];
    CapturedAppend(g, LongitudeField, q, [m.longitude, ","]);
    g, q := g + LongitudeField, q + [m.longitude, ","];
    CapturedAppend(g, EastWestField, q, [[m.lonHemisphere], ","]);
  }

  /** The other 11 groups: the fix clock, validity and the coordinates with their hemispheres. */
  lemma FixGroupTexts(m: Message)
    ensures Captured(FixFields, FixPieces(m)) == LocationGroupTexts(m)[8..]
  {
    TripleGroups(m.fixTime);
    TripleGroups(m.fixDate);
    FieldGroups(Group(Fixed(1)), [m.validity]);
    CoordinateGroupTexts(m);
    var g, q := SixDigitField, TriplePieces(m.fixTime);
    CapturedAppend(g, SixDigitField, q, TriplePieces(m.fixDate));
    g, q := g + SixDigitField, q + TriplePieces(m.fixDate);
    CapturedAppend(g, ValidField, q, [[m.validity], ","]);
    g, q := g + ValidField, q + [[m.validity], ","];
    CapturedAppend(g, CoordinateFields, q, CoordinatePieces(m));
  }

  /** The location groups of a message's text are its location fields, in order. */
  lemma LocationGroupsOf(m: Message)
    ensures Captured(PatternLocation, LocationPieces(m)) == LocationGroupTexts(m)
  {
    DeviceGroupTexts(m);
    FixGroupTexts(m);
    CapturedAppend(DeviceFields, FixFields, DevicePieces(m), FixPieces(m));
    assert LocationGroupTexts(m) == LocationGroupTexts(m)[..8] + LocationGroupTexts(m)[8..];
  }

  /** A header captures nothing. */
  lemma HeadGroupTexts(v: Variant)
    ensures Captured(HeadSlots(KindOf(v)), HeadPieces(v)) == []
  {
    var h := HeadPieces(v);
    if v.Tagged? {
      assert h[..0] == [];
    } else {
      var comma := Plain(Literal(","));
      CapturedPair(Plain(Literal("$GNX_")), Plain(Any(3)), "$GNX_", v.subtype);
      assert OtherHeader == [Plain(Literal("$GNX_")), Plain(Any(3))] + [comma];
      assert h == ["$GNX_", v.subtype] + [","];
      CapturedAppend([Plain(Literal("$GNX_")), Plain(Any(3))], [comma], ["$GNX_", v.subtype], [","]);
      assert [","][..0] == [];
    }
  }

  /** A tagged tail captures the RFID and nothing else; an untagged tail captures nothing. */
  lemma TailGroupTexts(v: Variant, trailer: string)
    ensures Captured(TailSlots(KindOf(v)), TailPieces(v, trailer)) == if v.Tagged? then [v.rfid] else []
  {
    var t := TailPieces(v, trailer);
    if v.Tagged? {
      var comma := Plain(Literal(","));
      CapturedPair(Plain(OneOf("01")), comma, [v.card], ",");
      CapturedPair(Group(Token), comma, v.rfid, ",");
      assert MifTail == [Plain(OneOf("01")), comma] + [Group(Token), comma] + [Plain(Rest)];
      assert t == [[v.card], ","] + [v.rfid, ","] + [trailer];
      CapturedAppend([Plain(OneOf("01")), comma], [Group(Token), comma], [[v.card], ","], [v.rfid, ","]);
      CapturedAppend([Plain(OneOf("01")), comma] + [Group(Token), comma], [Plain(Rest)],
                     [[v.card], ","] + [v.rfid, ","], [trailer]);
      assert [trailer][..0] == [];
    } else {
      assert t[..0] == [];
    }
  }

  /** The groups of a message's text are its captured fields; header, length, card and trailer are not among them. */
  lemma GroupsOfPieces(m: Message)
    ensures Captured(PatternOf(KindOf(m.variant)), Pieces(m)) == GroupTexts(m)
  {
    var v := m.variant;
    PatternSplit(KindOf(v));
    LocationGroupsOf(m);
    HeadGroupTexts(v);
    TailGroupTexts(v, m.trailer);
    CapturedThree(HeadSlots(KindOf(v)), PatternLocation, TailSlots(KindOf(v)),
                HeadPieces(v), LocationPieces(m), TailPieces(v, m.trailer));
  }

  /** The value of a two-digit component, below 100. */
  function Component(t: string): (v: nat)
    requires TwoDigits(t)
    ensures v < 100
  {
    assert Pow10(2) == 100;
    NumeralValue(t)
  }

  /**
   * The reading of a time field and a date field in GMT+5:30: hours, minutes and
   * seconds from the time, day, month and year from the date, the year counted from 2000.
   */
  function TimestampOf(time: Triple, date: Triple): Timestamp
    requires TripleDigits(time) && TripleDigits(date)
  {
    Timestamp(
      2000 + Component(date.third), Component(date.second), Component(date.first),
      Component(time.first), Component(time.second), Component(time.third),
      GmtPlus530)
  }

  /**
   * `whole` digits, a point and k fraction digits denote (whole · 10^k + fraction)
   * ten-to-the-k-ths of a degree, negated when `negative`.
   */
  function CoordinateOf(text: string, whole: nat, negative: bool): Degrees
    requires IsDecimal(text, whole)
  {
    var scale := |text| - whole - 1;
    var magnitude := NumeralValue(text[..whole]) * Pow10(scale) + NumeralValue(text[whole + 1..]);
    Degrees(if negative then -magnitude else magnitude, scale)
  }

  /** The record the fields of a grammatical message describe, for the device `id`. */
  function Expected(m: Message, id: int): Position
    requires Grammatical(m)
  {
    Position(
      id,
      TimestampOf(m.deviceTime, m.deviceDate),
      TimestampOf(m.fixTime, m.fixDate),
      m.validity != '0',
      CoordinateOf(m.latitude, 2, m.latHemisphere == 'S'),
      CoordinateOf(m.longitude, 3, m.lonHemisphere == 'W'),
      if m.history == '1' then Some(true) else None,
      if m.variant.Tagged? then Some(m.variant.rfid) else None)
  }

  /** A coordinate group and its hemisphere letter decode to CoordinateOf. */
  lemma CoordinateDecoded(text: string, whole: nat, hemisphere: char, negative: char)
    requires IsDecimal(text, whole)
    requires (hemisphere == 'S' || hemisphere == 'W') == (hemisphere == negative)
    ensures IsPointNumber(text)
    ensures WithHemisphere(ParseDecimal(text), [hemisphere]) == CoordinateOf(text, whole, hemisphere == negative)
  {
    DecimalPoint(text, whole);
    assert ([hemisphere] == "S" || [hemisphere] == "W") == (hemisphere == 'S' || hemisphere == 'W');
  }

  /** Six clock groups read at offset i decode to TimestampOf. */
  lemma ClockDecoded(g: seq<string>, i: nat, time: Triple, date: Triple)
    requires TripleDigits(time) && TripleDigits(date) && i + 6 <= |g|
    requires g[i] == time.first && g[i + 1] == time.second && g[i + 2] == time.third
    requires g[i + 3] == date.first && g[i + 4] == date.second && g[i + 5] == date.third
    ensures forall k :: i <= k < i + 6 ==> AllIn(g[k], Digit)
    ensures ClockOf(g, i) == TimestampOf(time, date)
  {
  }

  /** The groups of a grammatical message's text have the shape the grammar gives them. */
  lemma GroupTextsShape(m: Message)
    requires Grammatical(m)
    ensures FieldShape(KindOf(m.variant), GroupTexts(m))
  {
    var g := GroupTexts(m);
    assert g[1] == [m.history];
    assert g[16] == [m.latHemisphere] && g[18] == [m.lonHemisphere];
  }

  /** Assembling the groups of a grammatical message's text yields the expected record. */
  lemma AssembledExpected(m: Message, id: int)
    requires Grammatical(m)
    ensures FieldShape(KindOf(m.variant), GroupTexts(m))
    ensures Assemble(KindOf(m.variant), GroupTexts(m), id) == Expected(m, id)
  {
    GroupTextsShape(m);
    var g := GroupTexts(m);
    SingleDigitValue(m.history);
    SingleDigitValue(m.validity);
    ClockDecoded(g, 2, m.deviceTime, m.deviceDate);
    ClockDecoded(g, 8, m.fixTime, m.fixDate);
    CoordinateDecoded(m.latitude, 2, m.latHemisphere, 'S');
    CoordinateDecoded(m.longitude, 3, m.lonHemisphere, 'W');
    assert g[1] == [m.history] && g[14] == [m.validity];
  }

  /** The text of a grammatical message matches the grammar of its variant, slot by slot in its pieces. */
  lemma RenderMatch(m: Message)
    requires Grammatical(m)
    ensures |Render(m)| >= 8 && Classify(Render(m)) == KindOf(m.variant)
    ensures Match(PatternOf(KindOf(m.variant)), Render(m)) == Some(Pieces(m))
  {
    RenderedKind(m);
    PiecesFit(m);
    MatchAccepted(PatternOf(KindOf(m.variant)), Pieces(m));
  }

  /**
   * The text of a grammatical message matches the grammar its subtype selects, and
   * its groups are the message's captured fields.
   */
  lemma RenderedGroups(m: Message)
    requires Grammatical(m)
    ensures |Render(m)| >= 8 && Match(PatternOf(Classify(Render(m))), Render(m)).Some?
    ensures Classify(Render(m)) == KindOf(m.variant)
    ensures SentenceGroups(Render(m)) == GroupTexts(m)
  {
    RenderMatch(m);
    GroupsOfPieces(m);
  }

  /**
   * Round trip: the text of a grammatical message decodes to exactly the record its
   * fields describe when its identifier resolves, and to `null` when it does not.
   */
  lemma DecodeRendered(m: Message, resolve: string -> Option<int>)
    requires Grammatical(m)
    ensures DecodeSpec(Render(m), resolve)
         == if resolve(m.imei).None? then Rejected else Emitted(Expected(m, resolve(m.imei).value))
  {
    RenderedGroups(m);
    if resolve(m.imei).Some? {
      AssembledExpected(m, resolve(m.imei).value);
    }
  }

  /** What fitting PATTERN_LOCATION says about each slot text. */
  lemma LocationTexts(q: seq<string>)
    requires Fits(PatternLocation, q)
    ensures LocationLayout(q)
    ensures IsNumeral(q[0]) && IsNumeral(q[2])
    ensures |q[4]| == 1 && q[4][0] in "01"
    ensures forall i | i in {6, 7, 8, 10, 11, 12, 14, 15, 16, 18, 19, 20} :: TwoDigits(q[i])
    ensures |q[22]| == 1 && IsDigit(q[22][0])
    ensures IsDecimal(q[24], 2) && |q[26]| == 1 && q[26][0] in "NS"
    ensures IsDecimal(q[28], 3) && |q[30]| == 1 && q[30][0] in "EW"
  {
    LocationSlots();
    assert forall i :: 0 <= i < 32 ==> Accepts(PatternLocation[i].atom, q[i]);
  }

  /**
   * The layout of PATTERN_LOCATION's 32 slot texts: a comma after every field and
   * one character in each one-character field.
   */
  predicate LocationLayout(q: seq<string>) {
    && |q| == 32
    && q[1] == "," && q[3] == "," && q[5] == "," && q[9] == "," && q[13] == "," && q[17] == ","
    && q[21] == "," && q[23] == "," && q[25] == "," && q[27] == "," && q[29] == "," && q[31] == ","
    && |q[4]| == 1 && |q[22]| == 1 && |q[26]| == 1 && |q[30]| == 1
  }

  /** The message whose location fields have the slot texts `q`. */
  function LocationMessage(q: seq<string>, v: Variant, trailer: string): Message
    requires LocationLayout(q)
  {
    Message(
      v, q[0], q[2], q[4][0],
      Triple(q[6], q[7], q[8]), Triple(q[10], q[11], q[12]),
      Triple(q[14], q[15], q[16]), Triple(q[18], q[19], q[20]),
      q[22][0], q[24], q[26][0], q[28], q[30][0], trailer)
  }

  /** The location fields read back from fitting slot texts are grammatical. */
  lemma LocationMessageGrammatical(q: seq<string>, v: Variant, trailer: string)
    requires Fits(PatternLocation, q)
    ensures LocationGrammatical(LocationMessage(q, v, trailer))
  {
    LocationTexts(q);
  }

  /** Reading the device fields back from their slot texts loses nothing. */
  lemma DeviceMessageInverse(q: seq<string>, v: Variant, trailer: string)
    requires LocationLayout(q)
    ensures DevicePieces(LocationMessage(q, v, trailer)) == q[..14]
  {
    assert q[4] == [q[4][0]];
  }

  /** Reading the fix fields back from their slot texts loses nothing. */
  lemma FixMessageInverse(q: seq<string>, v: Variant, trailer: string)
    requires LocationLayout(q)
    ensures FixPieces(LocationMessage(q, v, trailer)) == q[14..]
  {
    assert q[22] == [q[22][0]] && q[26] == [q[26][0]] && q[30] == [q[30][0]];
  }

  /** Reading the location fields back from their slot texts loses nothing. */
  lemma LocationMessageInverse(q: seq<string>, v: Variant, trailer: string)
    requires LocationLayout(q)
    ensures LocationPieces(LocationMessage(q, v, trailer)) == q
  {
    DeviceMessageInverse(q, v, trailer);
    FixMessageInverse(q, v, trailer);
    assert q == q[..14] + q[14..];
  }

  /**
   * The message whose pieces are the slot texts `head`, `q` and `tail` of the header,
   * location fields and tail of a grammar of `kind`: the header gives the subtype,
   * `q` the location fields, and the tail the card flag, RFID and trailer.
   */
  function MessageOf(kind: Kind, head: seq<string>, q: seq<string>, tail: seq<string>): Message
    requires Fits(HeadSlots(kind), head) && Fits(PatternLocation, q) && Fits(TailSlots(kind), tail)
  {
    LocationTexts(q);
    if kind == Mif then LocationMessage(q, Tagged(tail[0][0], tail[2]), tail[4])
    else LocationMessage(q, Untagged(head[1]), tail[0])
  }

  /** Slot texts of the MIF grammar are the pieces of the tagged message they spell. */
  lemma TaggedPieces(head: seq<string>, q: seq<string>, tail: seq<string>)
    requires Fits(HeadSlots(Mif), head) && Fits(PatternLocation, q) && Fits(TailSlots(Mif), tail)
    ensures MessageOf(Mif, head, q, tail).variant.Tagged?
    ensures Pieces(MessageOf(Mif, head, q, tail)) == head + q + tail
  {
    var m := MessageOf(Mif, head, q, tail);
    assert m == LocationMessage(q, Tagged(tail[0][0], tail[2]), tail[4]);
    LocationTexts(q);
    LocationMessageInverse(q, m.variant, m.trailer);
    assert HeadPieces(m.variant) == head;
    assert tail[0] == [tail[0][0]];
    assert TailPieces(m.variant, m.trailer) == tail;
  }

  /** Slot texts of the generic grammar are the pieces of the untagged message they spell. */
  lemma UntaggedPieces(head: seq<string>, q: seq<string>, tail: seq<string>)
    requires Fits(HeadSlots(Other), head) && Fits(PatternLocation, q) && Fits(TailSlots(Other), tail)
    ensures MessageOf(Other, head, q, tail).variant.Untagged?
    ensures Pieces(MessageOf(Other, head, q, tail)) == head + q + tail
  {
    var m := MessageOf(Other, head, q, tail);
    assert m == LocationMessage(q, Untagged(head[1]), tail[0]);
    LocationTexts(q);
    LocationMessageInverse(q, m.variant, m.trailer);
    assert HeadPieces(m.variant) == head;
    assert TailPieces(m.variant, m.trailer) == tail;
  }

  /** The message slot texts spell is grammatical, apart from the subtype being `MIF`. */
  lemma MessageOfGrammatical(kind: Kind, head: seq<string>, q: seq<string>, tail: seq<string>)
    requires Fits(HeadSlots(kind), head) && Fits(PatternLocation, q) && Fits(TailSlots(kind), tail)
    ensures LocationGrammatical(MessageOf(kind, head, q, tail))
    ensures kind == Mif ==> VariantGrammatical(MessageOf(kind, head, q, tail).variant)
    ensures kind == Other ==> |MessageOf(kind, head, q, tail).variant.subtype| == 3
  {
    var m := MessageOf(kind, head, q, tail);
    LocationMessageGrammatical(q, m.variant, m.trailer);
  }

  /** A sentence that matches the grammar its subtype selects. */
  predicate Matched(s: string) {
    |s| >= 8 && Match(PatternOf(Classify(s)), s).Some?
  }

  /** The slot texts of a matched sentence split into header, location fields and tail. */
  lemma MatchedSplit(s: string)
    requires Matched(s)
    ensures var kind := Classify(s);
      var p := Match(PatternOf(kind), s).value;
      var h := |HeadSlots(kind)|;
      && |p| == h + 32 + |TailSlots(kind)|
      && p == p[..h] + p[h..h + 32] + p[h + 32..]
      && Fits(HeadSlots(kind), p[..h])
      && Fits(PatternLocation, p[h..h + 32])
      && Fits(TailSlots(kind), p[h + 32..])
  {
    var kind := Classify(s);
    PatternSplit(kind);
    FitsSplit(HeadSlots(kind), PatternLocation, TailSlots(kind), Match(PatternOf(kind), s).value);
  }

  /** The message a matched sentence spells, read from the slot texts of its match. */
  function Parse(s: string): Message
    requires Matched(s)
  {
    var kind := Classify(s);
    var p := Match(PatternOf(kind), s).value;
    var h := |HeadSlots(kind)|;
    MatchedSplit(s);
    MessageOf(kind, p[..h], p[h..h + 32], p[h + 32..])
  }

  /** The slot texts of a matched sentence are the pieces of the message it spells. */
  lemma ParsePieces(s: string)
    requires Matched(s)
    ensures KindOf(Parse(s).variant) == Classify(s)
    ensures Pieces(Parse(s)) == Match(PatternOf(Classify(s)), s).value
    ensures Render(Parse(s)) == s
  {
    var kind := Classify(s);
    var p := Match(PatternOf(kind), s).value;
    var h := |HeadSlots(kind)|;
    MatchedSplit(s);
    if kind == Mif {
      TaggedPieces(p[..h], p[h..h + 32], p[h + 32..]);
    } else {
      UntaggedPieces(p[..h], p[h..h + 32], p[h + 32..]);
    }
  }

  /** The message a matched sentence spells is grammatical. */
  lemma ParseGrammatical(s: string)
    requires Matched(s)
    ensures Grammatical(Parse(s))
  {
    var kind := Classify(s);
    var p := Match(PatternOf(kind), s).value;
    var h := |HeadSlots(kind)|;
    MatchedSplit(s);
    MessageOfGrammatical(kind, p[..h], p[h..h + 32], p[h + 32..]);
    if kind == Other {
      ParsePieces(s);
      RenderedKind(Parse(s));
    }
  }

  /**
   * Converse of the round trip: every matched sentence is the text of the grammatical
   * message it spells, of the variant its subtype selects.
   */
  lemma ParseRenders(s: string)
    requires Matched(s)
    ensures Grammatical(Parse(s)) && KindOf(Parse(s).variant) == Classify(s)
    ensures Render(Parse(s)) == s
  {
    ParsePieces(s);
    ParseGrammatical(s);
  }

  /** The device pieces of a message, slot by slot. */
  lemma DeviceSlotTexts(m: Message)
    ensures DevicePieces(m) == [
      m.imei, ",", m.length, ",", [m.history], ",",
      m.deviceTime.first, m.deviceTime.second, m.deviceTime.third, ",",
      m.deviceDate.first, m.deviceDate.second, m.deviceDate.third, ","]
  {
  }

  /** The fix pieces of a message, slot by slot. */
  lemma FixSlotTexts(m: Message)
    ensures FixPieces(m) == [
      m.fixTime.first, m.fixTime.second, m.fixTime.third, ",",
      m.fixDate.first, m.fixDate.second, m.fixDate.third, ",",
      [m.validity], ",", m.latitude, ",", [m.latHemisphere], ",",
      m.longitude, ",", [m.lonHemisphere], ","]
  {
  }

  /** Up to the history field, the location texts of two messages differing only in history agree. */
  lemma HistoryPrefix(m: Message, c: char, head: seq<string>)
    ensures LocationPieces(m.(history := c))[..5] == LocationPieces(m)[..4] + [[c]]
    ensures head + LocationPieces(m.(history := c))[..5] == (head + LocationPieces(m)[..4]) + [[c]]
  {
    DeviceSlotTexts(m);
    DeviceSlotTexts(m.(history := c));
  }

  /** Reading the location fields back from a message's own location texts gives the message. */
  lemma LocationMessageOf(m: Message)
    ensures LocationLayout(LocationPieces(m))
    ensures LocationMessage(LocationPieces(m), m.variant, m.trailer) == m
  {
    DeviceSlotTexts(m);
    FixSlotTexts(m);
  }

  /** The header and tail texts of a message with a grammatical variant fit their slots. */
  lemma EndsFit(v: Variant, trailer: string)
    requires VariantGrammatical(v)
    ensures Fits(HeadSlots(KindOf(v)), HeadPieces(v))
    ensures Fits(TailSlots(KindOf(v)), TailPieces(v, trailer))
  {
  }

  /** Reading a grammatical message back from its own pieces gives the message. */
  lemma MessageOfPieces(m: Message)
    requires Grammatical(m)
    ensures Fits(HeadSlots(KindOf(m.variant)), HeadPieces(m.variant))
    ensures Fits(PatternLocation, LocationPieces(m))
    ensures Fits(TailSlots(KindOf(m.variant)), TailPieces(m.variant, m.trailer))
    ensures MessageOf(KindOf(m.variant), HeadPieces(m.variant), LocationPieces(m), TailPieces(m.variant, m.trailer)) == m
  {
    EndsFit(m.variant, m.trailer);
    LocationFits(m);
    LocationMessageOf(m);
  }

  /** Parsing the text of a grammatical message gives back that message. */
  lemma ParseRender(m: Message)
    requires Grammatical(m)
    ensures Matched(Render(m)) && Parse(Render(m)) == m
  {
    RenderMatch(m);
    MessageOfPieces(m);
    SliceParts(HeadPieces(m.variant), LocationPieces(m), TailPieces(m.variant, m.trailer));
  }

  /** Different grammatical messages have different texts. */
  lemma RenderInjective(m: Message, n: Message)
    requires Grammatical(m) && Grammatical(n) && Render(m) == Render(n)
    ensures m == n
  {
    ParseRender(m);
    ParseRender(n);
  }
}
