/**
 * The three grammar constants of the GNX decoder (GnxProtocolDecoder.java:36-64),
 * one slot list per builder call, composed by concatenation exactly as the
 * builder embeds PATTERN_LOCATION's text inside the other two patterns.
 *
 * `number("...")` templates read `d` as a decimal digit, `dd` as exactly two
 * of them and `.` as a literal decimal point, so `(dd.d+)` is a two-digit whole
 * part, a point and at least one fraction digit.
 */
module GnxPatterns {
  import opened Grammar

  // PATTERN_LOCATION, one constant per builder call
  const ImeiField: seq<Slot> := [Group(Digits), Plain(Literal(","))]          // (d+),
  const LengthField: seq<Slot> := [Plain(Digits), Plain(Literal(","))]        // d+,
  const HistoryField: seq<Slot> := [Group(OneOf("01")), Plain(Literal(","))]  // ([01]),
  const SixDigitField: seq<Slot> :=                                           // (dd)(dd)(dd),
    [Group(Fixed(2)), Group(Fixed(2)), Group(Fixed(2)), Plain(Literal(","))]
  const ValidField: seq<Slot> := [Group(Fixed(1)), Plain(Literal(","))]      // (d),
  const LatitudeField: seq<Slot> := [Group(Decimal(2)), Plain(Literal(","))] // (dd.d+),
  const NorthSouthField: seq<Slot> := [Group(OneOf("NS")), Plain(Literal(","))]
  const LongitudeField: seq<Slot> := [Group(Decimal(3)), Plain(Literal(","))] // (ddd.d+),
  const EastWestField: seq<Slot> := [Group(OneOf("EW")), Plain(Literal(","))]

  /** The first half of PATTERN_LOCATION: identifier, length, history, device time and date (14 slots). */
  const DeviceFields: seq<Slot> :=
    ImeiField + LengthField + HistoryField + SixDigitField + SixDigitField

  /** Latitude and longitude, each followed by its hemisphere (8 slots). */
  const CoordinateFields: seq<Slot> :=
    LatitudeField + NorthSouthField + LongitudeField + EastWestField

  /** The second half: fix time and date, validity and the coordinates (18 slots). */
  const FixFields: seq<Slot> := SixDigitField + SixDigitField + ValidField + CoordinateFields

  /** Device time, device date, fix time and fix date are four six-digit fields. */
  const PatternLocation: seq<Slot> := DeviceFields + FixFields

  /** PATTERN_MIF's header: `$GNX_MIF,`. */
  const MifHeader: seq<Slot> := [Plain(Literal("$GNX_MIF,"))]

  /** PATTERN_MIF's tail: the card flag `[01],` (not captured), the RFID `([^,]+),`, then anything. */
  const MifTail: seq<Slot> :=
    [Plain(OneOf("01")), Plain(Literal(",")), Group(Token), Plain(Literal(",")), Plain(Rest)]

  /** PATTERN_OTHER's header: `$GNX_`, any three characters and a comma, none of them captured. */
  const OtherHeader: seq<Slot> := [Plain(Literal("$GNX_")), Plain(Any(3)), Plain(Literal(","))]

  /** PATTERN_OTHER's tail: anything. */
  const OtherTail: seq<Slot> := [Plain(Rest)]

  const PatternMif: seq<Slot> := MifHeader + PatternLocation + MifTail

  const PatternOther: seq<Slot> := OtherHeader + PatternLocation + OtherTail

  /**
   * The 19 capture groups of PATTERN_LOCATION, in group order: identifier, history,
   * the twelve two-digit clock components, validity, latitude and its hemisphere,
   * longitude and its hemisphere. The length field is not among them.
   */
  const LocationGroupAtoms: seq<Atom> :=
    [Digits, OneOf("01"),
     Fixed(2), Fixed(2), Fixed(2), Fixed(2), Fixed(2), Fixed(2),
     Fixed(2), Fixed(2), Fixed(2), Fixed(2), Fixed(2), Fixed(2),
     Fixed(1), Decimal(2), OneOf("NS"), Decimal(3), OneOf("EW")]

  /** The device half of PATTERN_LOCATION written out slot by slot. */
  lemma DeviceSlots()
    ensures DeviceFields == [
      Group(Digits), Plain(Literal(",")),
      Plain(Digits), Plain(Literal(",")),
      Group(OneOf("01")), Plain(Literal(",")),
      Group(Fixed(2)), Group(Fixed(2)), Group(Fixed(2)), Plain(Literal(",")),
      Group(Fixed(2)), Group(Fixed(2)), Group(Fixed(2)), Plain(Literal(","))]
  {
  }

  /** The fix half of PATTERN_LOCATION written out slot by slot. */
  lemma FixSlots()
    ensures FixFields == [
      Group(Fixed(2)), Group(Fixed(2)), Group(Fixed(2)), Plain(Literal(",")),
      Group(Fixed(2)), Group(Fixed(2)), Group(Fixed(2)), Plain(Literal(",")),
      Group(Fixed(1)), Plain(Literal(",")),
      Group(Decimal(2)), Plain(Literal(",")),
      Group(OneOf("NS")), Plain(Literal(",")),
      Group(Decimal(3)), Plain(Literal(",")),
      Group(OneOf("EW")), Plain(Literal(","))]
  {
  }

  /** PATTERN_LOCATION written out slot by slot. */
  lemma LocationSlots()
    ensures PatternLocation == [
      Group(Digits), Plain(Literal(",")),
      Plain(Digits), Plain(Literal(",")),
      Group(OneOf("01")), Plain(Literal(",")),
      Group(Fixed(2)), Group(Fixed(2)), Group(Fixed(2)), Plain(Literal(",")),
      Group(Fixed(2)), Group(Fixed(2)), Group(Fixed(2)), Plain(Literal(",")),
      Group(Fixed(2)), Group(Fixed(2)), Group(Fixed(2)), Plain(Literal(",")),
      Group(Fixed(2)), Group(Fixed(2)), Group(Fixed(2)), Plain(Literal(",")),
      Group(Fixed(1)), Plain(Literal(",")),
      Group(Decimal(2)), Plain(Literal(",")),
      Group(OneOf("NS")), Plain(Literal(",")),
      Group(Decimal(3)), Plain(Literal(",")),
      Group(OneOf("EW")), Plain(Literal(","))]
  {
    DeviceSlots();
    FixSlots();
  }

  /** The device half of PATTERN_LOCATION is well formed and ends in a comma. */
  lemma DeviceWellFormed()
    ensures WellFormed(DeviceFields) && Closed(DeviceFields)
  {
    var d := ImeiField;
    WellFormedAppend(d, LengthField); d := d + LengthField;
    WellFormedAppend(d, HistoryField); d := d + HistoryField;
    WellFormedAppend(d, SixDigitField); d := d + SixDigitField;
    WellFormedAppend(d, SixDigitField);
  }

  /** The fix half of PATTERN_LOCATION is well formed and ends in a comma. */
  lemma FixWellFormed()
    ensures WellFormed(FixFields) && Closed(FixFields)
  {
    var c := LatitudeField;
    WellFormedAppend(c, NorthSouthField); c := c + NorthSouthField;
    WellFormedAppend(c, LongitudeField); c := c + LongitudeField;
    WellFormedAppend(c, EastWestField); c := c + EastWestField;
    var f := SixDigitField;
    WellFormedAppend(f, SixDigitField); f := f + SixDigitField;
    WellFormedAppend(f, ValidField); f := f + ValidField;
    WellFormedAppend(f, c);
  }

  /** Every field of PATTERN_LOCATION is well formed and ends in its comma. */
  lemma LocationWellFormed()
    ensures WellFormed(PatternLocation) && Closed(PatternLocation)
  {
    DeviceWellFormed();
    FixWellFormed();
    WellFormedAppend(DeviceFields, FixFields);
  }

  /**
   * Both variant patterns are well formed, so `Match` decides them exactly: each
   * greedy field is closed by its comma and `.*` comes last.
   */
  lemma PatternsWellFormed()
    ensures WellFormed(PatternMif) && WellFormed(PatternOther)
  {
    LocationWellFormed();
    WellFormedAppend(MifHeader, PatternLocation);
    WellFormedAppend(MifHeader + PatternLocation, MifTail);
    WellFormedAppend(OtherHeader, PatternLocation);
    WellFormedAppend(OtherHeader + PatternLocation, OtherTail);
  }

  /** A two-slot field yields the groups of its two slots. */
  lemma PairGroups(x: Slot, y: Slot)
    ensures GroupAtoms([x, y])
         == (if x.Group? then [x.atom] else []) + (if y.Group? then [y.atom] else [])
  {
    assert Atoms([x, y]) == [x.atom, y.atom];
    CapturedPair(x, y, x.atom, y.atom);
  }

  /** A six-digit field yields three two-digit groups. */
  lemma SixDigitGroups()
    ensures GroupAtoms(SixDigitField) == [Fixed(2), Fixed(2), Fixed(2)]
  {
    var two, comma := Group(Fixed(2)), Plain(Literal(","));
    PairGroups(two, two);
    PairGroups(two, comma);
    GroupAtomsAppend([two, two], [two, comma]);
    assert SixDigitField == [two, two] + [two, comma];
  }

  /** The identity, length, history and device clock fields capture 8 groups. */
  lemma DeviceClockGroups()
    ensures GroupAtoms(DeviceFields) == LocationGroupAtoms[..8]
  {
    var comma := Plain(Literal(","));
    PairGroups(Group(Digits), comma);
    PairGroups(Plain(Digits), comma);
    PairGroups(Group(OneOf("01")), comma);
    SixDigitGroups();
    var p := ImeiField;
    GroupAtomsAppend(p, LengthField); p := p + LengthField;
    GroupAtomsAppend(p, HistoryField); p := p + HistoryField;
    GroupAtomsAppend(p, SixDigitField); p := p + SixDigitField;
    GroupAtomsAppend(p, SixDigitField);
  }

  /** The coordinate fields capture latitude, its hemisphere, longitude and its hemisphere. */
  lemma CoordinateGroups()
    ensures GroupAtoms(CoordinateFields) == [Decimal(2), OneOf("NS"), Decimal(3), OneOf("EW")]
  {
    var comma := Plain(Literal(","));
    PairGroups(Group(Decimal(2)), comma);
    PairGroups(Group(OneOf("NS")), comma);
    PairGroups(Group(Decimal(3)), comma);
    PairGroups(Group(OneOf("EW")), comma);
    var p := LatitudeField;
    GroupAtomsAppend(p, NorthSouthField); p := p + NorthSouthField;
    GroupAtomsAppend(p, LongitudeField); p := p + LongitudeField;
    GroupAtomsAppend(p, EastWestField);
  }

  /** The fix clock, validity and coordinate fields capture the other 11 groups. */
  lemma FixGroups()
    ensures GroupAtoms(FixFields) == LocationGroupAtoms[8..]
  {
    PairGroups(Group(Fixed(1)), Plain(Literal(",")));
    SixDigitGroups();
    CoordinateGroups();
    var p := SixDigitField;
    GroupAtomsAppend(p, SixDigitField); p := p + SixDigitField;
    GroupAtomsAppend(p, ValidField); p := p + ValidField;
    GroupAtomsAppend(p, CoordinateFields);
  }

  /** PATTERN_LOCATION captures 19 groups; the length field is not one of them. */
  lemma LocationGroups()
    ensures GroupAtoms(PatternLocation) == LocationGroupAtoms
  {
    DeviceClockGroups();
    FixGroups();
    GroupAtomsAppend(DeviceFields, FixFields);
    assert LocationGroupAtoms == LocationGroupAtoms[..8] + LocationGroupAtoms[8..];
  }

  /** Neither header captures anything. */
  lemma HeaderGroups()
    ensures GroupAtoms(MifHeader) == [] && GroupAtoms(OtherHeader) == []
  {
    var comma := Plain(Literal(","));
    assert MifHeader[..0] == [];
    PairGroups(Plain(Literal("$GNX_")), Plain(Any(3)));
    assert OtherHeader == [Plain(Literal("$GNX_")), Plain(Any(3))] + [comma];
    GroupAtomsAppend([Plain(Literal("$GNX_")), Plain(Any(3))], [comma]);
    assert [comma][..0] == [];
  }

  /** PATTERN_MIF's tail captures the RFID and not the card flag; PATTERN_OTHER's captures nothing. */
  lemma TailGroups()
    ensures GroupAtoms(MifTail) == [Token] && GroupAtoms(OtherTail) == []
  {
    var comma := Plain(Literal(","));
    assert OtherTail[..0] == [];
    PairGroups(Plain(OneOf("01")), comma);
    PairGroups(Group(Token), comma);
    assert MifTail == [Plain(OneOf("01")), comma] + [Group(Token), comma] + OtherTail;
    GroupAtomsAppend([Plain(OneOf("01")), comma], [Group(Token), comma]);
    GroupAtomsAppend([Plain(OneOf("01")), comma] + [Group(Token), comma], OtherTail);
  }

  /**
   * PATTERN_MIF captures 20 groups: the 19 location groups, then the RFID token.
   * The header and the card flag are not captured.
   */
  lemma MifGroups()
    ensures GroupAtoms(PatternMif) == LocationGroupAtoms + [Token]
  {
    LocationGroups();
    HeaderGroups();
    TailGroups();
    GroupAtomsAppend(MifHeader, PatternLocation);
    GroupAtomsAppend(MifHeader + PatternLocation, MifTail);
  }

  /**
   * PATTERN_OTHER captures the 19 location groups and nothing else: the header and
   * the three-character subtype are not captured.
   */
  lemma OtherGroups()
    ensures GroupAtoms(PatternOther) == LocationGroupAtoms
  {
    LocationGroups();
    HeaderGroups();
    TailGroups();
    GroupAtomsAppend(OtherHeader, PatternLocation);
    GroupAtomsAppend(OtherHeader + PatternLocation, OtherTail);
  }
}
