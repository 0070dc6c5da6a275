/**
 * The GNX sentence decoder (GnxProtocolDecoder.java:66-126): the subtype at offsets
 * 5..7 selects a grammar, the whole sentence must match it, and a cursor then walks
 * the capture groups left to right while a position record is filled in.
 *
 * `DecodeSpec` states the outcome as a function of the sentence; `Decode` is the
 * step-by-step walk with a `Parser` cursor and two `DateBuilder`s, proved equal to it.
 */
module GnxDecoder {
  import opened Options
  import opened Text
  import opened Grammar
  import opened GnxPatterns

  /** Which of the two sentence grammars a sentence is read with. */
  datatype Kind = Mif | Other

  /** The subtype at offsets 5..7 picks the grammar: `MIF` the tagged one, anything else the generic one. */
  function Classify(sentence: string): (kind: Kind)
    requires |sentence| >= 8
    ensures kind == Mif <==> sentence[5..8] == "MIF"
  {
    if sentence[5..8] == "MIF" then Mif else Other
  }

  function PatternOf(kind: Kind): (g: seq<Slot>)
    ensures WellFormed(g)
  {
    PatternsWellFormed();
    if kind == Mif then PatternMif else PatternOther
  }

  /**
   * What the grammar guarantees about the capture groups of a matched sentence, group
   * k + 1 being g[k]: the identifier is a numeral, the history flag is 0 or 1, the
   * twelve clock components have two digits each, the validity flag one, latitude
   * has two whole digits and longitude three, each followed by its hemisphere letter,
   * and a MIF sentence has a twentieth group, the RFID, free of commas.
   */
  predicate FieldShape(kind: Kind, g: seq<string>) {
    && |g| == (if kind == Mif then 20 else 19)
    && IsNumeral(g[0])
    && (g[1] == "0" || g[1] == "1")
    && (forall k :: 2 <= k < 14 ==> |g[k]| == 2 && AllIn(g[k], Digit))
    && |g[14]| == 1 && IsDigit(g[14][0])
    && IsDecimal(g[15], 2) && (g[16] == "N" || g[16] == "S")
    && IsDecimal(g[17], 3) && (g[18] == "E" || g[18] == "W")
    && (kind == Mif ==> |g[19]| >= 1 && AllIn(g[19], NotComma))
  }

  /** A character accepted by a one-character class is the one-character string of it. */
  lemma OneOfText(t: string, chars: string)
    requires Accepts(OneOf(chars), t)
    ensures t == [t[0]] && t[0] in chars
  {
  }

  /** The groups of the 19 location captures have the shapes the grammar gives them. */
  lemma LocationShape(g: seq<string>)
    requires |g| >= 19
    requires forall k :: 0 <= k < 19 ==> Accepts(LocationGroupAtoms[k], g[k])
    ensures IsNumeral(g[0]) && (g[1] == "0" || g[1] == "1")
    ensures forall k :: 2 <= k < 14 ==> |g[k]| == 2 && AllIn(g[k], Digit)
    ensures |g[14]| == 1 && IsDigit(g[14][0])
    ensures IsDecimal(g[15], 2) && (g[16] == "N" || g[16] == "S")
    ensures IsDecimal(g[17], 3) && (g[18] == "E" || g[18] == "W")
  {
    assert Accepts(LocationGroupAtoms[1], g[1]);
    OneOfText(g[1], "01");
    OneOfText(g[16], "NS");
    OneOfText(g[18], "EW");
    forall k | 2 <= k < 14
      ensures |g[k]| == 2 && AllIn(g[k], Digit)
    {
      assert LocationGroupAtoms[k] == Fixed(2);
    }
  }

  /** Whatever sentence matches, its capture groups have the shape FieldShape describes. */
  lemma MatchedShape(kind: Kind, sentence: string)
    requires Match(PatternOf(kind), sentence).Some?
    ensures FieldShape(kind, Captured(PatternOf(kind), Match(PatternOf(kind), sentence).value))
  {
    var pattern := PatternOf(kind);
    var p := Match(pattern, sentence).value;
    var g := Captured(pattern, p);
    GroupsAccepted(pattern, p);
    if kind == Mif {
      MifGroups();
      assert GroupAtoms(pattern)[19] == Token;
    } else {
      OtherGroups();
    }
    assert forall k :: 0 <= k < 19 ==> GroupAtoms(pattern)[k] == LocationGroupAtoms[k];
    LocationShape(g);
  }

  /** The zone both timestamps are built in, GMT+5:30, in minutes east of UTC. */
  const GmtPlus530: int := 330

  /** A calendar reading: the six components a DateBuilder is given, and its zone. */
  datatype Timestamp = Timestamp(
    year: int, month: int, day: int, hour: int, minute: int, second: int, offsetMinutes: int)

  /** A year below 100 is read as 2000 + year (the two-digit-year rule of DateBuilder). */
  function CalendarYear(year: int): (y: int)
    ensures year < 100 ==> y == year + 2000
    ensures year >= 100 ==> y == year
  {
    if year < 100 then year + 2000 else year
  }

  /** A calendar under construction in a fixed zone, set by chained setters. */
  class DateBuilder {
    const offsetMinutes: int
    var year: int
    var month: int
    var day: int
    var hour: int
    var minute: int
    var second: int

    /** A cleared calendar: 1970-01-01 00:00:00 in the given zone. */
    constructor (offsetMinutes: int)
      ensures this.offsetMinutes == offsetMinutes
      ensures year == 1970 && month == 1 && day == 1
      ensures hour == 0 && minute == 0 && second == 0
    {
      this.offsetMinutes := offsetMinutes;
      year, month, day := 1970, 1, 1;
      hour, minute, second := 0, 0, 0;
    }

    method SetTime(hour: int, minute: int, second: int)
      modifies this
      ensures this.hour == hour && this.minute == minute && this.second == second
      ensures year == old(year) && month == old(month) && day == old(day)
    {
      this.hour, this.minute, this.second := hour, minute, second;
    }

    /** The date given day first, as the sentence writes it (DDMMYY). */
    method SetDateReverse(day: int, month: int, year: int)
      modifies this
      ensures this.day == day && this.month == month && this.year == CalendarYear(year)
      ensures hour == old(hour) && minute == old(minute) && second == old(second)
    {
      this.day, this.month, this.year := day, month, CalendarYear(year);
    }

    function Date(): Timestamp
      reads this
    {
      Timestamp(year, month, day, hour, minute, second, offsetMinutes)
    }
  }

  /** An exact decimal number of degrees: mantissa × 10^-scale. */
  datatype Degrees = Degrees(mantissa: int, scale: nat)

  /**
   * The value of a `digits.digits` group: the whole part scaled past the fraction
   * digits, plus the fraction, over 10 to the number of fraction digits.
   */
  function ParseDecimal(t: string): (d: Degrees)
    requires IsPointNumber(t)
    ensures d.scale == |t| - RunLength(t, Digit) - 1
    ensures d.mantissa
         == NumeralValue(t[..RunLength(t, Digit)]) * Pow10(d.scale)
            + NumeralValue(t[RunLength(t, Digit) + 1..])
  {
    var w := RunLength(t, Digit);
    NumeralAppend(t[..w], t[w + 1..]);
    Degrees(NumeralValue(t[..w] + t[w + 1..]), |t| - w - 1)
  }

  /** A coordinate read as degrees then hemisphere: negative in the south and the west. */
  function WithHemisphere(magnitude: Degrees, hemisphere: string): (c: Degrees)
    ensures c.scale == magnitude.scale
    ensures c.mantissa == magnitude.mantissa || c.mantissa == -magnitude.mantissa
    ensures hemisphere == "S" || hemisphere == "W" ==> c.mantissa <= 0
    ensures hemisphere != "S" && hemisphere != "W" ==> c == magnitude
  {
    if hemisphere == "S" || hemisphere == "W" then
      Degrees(if magnitude.mantissa < 0 then magnitude.mantissa else -magnitude.mantissa, magnitude.scale)
    else magnitude
  }

  /** The position record a decoded sentence yields; absent attributes are `None`. */
  datatype Position = Position(
    deviceId: int,
    deviceTime: Timestamp,
    fixTime: Timestamp,
    valid: bool,
    latitude: Degrees,
    longitude: Degrees,
    archive: Option<bool>,
    rfid: Option<string>)

  /**
   * The outcome of decoding one sentence: a position, `null` (no match or an unknown
   * device), or the exception `substring(5, 8)` throws on a sentence shorter than 8.
   */
  datatype DecodeResult = Emitted(position: Position) | Rejected | IndexOutOfBounds

  /** Time from groups i..i+2, then the date day first from groups i+3..i+5. */
  function ClockOf(g: seq<string>, i: nat): (t: Timestamp)
    requires i + 6 <= |g|
    requires forall k :: i <= k < i + 6 ==> AllIn(g[k], Digit)
    ensures t.offsetMinutes == GmtPlus530
    ensures t.hour == NumeralValue(g[i]) && t.minute == NumeralValue(g[i + 1]) && t.second == NumeralValue(g[i + 2])
    ensures t.day == NumeralValue(g[i + 3]) && t.month == NumeralValue(g[i + 4])
    ensures |g[i + 5]| <= 2 ==> 2000 <= t.year == 2000 + NumeralValue(g[i + 5]) < 2100
  {
    assert Pow10(2) == 100;
    Timestamp(
      CalendarYear(NumeralValue(g[i + 5])), NumeralValue(g[i + 4]), NumeralValue(g[i + 3]),
      NumeralValue(g[i]), NumeralValue(g[i + 1]), NumeralValue(g[i + 2]),
      GmtPlus530)
  }

  /** The record built from the groups of a matched sentence and the resolved device. */
  function Assemble(kind: Kind, g: seq<string>, id: int): (p: Position)
    requires FieldShape(kind, g)
    ensures p.deviceId == id
    ensures p.archive == if g[1] == "1" then Some(true) else None
    ensures p.valid <==> g[14] != "0"
    ensures p.deviceTime.offsetMinutes == p.fixTime.offsetMinutes == GmtPlus530
    ensures p.deviceTime.hour == NumeralValue(g[2]) && p.fixTime.hour == NumeralValue(g[8])
    ensures g[16] == "S" ==> p.latitude.mantissa <= 0
    ensures g[18] == "W" ==> p.longitude.mantissa <= 0
    ensures p.rfid == if kind == Mif then Some(g[19]) else None
  {
    SingleDigitValue(g[1][0]);
    SingleDigitValue(g[14][0]);
    assert g[1] == [g[1][0]] && g[14] == [g[14][0]];
    DecimalPoint(g[15], 2);
    DecimalPoint(g[17], 3);
    Position(
      id,
      ClockOf(g, 2),
      ClockOf(g, 8),
      NumeralValue(g[14]) != 0,
      WithHemisphere(ParseDecimal(g[15]), g[16]),
      WithHemisphere(ParseDecimal(g[17]), g[18]),
      if NumeralValue(g[1]) == 1 then Some(true) else None,
      if kind == Mif then Some(g[19]) else None)
  }

  /** The capture groups of a sentence that matches the grammar its subtype selects. */
  function SentenceGroups(sentence: string): (g: seq<string>)
    requires |sentence| >= 8 && Match(PatternOf(Classify(sentence)), sentence).Some?
    ensures FieldShape(Classify(sentence), g)
  {
    var pattern := PatternOf(Classify(sentence));
    MatchedShape(Classify(sentence), sentence);
    Captured(pattern, Match(pattern, sentence).value)
  }

  /** The outcome of `decode` for one sentence, given how identifiers resolve to devices. */
  function DecodeSpec(sentence: string, resolve: string -> Option<int>): (r: DecodeResult)
    ensures r.IndexOutOfBounds? <==> |sentence| < 8
  {
    if |sentence| < 8 then IndexOutOfBounds
    else if Match(PatternOf(Classify(sentence)), sentence).None? then Rejected
    else
      var g := SentenceGroups(sentence);
      match resolve(g[0])
      case None => Rejected
      case Some(id) => Emitted(Assemble(Classify(sentence), g, id))
  }

  /** The group cursor: a full match of `input` against `pattern`, read group by group. */
  class Parser {
    const pattern: seq<Slot>
    const input: string
    var groups: seq<string>
    var index: nat

    constructor (pattern: seq<Slot>, input: string)
      ensures this.pattern == pattern && this.input == input
      ensures groups == [] && index == 0
    {
      this.pattern, this.input := pattern, input;
      groups, index := [], 0;
    }

    /** Whether the whole input matches; on success the cursor stands before group 1. */
    method Matches() returns (ok: bool)
      modifies this
      ensures ok <==> Match(pattern, input).Some?
      ensures groups == if ok then Captured(pattern, Match(pattern, input).value) else []
      ensures index == 0
    {
      var m := Match(pattern, input);
      ok := m.Some?;
      groups := if ok then Captured(pattern, m.value) else [];
      index := 0;
    }

    /** The next group's text. */
    method Next() returns (t: string)
      requires index < |groups|
      modifies this
      ensures t == old(groups[index])
      ensures groups == old(groups) && index == old(index) + 1
    {
      t := groups[index];
      index := index + 1;
    }

    /** The next group read as a decimal integer. */
    method NextInt() returns (v: nat)
      requires index < |groups| && IsNumeral(groups[index])
      modifies this
      ensures v == NumeralValue(old(groups[index]))
      ensures groups == old(groups) && index == old(index) + 1
    {
      v := NumeralValue(groups[index]);
      index := index + 1;
    }

    /** A degrees group and the hemisphere group after it (format DEG_HEM). */
    method NextCoordinate() returns (c: Degrees)
      requires index + 1 < |groups| && IsPointNumber(groups[index])
      modifies this
      ensures c == WithHemisphere(ParseDecimal(old(groups[index])), old(groups[index + 1]))
      ensures groups == old(groups) && index == old(index) + 2
    {
      var magnitude := ParseDecimal(groups[index]);
      var hemisphere := groups[index + 1];
      c := WithHemisphere(magnitude, hemisphere);
      index := index + 2;
    }
  }

  /**
   * One timestamp, as `decode` builds each of its two: a fresh builder in GMT+5:30,
   * the time from the next three groups, then the date day first from the three after.
   */
  method ReadClock(parser: Parser) returns (t: Timestamp)
    requires parser.index + 6 <= |parser.groups|
    requires forall k :: parser.index <= k < parser.index + 6 ==>
      |parser.groups[k]| == 2 && AllIn(parser.groups[k], Digit)
    modifies parser
    ensures parser.groups == old(parser.groups) && parser.index == old(parser.index) + 6
    ensures t == ClockOf(old(parser.groups), old(parser.index))
  {
    ghost var i := parser.index;
    var builder := new DateBuilder(GmtPlus530);
    var hour := parser.NextInt();
    var minute := parser.NextInt();
    var second := parser.NextInt();
    builder.SetTime(hour, minute, second);
    var day := parser.NextInt();
    var month := parser.NextInt();
    var year := parser.NextInt();
    builder.SetDateReverse(day, month, year);
    t := builder.Date();
  }

  /**
   * The walk after the device is identified: history, the two timestamps, validity,
   * latitude, longitude and, for MIF, the RFID, each read from the next groups.
   */
  method ReadPosition(parser: Parser, kind: Kind, id: int) returns (position: Position)
    requires FieldShape(kind, parser.groups) && parser.index == 1
    modifies parser
    ensures parser.groups == old(parser.groups) && parser.index == |parser.groups|
    ensures position == Assemble(kind, parser.groups, id)
  {
    ghost var g := parser.groups;
    DecimalPoint(g[15], 2);
    DecimalPoint(g[17], 3);
    assert IsNumeral(g[1]);
    var history := parser.NextInt();
    var archive := if history == 1 then Some(true) else None;
    var deviceTime := ReadClock(parser);
    var fixTime := ReadClock(parser);
    assert IsNumeral(g[14]);
    var validity := parser.NextInt();
    var latitude := parser.NextCoordinate();
    var longitude := parser.NextCoordinate();
    var rfid := None;
    if kind == Mif {
      var tag := parser.Next();
      rfid := Some(tag);
    }
    position := Position(id, deviceTime, fixTime, validity != 0, latitude, longitude, archive, rfid);
  }

  /**
   * The decoder's walk. It returns what DecodeSpec describes, and on success its cursor
   * has read exactly the declared groups: 20 for MIF, 19 for any other subtype.
   */
  method Decode(sentence: string, resolve: string -> Option<int>)
    returns (r: DecodeResult, ghost consumed: nat)
    ensures r == DecodeSpec(sentence, resolve)
    ensures r.Emitted? ==> consumed == if sentence[5..8] == "MIF" then 20 else 19
  {
    consumed := 0;
    if |sentence| < 8 {
      return IndexOutOfBounds, consumed;
    }
    var subtype := sentence[5..8];
    var kind := if subtype == "MIF" then Mif else Other;
    var parser := new Parser(PatternOf(kind), sentence);
    var matched := parser.Matches();
    if !matched {
      return Rejected, consumed;
    }
    assert parser.groups == SentenceGroups(sentence);
    var imei := parser.Next();
    var id := resolve(imei);
    if id.None? {
      return Rejected, parser.index;
    }
    var position := ReadPosition(parser, kind, id.value);
    r := Emitted(position);
    consumed := parser.index;
  }
}
