/**
 * What `decode` promises about every sentence, stated through the message a
 * sentence spells: when it emits a record, when it returns `null`, and how each
 * field of the record follows from the text.
 */
module GnxProperties {
  import opened Options
  import opened Text
  import opened Grammar
  import opened GnxPatterns
  import opened GnxDecoder
  import opened GnxSentence

  /**
   * A sentence that decodes to a record is the text of a grammatical message whose
   * identifier resolves, and the record is the one that message's fields describe.
   */
  lemma DecodedSentence(s: string, resolve: string -> Option<int>)
    requires DecodeSpec(s, resolve).Emitted?
    ensures Matched(s)
    ensures Grammatical(Parse(s)) && Render(Parse(s)) == s
    ensures resolve(Parse(s).imei).Some?
    ensures DecodeSpec(s, resolve) == Emitted(Expected(Parse(s), resolve(Parse(s).imei).value))
  {
    ParseRenders(s);
    DecodeRendered(Parse(s), resolve);
  }

  /** The record a decoded sentence yields is the one its message's fields describe. */
  lemma DecodedRecord(s: string, resolve: string -> Option<int>)
    requires DecodeSpec(s, resolve).Emitted?
    ensures Matched(s) && Grammatical(Parse(s)) && resolve(Parse(s).imei).Some?
    ensures DecodeSpec(s, resolve).position == Expected(Parse(s), resolve(Parse(s).imei).value)
  {
    DecodedSentence(s, resolve);
  }

  /**
   * `decode` emits a record exactly for the texts of grammatical messages whose
   * identifier resolves; it returns `null` for every other sentence of at least 8
   * characters, and throws on shorter ones.
   */
  lemma DecodeEmittedIff(s: string, resolve: string -> Option<int>)
    ensures DecodeSpec(s, resolve).Emitted?
        <==> exists m :: Grammatical(m) && Render(m) == s && resolve(m.imei).Some?
    ensures DecodeSpec(s, resolve).Rejected?
        <==> |s| >= 8 && !exists m :: Grammatical(m) && Render(m) == s && resolve(m.imei).Some?
  {
    if DecodeSpec(s, resolve).Emitted? {
      DecodedSentence(s, resolve);
      var m := Parse(s);
      assert Grammatical(m) && Render(m) == s && resolve(m.imei).Some?;
    }
    if exists m :: Grammatical(m) && Render(m) == s && resolve(m.imei).Some? {
      var m :| Grammatical(m) && Render(m) == s && resolve(m.imei).Some?;
      DecodeRendered(m, resolve);
    }
  }

  /**
   * The groups the decoder's cursor walks are the captured fields of the message
   * the sentence spells; the identifier is the first of them.
   */
  lemma ParseGroups(s: string)
    requires Matched(s)
    ensures SentenceGroups(s) == GroupTexts(Parse(s))
    ensures SentenceGroups(s)[0] == Parse(s).imei
  {
    ParseRenders(s);
    RenderedGroups(Parse(s));
  }

  /** A matched sentence whose identifier does not resolve decodes to `null`. */
  lemma UnknownDeviceRejected(s: string, resolve: string -> Option<int>)
    requires Matched(s) && resolve(Parse(s).imei).None?
    ensures DecodeSpec(s, resolve) == Rejected
  {
    ParseRenders(s);
    DecodeRendered(Parse(s), resolve);
  }

  /** A record carries the device its sentence's identifier resolves to. */
  lemma DeviceOfRecord(s: string, resolve: string -> Option<int>)
    requires DecodeSpec(s, resolve).Emitted?
    ensures Matched(s)
    ensures resolve(Parse(s).imei) == Some(DecodeSpec(s, resolve).position.deviceId)
  {
    DecodedRecord(s, resolve);
  }

  /** The archive attribute is present, and true, exactly for history 1; for history 0 it is absent, never false. */
  lemma ArchiveFlag(s: string, resolve: string -> Option<int>)
    requires DecodeSpec(s, resolve).Emitted?
    ensures Matched(s)
    ensures var archive := DecodeSpec(s, resolve).position.archive;
      && (archive == Some(true) <==> Parse(s).history == '1')
      && (archive == None <==> Parse(s).history == '0')
      && archive != Some(false)
  {
    DecodedRecord(s, resolve);
    var m := Parse(s);
    assert m.history == '0' || m.history == '1';
  }

  /** Validity is true exactly when the validity digit is not 0. */
  lemma Validity(s: string, resolve: string -> Option<int>)
    requires DecodeSpec(s, resolve).Emitted?
    ensures Matched(s)
    ensures DecodeSpec(s, resolve).position.valid <==> Parse(s).validity != '0'
  {
    DecodedRecord(s, resolve);
  }

  /**
   * Both timestamps are read alike, each from a time field and the date field that
   * follows it, in the same GMT+5:30 zone.
   */
  lemma Timestamps(s: string, resolve: string -> Option<int>)
    requires DecodeSpec(s, resolve).Emitted?
    ensures Matched(s) && Grammatical(Parse(s))
    ensures var p, m := DecodeSpec(s, resolve).position, Parse(s);
      && p.deviceTime == TimestampOf(m.deviceTime, m.deviceDate)
      && p.fixTime == TimestampOf(m.fixTime, m.fixDate)
      && p.deviceTime.offsetMinutes == p.fixTime.offsetMinutes == GmtPlus530
  {
    DecodedRecord(s, resolve);
  }

  /**
   * Each component of a timestamp is a two-digit value below 100, and a two-digit
   * year is counted from 2000.
   */
  lemma TimestampRange(time: Triple, date: Triple)
    requires TripleDigits(time) && TripleDigits(date)
    ensures var t := TimestampOf(time, date);
      && 2000 <= t.year < 2100 && 0 <= t.month < 100 && 0 <= t.day < 100
      && 0 <= t.hour < 100 && 0 <= t.minute < 100 && 0 <= t.second < 100
      && t.offsetMinutes == 330
  {
    var t := TimestampOf(time, date);
    assert t.year == 2000 + Component(date.third);
  }

  /**
   * A coordinate is the numeral its digits spell once the point is dropped, scaled
   * by the number of fraction digits and negated for the southern or western hemisphere.
   */
  lemma CoordinateValue(text: string, whole: nat, negative: bool)
    requires IsDecimal(text, whole)
    ensures AllIn(text[..whole] + text[whole + 1..], Digit)
    ensures CoordinateOf(text, whole, negative)
         == Degrees((if negative then -1 else 1) * NumeralValue(text[..whole] + text[whole + 1..]), |text| - whole - 1)
  {
    NumeralAppend(text[..whole], text[whole + 1..]);
  }

  /**
   * Latitude is the first coordinate field, negated exactly for `S`; longitude the
   * second, negated exactly for `W`.
   */
  lemma CoordinateSigns(s: string, resolve: string -> Option<int>)
    requires DecodeSpec(s, resolve).Emitted?
    ensures Matched(s) && Grammatical(Parse(s))
    ensures var p, m := DecodeSpec(s, resolve).position, Parse(s);
      && p.latitude == CoordinateOf(m.latitude, 2, m.latHemisphere == 'S')
      && p.longitude == CoordinateOf(m.longitude, 3, m.lonHemisphere == 'W')
  {
    DecodedRecord(s, resolve);
  }

  /**
   * A record carries an RFID exactly when the subtype is `MIF`, and then it is the
   * non-empty, comma-free token of the sentence's RFID field.
   */
  lemma RfidIffMif(s: string, resolve: string -> Option<int>)
    requires DecodeSpec(s, resolve).Emitted?
    ensures Matched(s)
    ensures var rfid := DecodeSpec(s, resolve).position.rfid;
      && (rfid.Some? <==> s[5..8] == "MIF")
      && (rfid.Some? ==> Parse(s).variant.Tagged? && rfid.value == Parse(s).variant.rfid)
      && (rfid.Some? ==> |rfid.value| >= 1 && AllIn(rfid.value, NotComma))
  {
    DecodedSentence(s, resolve);
  }

  /**
   * A sentence that spells a message's header and its first k location slots, but
   * continues with text slot k cannot start with, decodes to `null`.
   */
  lemma TruncatedRejected(m: Message, k: nat, tail: string, resolve: string -> Option<int>)
    requires Grammatical(m) && k < 32
    requires k > 0 ==> !Greedy(PatternLocation[k - 1].atom)
    requires Span(PatternLocation[k].atom, tail) == None
    ensures DecodeSpec(Concat(HeadPieces(m.variant) + LocationPieces(m)[..k]) + tail, resolve) == Rejected
  {
    var v := m.variant;
    var kind := KindOf(v);
    var head, q := HeadPieces(v), LocationPieces(m)[..k];
    var s := Concat(head + q) + tail;
    HeaderText(v, q);
    assert s[5..8] == Concat(head + q)[5..8];
    PatternSplit(kind);
    EndsFit(v, m.trailer);
    LocationFits(m);
    FitsPrefix(PatternLocation, LocationPieces(m), k);
    FitsAppend(HeadSlots(kind), PatternLocation[..k], head, q);
    PrefixRejects(HeadSlots(kind), PatternLocation, TailSlots(kind), k, head + q, tail);
  }

  /**
   * A history field that is not a single 0 or 1 followed by a comma is rejected:
   * another first character, a second character before the comma (`10`, `01`), or
   * no comma at all.
   */
  lemma HistoryOutOfRange(m: Message, tail: string, resolve: string -> Option<int>)
    requires Grammatical(m)
    requires !(|tail| >= 2 && tail[0] in "01" && tail[1] == ',')
    ensures DecodeSpec(Concat(HeadPieces(m.variant) + LocationPieces(m)[..4]) + tail, resolve) == Rejected
  {
    if tail == [] || tail[0] !in "01" {
      HistoryDigitMissing(m, tail, resolve);
    } else {
      HistoryCommaMissing(m.(history := tail[0]), tail[1..], resolve);
      HistoryPrefix(m, tail[0], HeadPieces(m.variant));
      ConcatSnoc(HeadPieces(m.variant) + LocationPieces(m)[..4], [tail[0]], tail[1..]);
      assert [tail[0]] + tail[1..] == tail;
    }
  }

  /** A history field that does not start with 0 or 1 is rejected. */
  lemma HistoryDigitMissing(m: Message, tail: string, resolve: string -> Option<int>)
    requires Grammatical(m)
    requires tail == [] || tail[0] !in "01"
    ensures DecodeSpec(Concat(HeadPieces(m.variant) + LocationPieces(m)[..4]) + tail, resolve) == Rejected
  {
    LocationSlots();
    TruncatedRejected(m, 4, tail, resolve);
  }

  /** A valid history digit not followed by a comma is rejected. */
  lemma HistoryCommaMissing(m: Message, tail: string, resolve: string -> Option<int>)
    requires Grammatical(m)
    requires tail == [] || tail[0] != ','
    ensures DecodeSpec(Concat(HeadPieces(m.variant) + LocationPieces(m)[..5]) + tail, resolve) == Rejected
  {
    LocationSlots();
    TruncatedRejected(m, 5, tail, resolve);
  }

  /** A device hour that is not two digits is rejected. */
  lemma TimeNotDigits(m: Message, tail: string, resolve: string -> Option<int>)
    requires Grammatical(m)
    requires |tail| < 2 || !IsDigit(tail[0]) || !IsDigit(tail[1])
    ensures DecodeSpec(Concat(HeadPieces(m.variant) + LocationPieces(m)[..6]) + tail, resolve) == Rejected
  {
    LocationSlots();
    TruncatedRejected(m, 6, tail, resolve);
  }

  /** A latitude with three or more whole digits, such as `1234.5678`, is rejected. */
  lemma LatitudeTooWide(m: Message, tail: string, resolve: string -> Option<int>)
    requires Grammatical(m)
    requires |tail| >= 3 && IsDigit(tail[0]) && IsDigit(tail[1]) && IsDigit(tail[2])
    ensures DecodeSpec(Concat(HeadPieces(m.variant) + LocationPieces(m)[..24]) + tail, resolve) == Rejected
  {
    LocationSlots();
    TruncatedRejected(m, 24, tail, resolve);
  }

  /** A sentence that stops, or goes on with another letter, where the final hemisphere belongs is rejected. */
  lemma HemisphereMissing(m: Message, tail: string, resolve: string -> Option<int>)
    requires Grammatical(m)
    requires tail == [] || tail[0] !in "EW"
    ensures DecodeSpec(Concat(HeadPieces(m.variant) + LocationPieces(m)[..30]) + tail, resolve) == Rejected
  {
    LocationSlots();
    TruncatedRejected(m, 30, tail, resolve);
  }
}
