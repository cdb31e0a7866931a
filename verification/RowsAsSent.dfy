/** The row parsers against the server's side: a row packet laid out as the protocol says is read to its end, and every
    column of the row holds the value that was sent. */
module RowsAsSent {
  import BinaryParsers
  import BitMasks
  import opened Bytes
  import opened JsLiterals
  import opened LengthCoded
  import opened Maybes
  import opened PacketReaders
  import Protocol
  import opened RowPages
  import opened Rows
  import TextParsers
  import TimeValues

  // ---------------------------------------------------------------- what a value is to become
  // The numbers of the protocol page "Column Types", and the options as documented.

  function ZoneOf(o: Options, c: Options): Maybe<Str> {
    if o.timezone.Just? && o.timezone.value != [] then o.timezone else c.timezone
  }

  predicate WantsText(t: nat, o: Options, c: Options) {
    match if o.dateStrings != NoDateStrings then o.dateStrings else c.dateStrings
    case NoDateStrings => false
    case AllDateStrings => true
    case DateStringsOf(names) =>
      || (t == 0x0a && Text("DATE") in names)
      || (t == 0x0c && Text("DATETIME") in names)
      || (t == 0x07 && Text("TIMESTAMP") in names)
  }

  /** Integers of BIGINT columns can be too large for a number. */
  function WantedInteger(t: nat, n: int, made: Js, o: Options, c: Options): Js {
    var big := o.supportBigNumbers || c.supportBigNumbers;
    if t == 0x08 && big && (o.bigNumberStrings || c.bigNumberStrings) then made
    else if -0x1f_ffff_ffff_ffff <= n <= 0x1f_ffff_ffff_ffff then Number(n)
    else if big then made
    else Rounded(n)
  }

  predicate IsMidnight(v: SqlValue)
    requires v.DateValue?
  {
    v.hour == 0 && v.minute == 0 && v.second == 0 && v.microseconds == 0
  }

  /** The zero date; where the zone is an offset, any time of that day. */
  predicate IsZeroDate(v: SqlValue, zone: Maybe<Str>)
    requires v.DateValue?
  {
    && v.year == 0 && v.month == 0 && v.day == 0
    && (IsMidnight(v) || (zone.Just? && zone.value != [] && zone.value != Text("local") && zone.value != Text("Z")))
  }

  /** Year, month and day; the time except for a DATE at midnight; a fraction if there is one. */
  function WantedDateText(v: SqlValue, decimals: nat, t: nat): string
    requires v.DateValue?
  {
    TimeValues.LeftPad(4, v.year) + "-" + TimeValues.LeftPad(2, v.month) + "-" + TimeValues.LeftPad(2, v.day) +
    (if t == 0x0a && IsMidnight(v) then ""
     else " " + TimeValues.LeftPad(2, v.hour) + ":" + TimeValues.LeftPad(2, v.minute) + ":" +
          TimeValues.LeftPad(2, v.second)) +
    if v.microseconds == 0 then ""
    else if decimals == 0 then "." + TimeValues.Digits(v.microseconds)
    else
      "." + var digits := TimeValues.LeftPad(6, v.microseconds);
            if decimals < |digits| then digits[..decimals] else digits
  }

  function WantedDate(f: Field, v: SqlValue, o: Options, c: Options): Js
    requires v.DateValue?
  {
    if WantsText(f.columnType, o, c) then MadeText(WantedDateText(v, f.decimals, f.columnType))
    else if IsZeroDate(v, ZoneOf(o, c)) then InvalidDate
    else DateJs(v.year, v.month, v.day, v.hour, v.minute, v.second, v.microseconds, ZoneOf(o, c))
  }

  /** Documents and decimals as the connection's options ask, text in the column's encoding, binary data as it is. */
  function WantedData(f: Field, d: Buffer, o: Options, c: Options): Js {
    var t, big := f.columnType, o.supportBigNumbers || c.supportBigNumbers;
    if f.extendedFormat == Just(Text("json")) then
      if c.jsonStrings then StringJs(d, Given(f.encoding)) else JsonJs(d, Given(f.encoding), big)
    else if t == 0xf5 then if c.jsonStrings then StringJs(d, Utf8) else JsonJs(d, Utf8, big)
    else if t == 0x00 || t == 0xf6 then
      if !c.decimalNumbers then StringJs(d, Ascii) else if d == [] then Number(0) else NumberOf(d)
    else if t == 0xff then if d == [] then NullJs else GeometryJs(d)
    else if t == 0xf2 then VectorJs(Floats(d))
    else if f.characterSet == 63 then BufferJs(d)
    else StringJs(d, Given(f.encoding))
  }

  // ---------------------------------------------------------------- one value of a binary row

  predicate IsFixedWidth(v: SqlValue) {
    v.IntegerValue? || v.DoubleValue? || v.FloatValue?
  }

  /** The bytes of a value as a column of this type holds them; vectors are whole floats. */
  predicate IsBinaryColumn(f: Field, b: Buffer, v: SqlValue) {
    && IsBinaryValue(b, f.columnType, f.flags / 0x20 % 2 == 1, v)
    && (f.extendedFormat == Just(Text("json")) ==> v.DataValue?)
    && (f.columnType == 0xf2 && v.DataValue? ==> |v.data| % 4 == 0)
  }

  function WantedBinary(f: Field, v: SqlValue, o: Options, c: Options): Js {
    match v
    case IntegerValue(n) => WantedInteger(f.columnType, n, MadeText(IntegerText(n)), o, c)
    case DoubleValue(bytes) => DoubleJs(bytes)
    case FloatValue(bytes) => FloatJs(bytes)
    case DateValue(_, _, _, _, _, _, _) => WantedDate(f, v, o, c)
    case TimeValue(negative, days, hours, minutes, seconds, microseconds) =>
      MadeText(TimeValues.TimeText(TimeValues.TimeParts(negative, days, hours, minutes, seconds, microseconds)))
    case DataValue(d) => WantedData(f, d, o, c)
  }

  lemma FixedAt(b: Buffer, at: nat, part: Buffer, n: nat)
    requires Holds(b, at, part) && 1 <= |part| <= 4 && Protocol.IsFixedLength(part, n)
    ensures at + |part| <= |b| && FromLe(b[at..at + |part|]) == n
  {
    hide FromLe, Protocol.IsFixedLength;
    FromLeIsFixedLength(part);
    OneNumber(part, n, FromLe(part));
  }

  lemma IntegerRead(b: Buffer, at: nat, part: Buffer, width: nat, n: int, signed: bool)
    requires width in {1, 2, 4} && Holds(b, at, part) && IsTwosComplement(part, width, n, Pow256(width))
    requires if signed then Within(n, false, Pow256(width) / 2) else Within(n, true, Pow256(width) / 2)
    ensures IntegerAt(b, at, width, signed) == (Number(n), at + width)
  {
    Pow256Values();
    hide FromLe, Pow256, Protocol.IsFixedLength;
    FixedAt(b, at, part, if n >= 0 then n else n + Pow256(width));
  }

  lemma Int64Read(b: Buffer, at: nat, part: Buffer, n: int, signed: bool)
    requires Holds(b, at, part) && IsTwosComplement(part, 8, n, 0x1_0000_0000_0000_0000)
    requires Within(n, !signed, 0x8000_0000_0000_0000)
    ensures Int64At(b, at, signed) == Just(n)
  {
    Pow256Values();
    hide FromLe, Pow256, Protocol.IsFixedLength;
    FromWordsIsFixedLength(part);
    OneNumber(part, if n >= 0 then n else n + 0x1_0000_0000_0000_0000, FromWords(part));
    HoldsAt(b, at, part, 0, 4);
    HoldsAt(b, at, part, 4, 8);
    assert part[0..4] == part[..4] && part[4..8] == part[4..];
    WordBound(part[..4]);
    WordBound(part[4..]);
  }

  lemma WordBound(word: Buffer)
    requires |word| == 4
    ensures FromLe(word) < TWO32
  {
    Pow256Values();
    FromLeRoundTrip(word);
  }

  lemma BinaryIntegerRead(f: Field, o: Options, c: Options, n: int, b: Buffer, at: nat, part: Buffer)
    requires IsBinaryColumn(f, part, IntegerValue(n)) && Holds(b, at, part)
    ensures ReadPacket(BinaryParsers.ReadOf(f, o, c), b, at) ==
            (WantedBinary(f, IntegerValue(n), o, c), at + |part|)
  {
    Pow256Values();
    hide Pow256, IntegerAt, Int64At, Protocol.IsFixedLength, Holds, IntegerText;
    var t, unsigned := f.columnType, f.flags / 0x20 % 2 == 1;
    if t == 0x01 {
      IntegerRead(b, at, part, 1, n, !unsigned);
    } else if t == 0x02 {
      IntegerRead(b, at, part, 2, n, !unsigned);
    } else if t == 0x0d {
      IntegerRead(b, at, part, 2, n, false);
    } else if t == 0x08 {
      Int64Read(b, at, part, n, !unsigned);
    } else {
      IntegerRead(b, at, part, 4, n, !unsigned);
    }
  }

  // ---------------------------------------------------------------- dates and times

  function LengthOf(v: SqlValue): nat
    requires v.DateValue?
  {
    if v.year == 0 && v.month == 0 && v.day == 0 && IsMidnight(v) then 0
    else if IsMidnight(v) then 4
    else if v.microseconds == 0 then 7
    else 11
  }

  lemma DateFieldsRead(v: SqlValue, b: Buffer, at: nat, part: Buffer)
    requires v.DateValue? && IsBinaryDate(part, v) && Holds(b, at, part)
    ensures |part| == 1 + LengthOf(v)
    ensures DateFieldsAt(b, at) ==
            Just(DateFields(LengthOf(v), v.year, v.month, v.day, v.hour, v.minute, v.second, v.microseconds))
  {
    hide FromLe, Protocol.IsFixedLength, Holds;
    HoldsAt(b, at, part, 0, |part|);
    if |part| > 1 {
      HoldsAt(b, at, part, 1, 3);
      HoldsAt(b, at, part, 3, |part|);
      HoldsAt(b, at, part, 4, |part|);
      PartAt(part[1..3], v.year);
    }
    if |part| > 5 {
      HoldsAt(b, at, part, 5, |part|);
      HoldsAt(b, at, part, 6, |part|);
      HoldsAt(b, at, part, 7, |part|);
    }
    if |part| > 8 {
      HoldsAt(b, at, part, 8, 12);
      PartAt(part[8..12], v.microseconds);
    }
  }

  lemma PartAt(part: Buffer, n: nat)
    requires 1 <= |part| <= 4 && Protocol.IsFixedLength(part, n)
    ensures FromLe(part) == n
  {
    hide FromLe, Protocol.IsFixedLength;
    FromLeIsFixedLength(part);
    OneNumber(part, n, FromLe(part));
  }

  lemma ZeroDateText()
    ensures TimeValues.LeftPad(4, 0) == "0000" && TimeValues.LeftPad(2, 0) == "00"
  {
    assert TimeValues.Digits(0) == "0";
    assert TimeValues.Zeroes(1) == "0" && TimeValues.Zeroes(2) == "00" && TimeValues.Zeroes(3) == "000";
  }

  lemma DateTextMade(v: SqlValue, decimals: nat, t: nat)
    requires v.DateValue? && (t == 0x07 || t == 0x0a || t == 0x0c)
    ensures DateText(DateFields(LengthOf(v), v.year, v.month, v.day, v.hour, v.minute, v.second, v.microseconds),
                     decimals, t) ==
            WantedDateText(v, decimals, t)
  {
    ZeroDateText();
    hide TimeValues.LeftPad, TimeValues.Digits;
    assert "0000" + "-" + "00" + "-" + "00" == "0000-00-00";
    assert " " + "00" + ":" + "00" + ":" + "00" == " 00:00:00";
  }

  lemma TextsWanted(f: Field, o: Options, c: Options)
    requires f.columnType == 0x07 || f.columnType == 0x0a || f.columnType == 0x0c
    ensures TypeMatch(f.columnType, DateStringsFor(o, c)) <==> WantsText(f.columnType, o, c)
  {
    var d := DateStringsFor(o, c);
    if d.DateStringsOf? {
      TypeNames();
      var name := if f.columnType == 0x07 then Text("TIMESTAMP")
      else if f.columnType == 0x0a then Text("DATE") else Text("DATETIME");
      assert TypeCode(name) == Just(f.columnType);
      assert forall n :: TypeCode(n) == Just(f.columnType) ==> n == name;
    }
  }

  lemma TypeNames()
    ensures |Text("DATE")| == 4 && |Text("DATETIME")| == 8 && |Text("TIMESTAMP")| == 9 && |Text("NEWDATE")| == 7
  {
  }

  lemma BinaryDateRead(f: Field, o: Options, c: Options, v: SqlValue, b: Buffer, at: nat, part: Buffer)
    requires v.DateValue? && IsBinaryColumn(f, part, v) && Holds(b, at, part)
    ensures ReadPacket(BinaryParsers.ReadOf(f, o, c), b, at) == (WantedBinary(f, v, o, c), at + |part|)
  {
    hide DateFieldsAt, DateText, WantedDateText, TypeMatch, WantsText, Holds, DateStringsFor;
    DateFieldsRead(v, b, at, part);
    TextsWanted(f, o, c);
    DateTextMade(v, f.decimals, f.columnType);
  }

  lemma BinaryTimeRead(v: SqlValue, b: Buffer, at: nat, part: Buffer)
    requires v.TimeValue? && IsBinaryTime(part, v) && Holds(b, at, part)
    ensures TimeValues.ReadTime(b, at) ==
            Just((TimeValues.TimeParts(v.negative, v.days, v.hours, v.minutes, v.seconds, v.microseconds), at + |part|))
  {
    hide FromLe, Protocol.IsFixedLength, Holds;
    HoldsAt(b, at, part, 0, |part|);
    if |part| > 1 {
      HoldsAt(b, at, part, 1, |part|);
      HoldsAt(b, at, part, 2, 6);
      HoldsAt(b, at, part, 6, |part|);
      HoldsAt(b, at, part, 7, |part|);
      HoldsAt(b, at, part, 8, |part|);
      PartAt(part[2..6], v.days);
    }
    if |part| > 9 {
      HoldsAt(b, at, part, 9, 13);
      PartAt(part[9..13], v.microseconds);
    }
  }

  lemma ZeroTimeText()
    ensures TimeValues.TimeText(TimeValues.TimeParts(false, 0, 0, 0, 0, 0)) == "00:00:00"
  {
    ZeroDateText();
    hide TimeValues.LeftPad;
    assert "" + "00" + ":" + "00" + ":" + "00" + "" == "00:00:00";
  }

  // ---------------------------------------------------------------- length-encoded data

  lemma DataRead(read: Read, b: Buffer, at: nat, part: Buffer, d: Buffer)
    requires IsData(part, d) && Holds(b, at, part)
    ensures PacketReaders.LengthCodedAt(read, b, at) ==
            (if read.LengthCodedNumber? then (Number(|d|), at + |part| - |d|)
             else (Converted(read, d), ConvertedEnd(read, at + |part| - |d|, |d|)))
  {
    hide Protocol.IsLengthEncoded, Holds, Converted, ConvertedEnd, PacketReaders.LengthCodedAt, IsData;
    var count := CountOf(part, d);
    CountedData(read, b, at, count, d);
    assert |count| == |part| - |d|;
  }

  lemma CountOf(part: Buffer, d: Buffer) returns (count: Buffer)
    requires IsData(part, d)
    ensures Protocol.IsLengthEncoded(count, |d|) && part == count + d
  {
    hide Protocol.IsLengthEncoded;
    var k :| 0 <= k <= |part| && Protocol.IsLengthEncoded(part[..k], |d|) && part[k..] == d;
    count := part[..k];
  }

  lemma CountedData(read: Read, b: Buffer, at: nat, count: Buffer, d: Buffer)
    requires Protocol.IsLengthEncoded(count, |d|) && Holds(b, at, count + d)
    ensures PacketReaders.LengthCodedAt(read, b, at) ==
            (if read.LengthCodedNumber? then (Number(|d|), at + |count|)
             else (Converted(read, d), ConvertedEnd(read, at + |count|, |d|)))
  {
    hide ReadLc, Protocol.IsLengthEncoded, Holds, Converted, ConvertedEnd, PacketReaders.LengthCodedAt, Slice;
    HoldsSplit(b, at, count, d);
    ReadsLengthEncoded(b, at, count, |d|);
    SliceHeld(b, at + |count|, d);
    LengthRead(read, b, at, at + |count|, d);
  }

  lemma LengthRead(read: Read, b: Buffer, at: nat, start: nat, d: Buffer)
    requires ReadLc(b, at) == LcNumber(|d|, start) && Slice(b, start, |d|) == d
    ensures PacketReaders.LengthCodedAt(read, b, at) ==
            (if read.LengthCodedNumber? then (Number(|d|), start)
             else (Converted(read, d), ConvertedEnd(read, start, |d|)))
  {
    hide ReadLc, Slice, Converted, ConvertedEnd;
    NoText(read);
  }

  lemma NoText(read: Read)
    ensures read.LengthCodedFloat? ==> Converted(read, []) == Number(0)
    ensures read.LengthCodedFloat? ==> forall at: nat :: ConvertedEnd(read, at, 0) == at
  {
  }

  lemma SliceHeld(b: Buffer, at: nat, d: Buffer)
    requires Holds(b, at, d)
    ensures Slice(b, at, |d|) == d
  {
  }

  lemma BinaryDataRead(f: Field, o: Options, c: Options, d: Buffer, b: Buffer, at: nat, part: Buffer)
    requires IsBinaryColumn(f, part, DataValue(d)) && Holds(b, at, part)
    ensures ReadPacket(BinaryParsers.ReadOf(f, o, c), b, at) == (WantedBinary(f, DataValue(d), o, c), at + |part|)
  {
    hide PacketReaders.LengthCodedAt, Holds, IsData;
    DataRead(BinaryParsers.ReadOf(f, o, c), b, at, part, d);
    DataLength(part, d);
  }

  lemma DataLength(part: Buffer, d: Buffer)
    requires IsData(part, d)
    ensures |part| > |d|
  {
  }

  /** What a value becomes without type casts: its bytes, without their length. */
  function Raw(v: SqlValue, part: Buffer): Buffer {
    if v.DataValue? then v.data else if IsFixedWidth(v) || part == [] then part else part[1..]
  }

  function WantedCell(f: Field, v: SqlValue, part: Buffer, o: Options, c: Options): Js {
    if o.typeCast.CastFalse? then BufferJs(Raw(v, part)) else WantedBinary(f, v, o, c)
  }

  lemma RawRead(v: SqlValue, t: nat, unsigned: bool, b: Buffer, at: nat, part: Buffer)
    requires IsBinaryValue(part, t, unsigned, v) && !IsFixedWidth(v) && Holds(b, at, part)
    ensures ReadPacket(LengthCodedBuffer, b, at) == (BufferJs(Raw(v, part)), at + |part|)
  {
    hide Holds, IsData, IsBinaryDate, IsBinaryTime, PacketReaders.LengthCodedAt;
    if v.DataValue? {
      DataRead(LengthCodedBuffer, b, at, part, v.data);
      DataLength(part, v.data);
    } else {
      CountedPart(v, part);
      CountedRead(b, at, part);
    }
  }

  lemma CountedPart(v: SqlValue, part: Buffer)
    requires (v.DateValue? && IsBinaryDate(part, v)) || (v.TimeValue? && IsBinaryTime(part, v))
    ensures 1 <= |part| <= 13 && part[0] == |part| - 1
  {
    hide Protocol.IsFixedLength;
  }

  /** A length byte and as many bytes. */
  lemma CountedRead(b: Buffer, at: nat, part: Buffer)
    requires 1 <= |part| <= 13 && part[0] == |part| - 1 && Holds(b, at, part)
    ensures PacketReaders.LengthCodedAt(LengthCodedBuffer, b, at) == (BufferJs(part[1..]), at + |part|)
  {
    hide FromLe, FromWords;
    HoldsAt(b, at, part, 0, |part|);
    HoldsAt(b, at, part, 1, |part|);
    assert part[1..|part|] == part[1..];
  }

  /** Without type casts every value is read as length-encoded, and so its bytes are found, and nothing more is
      consumed, exactly for the values that carry a length: not for the numbers of a fixed width. */
  lemma RawExactly(v: SqlValue, t: nat, unsigned: bool, b: Buffer, at: nat, part: Buffer)
    requires IsBinaryValue(part, t, unsigned, v) && Holds(b, at, part)
    ensures ReadPacket(LengthCodedBuffer, b, at) == (BufferJs(Raw(v, part)), at + |part|) <==> !IsFixedWidth(v)
  {
    hide IsBinaryValue, Holds, Raw;
    if IsFixedWidth(v) {
      FixedWidthRaw(v, t, unsigned, part);
      assert at < |b| by { hide *; HeldBytes(b, at, part); }
      NeverWhole(b, at, part);
    } else {
      RawRead(v, t, unsigned, b, at, part);
    }
  }

  lemma FixedWidthRaw(v: SqlValue, t: nat, unsigned: bool, part: Buffer)
    requires IsBinaryValue(part, t, unsigned, v) && IsFixedWidth(v)
    ensures Raw(v, part) == part && part != []
  {
  }

  lemma HeldBytes(b: Buffer, at: nat, part: Buffer)
    requires Holds(b, at, part) && part != []
    ensures at < |b|
  {
  }

  /** A length-encoded value is longer than its data. */
  lemma NeverWhole(b: Buffer, at: nat, part: Buffer)
    requires part != []
    ensures PacketReaders.LengthCodedAt(LengthCodedBuffer, b, at) != (BufferJs(part), at + |part|)
  {
    hide FromLe, FromWords;
  }

  /** The readers of dates go through the cache of local dates for these zones. */
  predicate IsLocalZone(zone: Maybe<Str>) {
    zone.Nothing? || zone.value == [] || zone.value == Text("local")
  }

  /** The parser's constructor checks the time zone for a column exactly if its dates go through that cache. */
  lemma LocalDatesChecked(f: Field, o: Options, c: Options)
    requires o.typeCast.CastDefault? && !IsJsonFormat(f)
    ensures UsesLocalDate(f, o, c) <==>
            var read := BinaryParsers.ReadOf(f, o, c); read.DateTime? && IsLocalZone(read.timezone)
    ensures f.columnType != NEWDATE ==>
              (UsesLocalDate(f, o, c) <==>
               var read := TextParsers.ReadOf(f, o, c);
               (read.ParseDate? || read.ParseDateTime?) && IsLocalZone(read.timezone))
  {
    hide TypeMatch, DateStringsFor, Timezone;
  }

  /** One TINYINT column with the value 5, read without type casts: the 5 is taken for a length, and the parser goes
      past the packet's three bytes. */
  lemma TinyWithoutCasts(f: Field, o: Options, c: Options)
    requires f.columnType == TINY && o.typeCast.CastFalse?
    ensures BinaryParsers.BinaryRow(ReadPacket, [0, 0, 5], 0, [f], o, c).1 == 8
  {
    hide Store, TargetOf, EmptyRow, ReadPacket, BinaryParsers.IsNull, BinaryParsers.NullBytes;
    var b, nulls := [0, 0, 5], [Just(0)];
    NoNulls(b);
    FiveBytes(b);
    assert BinaryParsers.Columns(ReadPacket, b, 2, nulls, [f], o, c, 0).1 == 2;
  }

  lemma NoNulls(b: Buffer)
    requires b == [0, 0, 5]
    ensures BinaryParsers.NullBytes(b, 1, 1) == [Just(0)] && !BinaryParsers.IsNull([Just(0)], 0)
  {
    BinaryParsers.BitValues();
    assert BinaryParsers.NullBytes(b, 1, 0) == [];
  }

  lemma FiveBytes(b: Buffer)
    requires b == [0, 0, 5]
    ensures ReadPacket(LengthCodedBuffer, b, 2).1 == 8
  {
    assert ReadLc(b, 2) == LcNumber(5, 3);
  }

  // ---------------------------------------------------------------- a binary row

  predicate IsPart(f: Field, v: Maybe<SqlValue>, part: Buffer, o: Options) {
    if v.Nothing? then part == []
    else IsBinaryColumn(f, part, v.value) && (o.typeCast.CastFalse? ==> !IsFixedWidth(v.value))
  }

  /** A row of values that the server can send for these columns, and of which casts can be left out. */
  predicate IsBinaryRow(fields: seq<Field>, values: seq<Maybe<SqlValue>>, bitmap: Buffer, parts: seq<Buffer>,
                        o: Options)
  {
    && |values| == |parts| == |fields| && IsNullBitmap(bitmap, values)
    && forall i :: 0 <= i < |fields| ==> IsPart(fields[i], values[i], parts[i], o)
  }

  function CellSent(f: Field, v: Maybe<SqlValue>, part: Buffer, o: Options, c: Options): Cell<Js> {
    if v.Nothing? then Null else Of(WantedCell(f, v.value, part, o, c))
  }

  lemma BinaryCellRead(f: Field, o: Options, c: Options, v: SqlValue, b: Buffer, at: nat, part: Buffer)
    requires IsBinaryColumn(f, part, v) && Holds(b, at, part) && (o.typeCast.CastFalse? ==> !IsFixedWidth(v))
    ensures ReadCell(ReadPacket, BinaryParsers.CellRead(f, o, c), b, at) ==
            (Of(WantedCell(f, v, part, o, c)), at + |part|)
  {
    hide Holds, BinaryParsers.ReadOf, ReadPacket, IsBinaryDate, IsBinaryTime, IsData, IsBinaryInteger, WantedDate,
      WantedData, WantedInteger, Raw, TimeValues.TimeText, IntegerText;
    NeverUnread(f, part, v, o, c);
    if o.typeCast.CastFalse? {
      RawRead(v, f.columnType, f.flags / 0x20 % 2 == 1, b, at, part);
    } else {
      match v
      case IntegerValue(n) => BinaryIntegerRead(f, o, c, n, b, at, part);
      case DateValue(_, _, _, _, _, _, _) => BinaryDateRead(f, o, c, v, b, at, part);
      case TimeValue(_, _, _, _, _, _) => BinaryTimeCell(f, o, c, v, b, at, part);
      case DataValue(d) => BinaryDataRead(f, o, c, d, b, at, part);
      case _ => BinaryRealRead(f, o, c, v, b, at, part);
    }
  }

  /** Nothing is sent in a column of type NULL. */
  lemma NeverUnread(f: Field, part: Buffer, v: SqlValue, o: Options, c: Options)
    requires IsBinaryColumn(f, part, v)
    ensures !BinaryParsers.CellRead(f, o, c).NoRead?
  {
    hide IsBinaryDate, IsBinaryTime, IsData, IsBinaryInteger, TypeMatch;
  }

  lemma BinaryRealRead(f: Field, o: Options, c: Options, v: SqlValue, b: Buffer, at: nat, part: Buffer)
    requires IsBinaryColumn(f, part, v) && Holds(b, at, part) && (v.DoubleValue? || v.FloatValue?)
    ensures ReadPacket(BinaryParsers.ReadOf(f, o, c), b, at) == (WantedBinary(f, v, o, c), at + |part|)
  {
  }

  lemma BinaryTimeCell(f: Field, o: Options, c: Options, v: SqlValue, b: Buffer, at: nat, part: Buffer)
    requires IsBinaryColumn(f, part, v) && Holds(b, at, part) && v.TimeValue?
    ensures ReadPacket(BinaryParsers.ReadOf(f, o, c), b, at) == (WantedBinary(f, v, o, c), at + |part|)
  {
    hide TimeValues.TimeText, TimeValues.ReadTime, Protocol.IsFixedLength;
    BinaryTimeRead(v, b, at, part);
    HeldFirst(b, at, part);
    ZeroTimeText();
  }

  lemma HeldFirst(b: Buffer, at: nat, part: Buffer)
    requires Holds(b, at, part) && part != []
    ensures at < |b| && b[at] == part[0]
  {
    HoldsAt(b, at, part, 0, |part|);
  }

  lemma BitmapLength(bitmap: Buffer, values: seq<Maybe<SqlValue>>)
    requires IsNullBitmap(bitmap, values)
    ensures |bitmap| == BinaryParsers.NullBitmapLength(|values|)
  {
  }

  lemma {:induction false} NullBytesRead(b: Buffer, offset: nat, bitmap: Buffer, n: nat)
    requires Holds(b, offset, bitmap) && n <= |bitmap|
    ensures var nulls := BinaryParsers.NullBytes(b, offset, n);
            forall k :: 0 <= k < n ==> nulls[k] == Just(bitmap[k])
  {
    hide Holds;
    if n > 0 {
      NullBytesRead(b, offset, bitmap, n - 1);
      HoldsAt(b, offset, bitmap, n - 1, n);
    }
  }

  predicate ReadsNull(nulls: seq<Maybe<Byte>>, i: nat) {
    (i + 2) / 8 < |nulls| && BinaryParsers.IsNull(nulls, i)
  }

  lemma NullsRead(bitmap: Buffer, values: seq<Maybe<SqlValue>>, nulls: seq<Maybe<Byte>>, i: nat)
    requires IsNullBitmap(bitmap, values) && i < |values| && |nulls| == |bitmap|
    requires forall k :: 0 <= k < |bitmap| ==> nulls[k] == Just(bitmap[k])
    ensures ReadsNull(nulls, i) <==> values[i].Nothing?
  {
    BinaryParsers.BitValues();
    hide BitMasks.Pow2;
    assert BitIsSet(bitmap, i + 2) <==> values[i].Nothing?;
    assert nulls[(i + 2) / 8] == Just(bitmap[(i + 2) / 8]);
  }

  /** The row that holds these cells: each is stored where the options send its column. */
  function Stored(fields: seq<Field>, o: Options, cells: seq<Cell<Js>>, n: nat): Row<Js>
    requires n <= |fields| == |cells|
  {
    if n == 0 then EmptyRow(o, |fields|)
    else Store(Stored(fields, o, cells, n - 1), TargetOf(o, fields[n - 1], n - 1), cells[n - 1])
  }

  function CellsSent(fields: seq<Field>, values: seq<Maybe<SqlValue>>, parts: seq<Buffer>, o: Options,
                     c: Options): (cells: seq<Cell<Js>>)
    requires |values| == |parts| == |fields|
    ensures |cells| == |fields|
    ensures forall i :: 0 <= i < |fields| ==> cells[i] == CellSent(fields[i], values[i], parts[i], o, c)
  {
    seq(|fields|, i requires 0 <= i < |fields| => CellSent(fields[i], values[i], parts[i], o, c))
  }

  lemma {:induction false} ColumnsRead(b: Buffer, start: nat, bitmap: Buffer, nulls: seq<Maybe<Byte>>,
                                       fields: seq<Field>, values: seq<Maybe<SqlValue>>, parts: seq<Buffer>,
                                       o: Options, c: Options, n: nat)
    requires n <= |fields| && IsBinaryRow(fields, values, bitmap, parts, o)
    requires |nulls| == BinaryParsers.NullBitmapLength(|fields|)
    requires forall i :: 0 <= i < |fields| ==> (ReadsNull(nulls, i) <==> values[i].Nothing?)
    requires Holds(b, start, Concat(parts))
    ensures BinaryParsers.Columns(ReadPacket, b, start, nulls, fields, o, c, n) ==
            (Stored(fields, o, CellsSent(fields, values, parts, o, c), n), start + |Concat(parts[..n])|)
  {
    hide Holds, Store, TargetOf, EmptyRow, ReadCell, BinaryParsers.CellRead, BinaryParsers.IsNull, IsBinaryColumn,
      IsNullBitmap, WantedCell, Concat;
    if n == 0 {
      NoParts(parts);
    } else {
      ColumnsRead(b, start, bitmap, nulls, fields, values, parts, o, c, n - 1);
      PartHeld(b, start, parts, n - 1);
      var at := start + |Concat(parts[..n - 1])|;
      if values[n - 1].Just? {
        BinaryCellRead(fields[n - 1], o, c, values[n - 1].value, b, at, parts[n - 1]);
      }
    }
  }

  lemma NoParts(parts: seq<Buffer>)
    ensures Concat(parts[..0]) == []
  {
  }

  lemma PartHeld(b: Buffer, start: nat, parts: seq<Buffer>, i: nat)
    requires Holds(b, start, Concat(parts)) && i < |parts|
    ensures Concat(parts[..i + 1]) == Concat(parts[..i]) + parts[i]
    ensures Holds(b, start + |Concat(parts[..i])|, parts[i])
  {
    hide Holds, Concat;
    assert parts[..i + 1] == parts[..i] + [parts[i]] && parts == parts[..i + 1] + parts[i + 1..];
    ConcatSnoc(parts[..i], parts[i]);
    ConcatAppend(parts[..i + 1], parts[i + 1..]);
    HoldsSplit(b, start, Concat(parts[..i]) + parts[i], Concat(parts[i + 1..]));
    HoldsSplit(b, start, Concat(parts[..i]), parts[i]);
  }

  lemma BinaryRowStored(fields: seq<Field>, values: seq<Maybe<SqlValue>>, bitmap: Buffer, parts: seq<Buffer>,
                        o: Options, c: Options)
    requires IsBinaryRow(fields, values, bitmap, parts, o)
    ensures var b := [0] + bitmap + Concat(parts);
            BinaryParsers.BinaryRow(ReadPacket, b, 0, fields, o, c) ==
              (Stored(fields, o, CellsSent(fields, values, parts, o, c), |fields|), |b|)
  {
    hide Concat, Holds, BinaryParsers.Columns, BinaryParsers.NullBytes, Stored, IsNullBitmap, IsBinaryColumn,
      ReadsNull, BinaryParsers.NullBitmapLength, CellsSent;
    var b := [0] + bitmap + Concat(parts);
    Whole(b);
    HoldsSplit(b, 0, [0] + bitmap, Concat(parts));
    HoldsSplit(b, 0, [0], bitmap);
    BitmapLength(bitmap, values);
    NullBytesRead(b, 1, bitmap, |bitmap|);
    var nulls := BinaryParsers.NullBytes(b, 1, |bitmap|);
    forall i | 0 <= i < |fields| ensures ReadsNull(nulls, i) <==> values[i].Nothing? {
      NullsRead(bitmap, values, nulls, i);
    }
    ColumnsRead(b, 1 + |bitmap|, bitmap, nulls, fields, values, parts, o, c, |fields|);
    assert parts[..|fields|] == parts;
  }

  lemma Whole(b: Buffer)
    ensures Holds(b, 0, b)
  {
  }

  // ---------------------------------------------------------------- finding a column in a row

  /** What reading the row at a column's place gives. */
  predicate Finds<V(==)>(row: Row<V>, o: Options, f: Field, i: nat, cell: Cell<V>) {
    if o.rowsAsArray then row.elements.Just? && i < |row.elements.value| && row.elements.value[i] == cell
    else
      match o.nestTables
      case NoNest => f.name in row.props && row.props[f.name] == CellOf(cell)
      case NestTables =>
        && f.table in row.props && row.props[f.table].TableOf?
        && f.name in row.props[f.table].cells && row.props[f.table].cells[f.name] == cell
      case NestWith(separator) =>
        var key := f.table + separator + f.name;
        key in row.props && row.props[key] == CellOf(cell)
  }

  /** A later column takes the place of an earlier one of the same name. */
  predicate SamePlace(o: Options, f: Field, g: Field) {
    !o.rowsAsArray &&
    match o.nestTables
    case NoNest => f.name == g.name
    case NestTables => f.table == g.table && f.name == g.name
    case NestWith(separator) => f.table + separator + f.name == g.table + separator + g.name
  }

  predicate IsReplaced(fields: seq<Field>, o: Options, i: nat, n: nat)
    requires i < |fields| && n <= |fields|
  {
    exists j :: i < j < n && SamePlace(o, fields[i], fields[j])
  }

  /** A nested table whose name objects have already cannot be made. */
  predicate IsLost(o: Options, f: Field) {
    !o.rowsAsArray && o.nestTables.NestTables? && IsInherited(f.table)
  }

  /** Rows of the options' form. */
  predicate IsRow<V>(row: Row<V>, o: Options, n: nat) {
    if o.rowsAsArray then row.elements.Just? && |row.elements.value| == n
    else
      && row.elements.Nothing?
      && (o.nestTables.NestTables? ==> forall t :: t in row.props ==> row.props[t].TableOf? && !IsInherited(t))
  }

  lemma StoreFinds<V>(row: Row<V>, o: Options, f: Field, i: nat, cell: Cell<V>, n: nat)
    requires IsRow(row, o, n) && i < n && !IsLost(o, f)
    ensures Finds(Store(row, TargetOf(o, f, i), cell), o, f, i, cell)
  {
    hide IsInherited, IsArrayMethod;
  }

  lemma StoreKeepsForm<V>(row: Row<V>, o: Options, f: Field, i: nat, cell: Cell<V>, n: nat)
    requires IsRow(row, o, n) && i < n
    ensures IsRow(Store(row, TargetOf(o, f, i), cell), o, n)
  {
    hide IsInherited, IsArrayMethod;
  }

  lemma StoreKeeps<V>(row: Row<V>, o: Options, f: Field, i: nat, cell: Cell<V>, g: Field, j: nat, other: Cell<V>,
                      n: nat)
    requires IsRow(row, o, n) && i < j < n && Finds(row, o, f, i, cell) && !SamePlace(o, f, g)
    ensures Finds(Store(row, TargetOf(o, g, j), other), o, f, i, cell)
  {
    hide IsInherited, IsArrayMethod;
  }

  /** Every cell is found at its column's place, unless a later column replaced it. */
  lemma {:induction false} StoredFinds(fields: seq<Field>, o: Options, cells: seq<Cell<Js>>, n: nat)
    requires n <= |fields| == |cells|
    ensures IsRow(Stored(fields, o, cells, n), o, |fields|)
    ensures forall i :: 0 <= i < n && !IsReplaced(fields, o, i, n) && !IsLost(o, fields[i]) ==>
              Finds(Stored(fields, o, cells, n), o, fields[i], i, cells[i])
  {
    hide Store, TargetOf, Finds, SamePlace, IsLost;
    if n == 0 {
      EmptyForm(o, |fields|);
    } else {
      hide IsRow;
      StoredFinds(fields, o, cells, n - 1);
      var row := Stored(fields, o, cells, n - 1);
      var f, cell := fields[n - 1], cells[n - 1];
      StoreKeepsForm(row, o, f, n - 1, cell, |fields|);
      if !IsLost(o, f) {
        StoreFinds(row, o, f, n - 1, cell, |fields|);
      }
      forall i | 0 <= i < n - 1 && !IsReplaced(fields, o, i, n) && !IsLost(o, fields[i])
        ensures Finds(Stored(fields, o, cells, n), o, fields[i], i, cells[i])
      {
        assert !IsReplaced(fields, o, i, n - 1) && !SamePlace(o, fields[i], f);
        StoreKeeps(row, o, fields[i], i, cells[i], f, n - 1, cell, |fields|);
      }
    }
  }

  lemma EmptyForm(o: Options, n: nat)
    ensures IsRow<Js>(EmptyRow(o, n), o, n)
  {
  }

  // ---------------------------------------------------------------- the theorems

  /** A binary row packet is read to its end, and at every column's place there is null for a null and otherwise the
      value that was sent. */
  lemma BinaryRowAsSent(fields: seq<Field>, values: seq<Maybe<SqlValue>>, bitmap: Buffer, parts: seq<Buffer>,
                        o: Options, c: Options)
    requires IsBinaryRow(fields, values, bitmap, parts, o)
    ensures var b := [0] + bitmap + Concat(parts);
            var (row, end) := BinaryParsers.BinaryRow(ReadPacket, b, 0, fields, o, c);
            && end == |b|
            && forall i :: 0 <= i < |fields| && !IsReplaced(fields, o, i, |fields|) && !IsLost(o, fields[i]) ==>
                 Finds(row, o, fields[i], i, CellSent(fields[i], values[i], parts[i], o, c))
  {
    hide IsReplaced, IsLost, Finds, Concat, Stored, BinaryParsers.BinaryRow, IsBinaryRow, CellSent;
    SameNumber(fields, values, bitmap, parts, o);
    BinaryRowStored(fields, values, bitmap, parts, o, c);
    StoredFinds(fields, o, CellsSent(fields, values, parts, o, c), |fields|);
  }

  lemma SameNumber(fields: seq<Field>, values: seq<Maybe<SqlValue>>, bitmap: Buffer, parts: seq<Buffer>, o: Options)
    requires IsBinaryRow(fields, values, bitmap, parts, o)
    ensures |values| == |parts| == |fields|
  {
  }

  // ---------------------------------------------------------------- one value of a text row

  /** The bytes of a value as a column of this type holds them. */
  predicate IsTextColumn(f: Field, part: Buffer, text: Buffer, v: Maybe<SqlValue>) {
    && IsTextValue(part, text, f.columnType, f.flags / 0x20 % 2 == 1, v)
    && (f.extendedFormat == Just(Text("json")) && v.Just? ==> v.value.DataValue?)
    && (f.columnType == 0xf2 && v.Just? && v.value.DataValue? ==> |text| % 4 == 0)
  }

  /** A DATETIME by its parts down to milliseconds; those of the first century are left to the date constructor. */
  function WantedTextDate(f: Field, v: SqlValue, text: Buffer, o: Options, c: Options): Js
    requires v.DateValue?
  {
    var zone := ZoneOf(o, c);
    if WantsText(f.columnType, o, c) then StringJs(text, Ascii)
    else if f.columnType == 0x0a then DateJs(v.year, v.month, v.day, 0, 0, 0, 0, zone)
    else if v.month == 0 || v.day == 0 || v.month > 12 || v.day > 31 then InvalidDate
    else if v.year < 100 then DateOfText(text, zone)
    else DateJs(v.year, v.month, v.day, v.hour, v.minute, v.second, v.microseconds / 1000 * 1000, zone)
  }

  function WantedTextData(f: Field, text: Buffer, o: Options, c: Options): Js {
    if f.extendedFormat == Just(Text("json")) then WantedData(f, text, o, c)
    else if f.columnType == 0x04 || f.columnType == 0x05 then if text == [] then Number(0) else NumberOf(text)
    else if f.columnType == 0x0b then StringJs(text, Ascii)
    else WantedData(f, text, o, c)
  }

  /** A null of a VECTOR column becomes the empty vector. */
  function WantedText(f: Field, v: Maybe<SqlValue>, text: Buffer, o: Options, c: Options): Js {
    if v.Nothing? then
      if f.columnType == 0xf2 && !o.typeCast.CastFalse? && f.extendedFormat != Just(Text("json")) then VectorJs([])
      else NullJs
    else if o.typeCast.CastFalse? then BufferJs(text)
    else
      match v.value
      case IntegerValue(n) => WantedInteger(f.columnType, n, StringJs(text, Given(Text("binary"))), o, c)
      case DateValue(_, _, _, _, _, _, _) => WantedTextDate(f, v.value, text, o, c)
      case _ => WantedTextData(f, text, o, c)
  }

  lemma {:induction false} PlaceValueSnoc(d: Buffer, u: Byte)
    ensures PlaceValue(d + [u]) == 10 * PlaceValue(d) + DigitOf(u)
  {
    if d == [] {
      assert [u][1..] == [] && Pow10(0) == 1;
    } else {
      PlaceValueSnoc(d[1..], u);
      assert (d + [u])[1..] == d[1..] + [u];
      hide PlaceValue;
      TenTimes(DigitOf(d[0]), Pow10(|d| - 1));
    }
  }

  lemma TenTimes(a: int, p: int)
    ensures a * (10 * p) == 10 * (a * p)
  {
  }

  lemma {:induction false} AccumulatedPlaces(d: Buffer)
    ensures Accumulated(d) == PlaceValue(d)
  {
    if d != [] {
      var init, last := d[..|d| - 1], d[|d| - 1];
      AccumulatedPlaces(init);
      PlaceValueSnoc(init, last);
      assert d == init + [last];
    }
  }

  /** The readers' loop gives the integer that the text denotes. */
  lemma IntegerTextRead(d: Buffer, n: int)
    requires IsIntegerText(d, n)
    ensures SignedInteger(d) == n
  {
    hide PlaceValue, Accumulated;
    AccumulatedPlaces(if n < 0 then d[1..] else d);
    if n < 0 {
      assert d[1..][0] in d[1..];
    } else {
      assert d[0] in d;
    }
  }

  lemma TwoDigitsRead(d: Buffer, at: nat, n: nat)
    requires IsTwoDigits(d, at, n)
    ensures TwoDigits(d, at) == n && SignedInteger(d[at..at + 2]) == n
  {
    var e := d[at..at + 2];
    assert e[0] in e && e[0] == d[at] && e[1] == d[at + 1];
    assert Accumulated(e[..1]) == 10 * Accumulated(e[..1][..0]) + Digit(e[0]);
  }

  lemma YearRead(d: Buffer, year: nat, month: nat, day: nat)
    requires IsDateText(d, year, month, day)
    ensures SignedInteger(d[..4]) == year == 100 * TwoDigits(d, 0) + TwoDigits(d, 2)
  {
    var e := d[..4];
    assert e[0] in e;
    assert e[..3][..2] == e[..2] && e[..2][..1] == e[..1] && e[..1][..0] == [];
    assert Accumulated(e) == 10 * Accumulated(e[..3]) + Digit(e[3]);
    assert Accumulated(e[..3]) == 10 * Accumulated(e[..2]) + Digit(e[2]);
    assert Accumulated(e[..2]) == 10 * Accumulated(e[..1]) + Digit(e[1]);
    assert Accumulated(e[..1]) == 10 * Accumulated([]) + Digit(e[0]);
  }

  lemma DateTextRead(f: Field, o: Options, c: Options, v: SqlValue, text: Buffer)
    requires v.DateValue? && IsText(text, f.columnType, f.flags / 0x20 % 2 == 1, v)
    requires f.extendedFormat != Just(Text("json"))
    ensures Converted(TextParsers.ReadOf(f, o, c), text) == WantedTextDate(f, v, text, o, c)
    ensures TextParsers.ReadOf(f, o, c).ParseDate? ==> |text| == 10
  {
    hide TypeMatch, WantsText, SignedInteger, TwoDigits, FractionMilliseconds, DateStringsFor;
    TextsWanted(f, o, c);
    YearRead(text, v.year, v.month, v.day);
    TwoDigitsRead(text, 5, v.month);
    TwoDigitsRead(text, 8, v.day);
    if f.columnType != 0x0a {
      TwoDigitsRead(text, 11, v.hour);
      TwoDigitsRead(text, 14, v.minute);
      TwoDigitsRead(text, 17, v.second);
      FractionRead(text, v.microseconds);
    }
  }

  lemma FractionRead(d: Buffer, microseconds: nat)
    requires IsFractionText(d, microseconds)
    ensures FractionMilliseconds(d) == microseconds / 1000
  {
    assert forall i :: 20 <= i < |d| ==> d[i] == d[20..][i - 20] && d[i] in d[20..];
  }

  lemma IntegerColumnRead(f: Field, o: Options, c: Options, n: int, text: Buffer)
    requires IsText(text, f.columnType, f.flags / 0x20 % 2 == 1, IntegerValue(n))
    requires f.extendedFormat != Just(Text("json"))
    ensures Converted(TextParsers.ReadOf(f, o, c), text) ==
            WantedInteger(f.columnType, n, StringJs(text, Given(Text("binary"))), o, c)
  {
    hide SignedInteger;
    IntegerTextRead(text, n);
  }

  lemma TextCellRead(f: Field, o: Options, c: Options, v: Maybe<SqlValue>, b: Buffer, at: nat, part: Buffer,
                     text: Buffer)
    requires IsTextColumn(f, part, text, v) && Holds(b, at, part)
    ensures ReadCell(ReadPacket, TextParsers.CellRead(f, o, c), b, at) ==
            (Of(WantedText(f, v, text, o, c)), at + |part|)
  {
    hide Holds, IsData, PacketReaders.LengthCodedAt, TextParsers.ReadOf, Converted, IsText, WantedInteger,
      WantedTextDate, WantedTextData;
    var read := TextParsers.CellRead(f, o, c);
    LengthCodedOnly(f, o, c);
    if v.Nothing? {
      NullRead(read, b, at, part);
    } else {
      DataRead(read, b, at, part, text);
      DataLength(part, text);
      TextConverted(f, o, c, v.value, text);
    }
  }

  lemma TextConverted(f: Field, o: Options, c: Options, v: SqlValue, text: Buffer)
    requires IsText(text, f.columnType, f.flags / 0x20 % 2 == 1, v)
    requires f.extendedFormat == Just(Text("json")) ==> v.DataValue?
    requires f.columnType == 0xf2 && v.DataValue? ==> |text| % 4 == 0
    ensures Converted(TextParsers.CellRead(f, o, c), text) == WantedText(f, Just(v), text, o, c)
    ensures forall start: nat :: ConvertedEnd(TextParsers.CellRead(f, o, c), start, |text|) == start + |text|
  {
    hide IsDateText, IsClockText, IsFractionText, IsIntegerText, SignedInteger, ParsedDateTime, WantedTextDate,
      WantsText, TypeMatch, DateStringsFor;
    if !o.typeCast.CastFalse? {
      if v.IntegerValue? {
        IntegerColumnRead(f, o, c, v.n, text);
      } else if v.DateValue? {
        DateTextRead(f, o, c, v, text);
      }
    }
  }

  /** Every reader of text rows reads a length first. */
  lemma LengthCodedOnly(f: Field, o: Options, c: Options)
    ensures var read := TextParsers.CellRead(f, o, c);
            && !read.NoRead? && !read.LengthCodedNumber?
            && (read.VectorValue? <==>
                f.columnType == 0xf2 && !o.typeCast.CastFalse? && f.extendedFormat != Just(Text("json")))
            && forall b, at :: ReadPacket(read, b, at) == PacketReaders.LengthCodedAt(read, b, at)
  {
    hide TypeMatch, PacketReaders.LengthCodedAt;
  }

  lemma NullRead(read: Read, b: Buffer, at: nat, part: Buffer)
    requires part == [0xfb] && Holds(b, at, part)
    ensures ReadLc(b, at) == LcNull(at + 1)
    ensures PacketReaders.LengthCodedAt(read, b, at) ==
            (if read.VectorValue? then VectorJs([]) else NullJs, at + 1)
  {
    HeldFirst(b, at, part);
  }

  // ---------------------------------------------------------------- a text row

  predicate IsTextRow(fields: seq<Field>, values: seq<Maybe<SqlValue>>, texts: seq<Buffer>, parts: seq<Buffer>) {
    && |values| == |texts| == |parts| == |fields|
    && forall i :: 0 <= i < |fields| ==> IsTextColumn(fields[i], parts[i], texts[i], values[i])
  }

  function TextsSent(fields: seq<Field>, values: seq<Maybe<SqlValue>>, texts: seq<Buffer>, o: Options,
                     c: Options): (cells: seq<Cell<Js>>)
    requires |values| == |texts| == |fields|
    ensures |cells| == |fields|
    ensures forall i :: 0 <= i < |fields| ==> cells[i] == Of(WantedText(fields[i], values[i], texts[i], o, c))
  {
    seq(|fields|, i requires 0 <= i < |fields| => Of(WantedText(fields[i], values[i], texts[i], o, c)))
  }

  /** Arrays of text rows grow with their columns. */
  function TextStored(fields: seq<Field>, o: Options, cells: seq<Cell<Js>>, n: nat): Row<Js>
    requires n <= |fields| == |cells|
  {
    if o.rowsAsArray then Row(Just(cells[..n]), map[]) else Stored(fields, o, cells, n)
  }

  lemma TextStoredSnoc(fields: seq<Field>, o: Options, cells: seq<Cell<Js>>, n: nat)
    requires n < |fields| == |cells|
    ensures var row := TextStored(fields, o, cells, n);
            TextStored(fields, o, cells, n + 1) ==
            if o.rowsAsArray then row.(elements := Just(row.elements.value + [cells[n]]))
            else Store(row, TargetOf(o, fields[n], n), cells[n])
  {
    hide Store, TargetOf, EmptyRow;
    assert cells[..n + 1] == cells[..n] + [cells[n]];
  }

  lemma {:induction false} TextColumnsRead(b: Buffer, fields: seq<Field>, values: seq<Maybe<SqlValue>>,
                                           texts: seq<Buffer>, parts: seq<Buffer>, o: Options, c: Options, n: nat)
    requires n <= |fields| && IsTextRow(fields, values, texts, parts) && Holds(b, 0, Concat(parts))
    ensures TextParsers.Columns(ReadPacket, b, 0, fields, o, c, n) ==
            (TextStored(fields, o, TextsSent(fields, values, texts, o, c), n), |Concat(parts[..n])|)
  {
    hide Holds, Store, TargetOf, ReadCell, TextParsers.CellRead, IsTextColumn, WantedText, Concat;
    if n == 0 {
      NoParts(parts);
    } else {
      hide TextStored;
      TextColumnsRead(b, fields, values, texts, parts, o, c, n - 1);
      PartHeld(b, 0, parts, n - 1);
      TextStoredSnoc(fields, o, TextsSent(fields, values, texts, o, c), n - 1);
      TextCellRead(fields[n - 1], o, c, values[n - 1], b, |Concat(parts[..n - 1])|, parts[n - 1], texts[n - 1]);
    }
  }

  lemma TextStoredFinds(fields: seq<Field>, o: Options, cells: seq<Cell<Js>>)
    requires |fields| == |cells|
    ensures forall i :: 0 <= i < |fields| && !IsReplaced(fields, o, i, |fields|) && !IsLost(o, fields[i]) ==>
              Finds(TextStored(fields, o, cells, |fields|), o, fields[i], i, cells[i])
  {
    hide Stored, IsReplaced, IsLost;
    if !o.rowsAsArray {
      hide Finds;
      StoredFinds(fields, o, cells, |fields|);
    }
  }

  /** A text row packet is read to its end, and at every column's place there is the value that was sent. */
  lemma TextRowAsSent(fields: seq<Field>, values: seq<Maybe<SqlValue>>, texts: seq<Buffer>, parts: seq<Buffer>,
                      o: Options, c: Options)
    requires IsTextRow(fields, values, texts, parts)
    ensures var b := Concat(parts);
            var (row, end) := TextParsers.TextRow(ReadPacket, b, 0, fields, o, c);
            && end == |b|
            && forall i :: 0 <= i < |fields| && !IsReplaced(fields, o, i, |fields|) && !IsLost(o, fields[i]) ==>
                 Finds(row, o, fields[i], i, Of(WantedText(fields[i], values[i], texts[i], o, c)))
  {
    hide IsReplaced, IsLost, Finds, Concat, TextStored, TextParsers.Columns, IsTextColumn, WantedText, Holds;
    var b := Concat(parts);
    Whole(b);
    TextColumnsRead(b, fields, values, texts, parts, o, c, |fields|);
    assert parts[..|fields|] == parts;
    TextStoredFinds(fields, o, TextsSent(fields, values, texts, o, c));
  }

  /** A null that was sent is found as null, exactly unless the column is a VECTOR that type casts turn into numbers. */
  lemma NullTextExactly(f: Field, text: Buffer, o: Options, c: Options)
    ensures WantedText(f, Nothing, text, o, c) == NullJs <==>
            f.columnType != VECTOR || o.typeCast.CastFalse? || IsJsonFormat(f)
  {
  }

  // ---------------------------------------------------------------- the generated parsers

  /** The same row from the generated parser. */
  lemma GeneratedBinaryRowAsSent(fields: seq<Field>, values: seq<Maybe<SqlValue>>, bitmap: Buffer, parts: seq<Buffer>,
                                 o: Options, c: Options)
    requires IsBinaryRow(fields, values, bitmap, parts, o) && !BothSet(o)
    requires Timezone(o, c).Just? || forall f :: f in fields ==> !BinaryParsers.NeedsTimezone(f, o, c)
    requires BinaryParsers.Compiled(fields, o, c).Just?
    ensures var b := [0] + bitmap + Concat(parts);
            var m := Eval(Machine(Row(Nothing, map[]), [], 0), ReadPacket, b, fields,
                          BinaryParsers.Compiled(fields, o, c).value.body);
            && m.Just? && m.value.offset == |b|
            && forall i :: 0 <= i < |fields| && !IsReplaced(fields, o, i, |fields|) && !IsLost(o, fields[i]) ==>
                 Finds(m.value.row, o, fields[i], i, CellSent(fields[i], values[i], parts[i], o, c))
  {
    hide IsReplaced, IsLost, Finds, Concat, BinaryParsers.BinaryRow, IsBinaryRow, CellSent, Eval, Timezone,
      BinaryParsers.NeedsTimezone, BinaryParsers.Compiled;
    SameNumber(fields, values, bitmap, parts, o);
    BinaryRowAsSent(fields, values, bitmap, parts, o, c);
    NoArrayKeys(fields, o);
    BinaryParsers.CompiledIsBinaryRow(ReadPacket, [0] + bitmap + Concat(parts), 0, fields, o, c);
  }

  lemma NoArrayKeys(fields: seq<Field>, o: Options)
    requires !BothSet(o)
    ensures !SomeArrayKey(fields, o)
  {
    hide IsArrayKey;
  }

  function NumberRead(n: nat): Js {
    Number(n)
  }

  function StringRead(encoding: Encoding, bytes: Buffer): Js {
    StringJs(bytes, encoding)
  }

  /** The packet's readers are such as the text parsers are proved to agree on. */
  lemma PacketReadsLengthCoded()
    ensures TextParsers.ReadsLengthCoded(ReadPacket, TextParsers.Values(NullJs, NumberRead, StringRead))
  {
    hide ReadLc, ReadPacket, TextParsers.LengthCodedAt;
    var v := TextParsers.Values(NullJs, NumberRead, StringRead);
    forall b, at ensures TextParsers.LengthCodedAt(ReadPacket, v, b, at) {
      PacketAt(b, at);
    }
  }

  lemma PacketAt(b: Buffer, at: nat)
    ensures TextParsers.LengthCodedAt(ReadPacket, TextParsers.Values(NullJs, NumberRead, StringRead), b, at)
  {
    hide ReadLc;
    var v := TextParsers.Values(NullJs, NumberRead, StringRead);
    var length := ReadLc(b, at);
    if length.LcNumber? {
      var d := Slice(b, length.end, length.n);
      forall e ensures ReadPacket(LengthCodedString(e), b, at) == (v.text(e, d), length.end + length.n) {
      }
    }
  }

  lemma NullColumnsAgree(b: Buffer, fields: seq<Field>, values: seq<Maybe<SqlValue>>, texts: seq<Buffer>,
                         parts: seq<Buffer>, o: Options, c: Options)
    requires IsTextRow(fields, values, texts, parts) && Holds(b, 0, Concat(parts))
    ensures TextParsers.NullsAgree(ReadPacket, b, 0, fields, o, c)
  {
    hide Holds, Concat, TextParsers.Columns, TextStored, WantedText, ReadLc;
    forall i | 0 <= i < |fields| && TextParsers.IsNullColumn(fields[i], o)
      ensures TextParsers.NullAgrees(b, TextParsers.Columns(ReadPacket, b, 0, fields, o, c, i).1, c)
    {
      TextColumnsRead(b, fields, values, texts, parts, o, c, i);
      PartHeld(b, 0, parts, i);
      assert IsTextColumn(fields[i], parts[i], texts[i], values[i]);
      assert values[i].Nothing?;
      NullRead(LengthCodedNumber, b, |Concat(parts[..i])|, parts[i]);
    }
  }

  /** The same row from the generated parser. */
  lemma GeneratedTextRowAsSent(fields: seq<Field>, values: seq<Maybe<SqlValue>>, texts: seq<Buffer>, parts: seq<Buffer>,
                               o: Options, c: Options)
    requires IsTextRow(fields, values, texts, parts) && !BothSet(o) && !TextParsers.SomeInherited(fields, o)
    requires forall f :: f in fields ==> !TextParsers.MissesZone(f, o, c)
    requires TextParsers.Compiled(fields, o, c).Just?
    ensures var b := Concat(parts);
            var m := Eval(Machine(Row(Nothing, map[]), [], 0), ReadPacket, b, fields,
                          TextParsers.Compiled(fields, o, c).value.body);
            && m.Just? && m.value.offset == |b|
            && forall i :: 0 <= i < |fields| && !IsReplaced(fields, o, i, |fields|) ==>
                 Finds(m.value.row, o, fields[i], i, Of(WantedText(fields[i], values[i], texts[i], o, c)))
  {
    hide IsReplaced, Finds, Concat, TextParsers.TextRow, IsTextColumn, WantedText, Eval, TextParsers.MissesZone,
      TextParsers.Compiled, TextParsers.ReadsLengthCoded, TextParsers.NullsAgree, Holds, IsInherited;
    var b := Concat(parts);
    TextRowAsSent(fields, values, texts, parts, o, c);
    NoArrayKeys(fields, o);
    Whole(b);
    NullColumnsAgree(b, fields, values, texts, parts, o, c);
    PacketReadsLengthCoded();
    TextParsers.CompiledIsTextRow(ReadPacket, TextParsers.Values(NullJs, NumberRead, StringRead), b, 0, fields, o, c);
    assert forall i :: 0 <= i < |fields| ==> fields[i] in fields;
  }
}
