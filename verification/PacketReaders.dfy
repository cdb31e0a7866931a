/** The readers of lib/packets/packet.js that rows are read with, on the bytes of a packet. Packets cut short have no
    reading here. */
module PacketReaders {
  import opened Bytes
  import opened JsLiterals
  import opened LengthCoded
  import opened Maybes
  import opened Rows
  import TimeValues

  /** What a reader returns: numbers that are safe integers, numbers near other integers, numbers given by their
      IEEE bytes or their text, made and given text, dates by their parts or their text. */
  datatype Js =
    | Missing
    | NullJs
    | Number(n: int)
    | Rounded(n: int)
    | DoubleJs(bytes: Buffer)
    | FloatJs(bytes: Buffer)
    | NumberOf(text: Buffer)
    | MadeText(made: string)
    | StringJs(bytes: Buffer, encoding: Encoding)
    | BufferJs(bytes: Buffer)
    | DateJs(year: int, month: int, day: int, hour: int, minute: int, second: int, microseconds: int, zone: Maybe<Str>)
    | DateOfText(text: Buffer, zone: Maybe<Str>)
    | InvalidDate
    | JsonJs(bytes: Buffer, encoding: Encoding, big: bool)
    | GeometryJs(bytes: Buffer)
    | VectorJs(floats: seq<Buffer>)

  const MAX_SAFE_INTEGER: nat := 0x1f_ffff_ffff_ffff

  predicate IsSafe(n: int) {
    -(MAX_SAFE_INTEGER as int) <= n <= MAX_SAFE_INTEGER
  }

  function Near(n: int): Js {
    if IsSafe(n) then Number(n) else Rounded(n)
  }

  /** `String(n)` and `Long.toString` for an integer. */
  function IntegerText(n: int): string {
    if n < 0 then "-" + TimeValues.Digits(-n) else TimeValues.Digits(n)
  }

  // ---------------------------------------------------------------- integers

  function ToSigned(u: nat, width: nat): int {
    if u < Pow256(width) / 2 then u else u - Pow256(width)
  }

  function IntegerAt(b: Buffer, at: nat, width: nat, signed: bool): (Js, nat) {
    if at + width > |b| then (Missing, at + width)
    else
      var u := FromLe(b[at..at + width]);
      (Number(if signed then ToSigned(u, width) else u), at + width)
  }

  /** Two words of four bytes; the upper one carries the sign. */
  function Int64At(b: Buffer, at: nat, signed: bool): Maybe<int> {
    if at + 8 > |b| then Nothing
    else
      var word0, word1 := FromLe(b[at..at + 4]), FromLe(b[at + 4..at + 8]);
      Just(word0 + TWO32 * (if signed then ToSigned(word1, 4) else word1))
  }

  // ---------------------------------------------------------------- dates and times

  datatype DateFields = DateFields(length: nat, year: nat, month: nat, day: nat, hour: nat, minute: nat, second: nat,
                                   microseconds: nat)

  /** The bytes that a length byte announces to the readers of dates. */
  function DateSize(length: nat): nat {
    (if length > 3 then 4 else 0) + (if length > 6 then 3 else 0) + if length > 10 then 4 else 0
  }

  function DateFieldsAt(b: Buffer, at: nat): Maybe<DateFields> {
    if at >= |b| || at + 1 + DateSize(b[at]) > |b| then Nothing
    else
      var length := b[at];
      Just(DateFields(
             length,
             if length > 3 then FromLe(b[at + 1..at + 3]) else 0,
             if length > 3 then b[at + 3] else 0,
             if length > 3 then b[at + 4] else 0,
             if length > 6 then b[at + 5] else 0,
             if length > 6 then b[at + 6] else 0,
             if length > 6 then b[at + 7] else 0,
             if length > 10 then FromLe(b[at + 8..at + 12]) else 0))
  }

  function DateOf(d: DateFields, zone: Maybe<Str>): Js {
    DateJs(d.year, d.month, d.day, d.hour, d.minute, d.second, d.microseconds, zone)
  }

  /** `readDateTime`. With an offset for a time zone the date goes through its text, where only the day matters for
      the zero date. */
  function DateTimeOf(d: DateFields, zone: Maybe<Str>): Js {
    var noDay := d.year == 0 && d.month == 0 && d.day == 0;
    if zone.Nothing? || zone.value == [] || zone.value == Text("Z") || zone.value == Text("local") then
      if d.length == 0xfb then NullJs
      else if noDay && d.hour == 0 && d.minute == 0 && d.second == 0 && d.microseconds == 0 then InvalidDate
      else DateOf(d, zone)
    else if noDay then InvalidDate
    else DateOf(d, zone)
  }

  function Fraction(microseconds: nat, decimals: nat): string {
    if decimals == 0 then TimeValues.Digits(microseconds)
    else
      var s := TimeValues.LeftPad(6, microseconds);
      if |s| > decimals then s[..decimals] else s
  }

  /** `readDateTimeString`. */
  function DateText(d: DateFields, decimals: nat, columnType: nat): string {
    (if d.length > 3 then
       TimeValues.LeftPad(4, d.year) + "-" + TimeValues.LeftPad(2, d.month) + "-" + TimeValues.LeftPad(2, d.day)
     else "0000-00-00") +
    (if d.length > 6 then
       " " + TimeValues.LeftPad(2, d.hour) + ":" + TimeValues.LeftPad(2, d.minute) + ":" +
       TimeValues.LeftPad(2, d.second)
     else if columnType == DATETIME || columnType == TIMESTAMP then " 00:00:00" else "") +
    if d.length > 10 then "." + Fraction(d.microseconds, decimals) else ""
  }

  // ---------------------------------------------------------------- text

  const MINUS: Byte := 0x2d
  const PLUS: Byte := 0x2b
  const COLON: Byte := 0x3a

  function Digit(character: int): int {
    character - 48
  }

  /** The number that the readers' loop makes of characters. */
  function Accumulated(d: Buffer): int {
    if d == [] then 0 else 10 * Accumulated(d[..|d| - 1]) + Digit(d[|d| - 1])
  }

  function Unsigned(d: Buffer): Buffer {
    if d != [] && d[0] == MINUS then d[1..] else d
  }

  function WithoutPlus(d: Buffer): Buffer {
    if d != [] && d[0] == PLUS then d[1..] else d
  }

  function SignedInteger(d: Buffer): int {
    var n := Accumulated(WithoutPlus(Unsigned(d)));
    if Unsigned(d) == d then n else -n
  }

  /** `parseInt` of digits: as a number, through `Number` when there are many; with big numbers, an integer that is
      not safe stays text. */
  function ParsedInt(d: Buffer, big: bool): Js {
    var n := SignedInteger(d);
    if !big then Near(n)
    else if IsSafe(n) then Number(n)
    else StringJs(d, Given(Text("binary")))
  }

  lemma OneMoreDigit(d: Buffer, start: nat, offset: nat)
    requires start <= offset < |d|
    ensures Accumulated(d[start..offset + 1]) == Accumulated(d[start..offset]) * 10 + Digit(d[offset])
  {
    var more := d[start..offset + 1];
    assert more[..|more| - 1] == d[start..offset] && more[|more| - 1] == d[offset];
  }

  /** Where the loop starts: after a minus sign and after a plus sign. */
  lemma Stripped(d: Buffer, start: nat)
    requires d != [] && start <= |d|
    requires var signed := if d[0] == MINUS then 1 else 0;
             start == signed + if signed < |d| && d[signed] == PLUS then 1 else 0
    ensures WithoutPlus(Unsigned(d)) == d[start..]
    ensures Unsigned(d) == d <==> d[0] != MINUS
  {
    if d[0] == MINUS {
      assert d[1..] != d by { assert |d[1..]| < |d|; }
      assert 1 < |d| ==> d[1..][0] == d[1] && d[1..][1..] == d[2..];
    }
  }

  /** The loop of `parseInt` and `parseIntNoBigCheck`. */
  method ParseIntNoBigCheck(d: Buffer) returns (n: int)
    ensures n == SignedInteger(d)
  {
    var sign, offset := 1, 0;
    if |d| == 0 {
      return 0;
    }
    if d[offset] == MINUS {
      offset := 1;
      sign := -1;
    }
    if offset < |d| && d[offset] == PLUS {
      offset := offset + 1;
    }
    var result := 0;
    ghost var start := offset;
    Stripped(d, start);
    while offset < |d|
      invariant start <= offset <= |d| && result == Accumulated(d[start..offset])
    {
      OneMoreDigit(d, start, offset);
      result := result * 10;
      result := result + Digit(d[offset]);
      offset := offset + 1;
    }
    assert d[start..offset] == d[start..];
    n := result * sign;
  }

  function TwoDigits(d: Buffer, i: nat): int
    requires i + 2 <= |d|
  {
    10 * Digit(d[i]) + Digit(d[i + 1])
  }

  /** `parseDate`: ten characters, or an invalid date. */
  function ParsedDate(d: Buffer, zone: Maybe<Str>): Js {
    if |d| != 10 then InvalidDate
    else DateJs(SignedInteger(d[..4]), SignedInteger(d[5..7]), SignedInteger(d[8..10]), 0, 0, 0, 0, zone)
  }

  function FractionMilliseconds(d: Buffer): int
    requires |d| >= 19
  {
    (if |d| > 20 then 100 * Digit(d[20]) else 0) + (if |d| > 21 then 10 * Digit(d[21]) else 0) +
    if |d| > 22 then Digit(d[22]) else 0
  }

  /** `parseDateTime`: by its characters in the wire format, otherwise by the date constructor. */
  function ParsedDateTime(d: Buffer, zone: Maybe<Str>): Js {
    if |d| >= 19 && d[4] == MINUS && d[7] == MINUS && d[13] == COLON && d[16] == COLON then
      var year, month, day := 100 * TwoDigits(d, 0) + TwoDigits(d, 2), TwoDigits(d, 5), TwoDigits(d, 8);
      if month == 0 || day == 0 || month > 12 || day > 31 then InvalidDate
      else if year < 100 then DateOfText(d, zone)
      else
        DateJs(year, month, day, TwoDigits(d, 11), TwoDigits(d, 14), TwoDigits(d, 17), 1000 * FractionMilliseconds(d),
               zone)
    else DateOfText(d, zone)
  }

  function Floats(d: Buffer): seq<Buffer> {
    if |d| < 4 then [] else [d[..4]] + Floats(d[4..])
  }

  /** What the reader of a length-encoded value makes of its bytes. */
  function Converted(read: Read, d: Buffer): Js {
    match read
    case LengthCodedString(encoding) => StringJs(d, encoding)
    case LengthCodedBuffer => BufferJs(d)
    case LengthCodedFloat => if d == [] then Number(0) else NumberOf(d)
    case GeometryValue => if d == [] then NullJs else GeometryJs(d)
    case VectorValue => VectorJs(Floats(d))
    case JsonValue(encoding, big) => JsonJs(d, encoding, big)
    case IntNoBigCheck => Near(SignedInteger(d))
    case IntString => StringJs(d, Given(Text("binary")))
    case Int(big) => ParsedInt(d, big)
    case ParseDate(zone) => ParsedDate(d, zone)
    case ParseDateTime(zone) => ParsedDateTime(d, zone)
    case _ => Missing
  }

  /** Where it ends: a date of another length than ten is not passed over, and a vector goes on in whole floats. */
  function ConvertedEnd(read: Read, start: nat, length: nat): nat {
    if read.ParseDate? && length != 10 then start
    else if read.VectorValue? then start + (length + 3) / 4 * 4
    else start + length
  }

  function Slice(b: Buffer, start: nat, length: nat): Buffer {
    if start + length <= |b| then b[start..start + length] else if start <= |b| then b[start..] else []
  }

  function LengthCodedAt(read: Read, b: Buffer, at: nat): (Js, nat) {
    match ReadLc(b, at)
    case LcNull(end) => (if read.VectorValue? then VectorJs([]) else NullJs, end)
    case LcNumber(n, end) =>
      if read.LengthCodedNumber? then (Number(n), end)
      else if n == 0 && read.LengthCodedFloat? then (Number(0), end)
      else (Converted(read, Slice(b, end, n)), ConvertedEnd(read, end, n))
    case LcBad => (Missing, at)
  }

  // ---------------------------------------------------------------- all readers

  function ReadPacket(read: Read, b: Buffer, at: nat): (Js, nat) {
    match read
    case NoRead => (NullJs, at)
    case UInt8 => IntegerAt(b, at, 1, false)
    case SInt8 => IntegerAt(b, at, 1, true)
    case UInt16 => IntegerAt(b, at, 2, false)
    case SInt16 => IntegerAt(b, at, 2, true)
    case UInt32 => IntegerAt(b, at, 4, false)
    case SInt32 => IntegerAt(b, at, 4, true)
    case Float32 => (if at + 4 <= |b| then FloatJs(b[at..at + 4]) else Missing, at + 4)
    case Float64 => (if at + 8 <= |b| then DoubleJs(b[at..at + 8]) else Missing, at + 8)
    case Int64Number(signed) =>
      var n := Int64At(b, at, signed);
      (if n.Just? then Near(n.value) else Missing, at + 8)
    case Int64String(signed) =>
      var n := Int64At(b, at, signed);
      (if n.Just? then MadeText(IntegerText(n.value)) else Missing, at + 8)
    case Int64(signed) =>
      var n := Int64At(b, at, signed);
      (if n.Nothing? then Missing else if IsSafe(n.value) then Number(n.value) else MadeText(IntegerText(n.value)),
       at + 8)
    case DateTime(zone) =>
      var d := DateFieldsAt(b, at);
      if d.Just? then (DateTimeOf(d.value, zone), at + 1 + DateSize(d.value.length)) else (Missing, at)
    case DateTimeString(decimals, columnType) =>
      var d := DateFieldsAt(b, at);
      if d.Just? then (MadeText(DateText(d.value, decimals, columnType)), at + 1 + DateSize(d.value.length))
      else (Missing, at)
    case TimeString =>
      var t := TimeValues.ReadTime(b, at);
      if t.Just? then (MadeText(if b[at] == 0 then "00:00:00" else TimeValues.TimeText(t.value.0)), t.value.1)
      else (Missing, at)
    case _ => LengthCodedAt(read, b, at)
  }
}
