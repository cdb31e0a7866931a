/** The server's side of result rows: the pages "Binary Protocol Resultset Row", "Binary Protocol Value" and "Text
    Resultset Row" of the MySQL client/server protocol, with the numbers of those pages. */
module RowPages {
  import opened Bytes
  import opened Maybes
  import opened Protocol

  /** A value of a column: numbers, dates and times by their parts, everything else by its bytes. */
  datatype SqlValue =
    | IntegerValue(n: int)
    | DoubleValue(bytes: Buffer)
    | FloatValue(bytes: Buffer)
    | DateValue(year: nat, month: nat, day: nat, hour: nat, minute: nat, second: nat, microseconds: nat)
    | TimeValue(negative: bool, days: nat, hours: nat, minutes: nat, seconds: nat, microseconds: nat)
    | DataValue(data: Buffer)

  predicate Within(n: int, unsigned: bool, half: nat) {
    if unsigned then 0 <= n < 2 * half else 0 <= n + half < 2 * half
  }

  /** The column types that hold an integer, with their ranges. */
  predicate HoldsInteger(t: nat, unsigned: bool, n: int) {
    || (t == 0x01 && Within(n, unsigned, 0x80))
    || (t == 0x02 && Within(n, unsigned, 0x8000))
    || (t == 0x0d && Within(n, true, 0x8000))
    || (t == 0x09 && Within(n, unsigned, 0x80_0000))
    || (t == 0x03 && Within(n, unsigned, 0x8000_0000))
    || (t == 0x08 && Within(n, unsigned, 0x8000_0000_0000_0000))
  }

  // ---------------------------------------------------------------- "Binary Protocol Value"

  predicate IsTwosComplement(b: Buffer, width: nat, n: int, modulus: nat) {
    |b| == width && n + modulus >= 0 && IsFixedLength(b, if n >= 0 then n else n + modulus)
  }

  predicate IsBinaryInteger(b: Buffer, t: nat, n: int) {
    if t == 0x01 then IsTwosComplement(b, 1, n, 0x100)
    else if t == 0x02 || t == 0x0d then IsTwosComplement(b, 2, n, 0x1_0000)
    else if t == 0x03 || t == 0x09 then IsTwosComplement(b, 4, n, 0x1_0000_0000)
    else IsTwosComplement(b, 8, n, 0x1_0000_0000_0000_0000)
  }

  /** The fields that are zero at the end are not sent. */
  predicate IsBinaryDate(b: Buffer, v: SqlValue)
    requires v.DateValue?
  {
    var midnight := v.hour == 0 && v.minute == 0 && v.second == 0;
    if v.year == 0 && v.month == 0 && v.day == 0 && midnight && v.microseconds == 0 then b == [0]
    else if midnight && v.microseconds == 0 then |b| == 5 && b[0] == 4 && IsDay(b, v)
    else if v.microseconds == 0 then |b| == 8 && b[0] == 7 && IsDay(b, v) && IsClock(b, v)
    else |b| == 12 && b[0] == 11 && IsDay(b, v) && IsClock(b, v) && IsFixedLength(b[8..12], v.microseconds)
  }

  predicate IsDay(b: Buffer, v: SqlValue)
    requires v.DateValue? && |b| >= 5
  {
    IsFixedLength(b[1..3], v.year) && b[3] == v.month && b[4] == v.day
  }

  predicate IsClock(b: Buffer, v: SqlValue)
    requires v.DateValue? && |b| >= 8
  {
    b[5] == v.hour && b[6] == v.minute && b[7] == v.second
  }

  predicate IsBinaryTime(b: Buffer, v: SqlValue)
    requires v.TimeValue?
  {
    var zero := v.days == 0 && v.hours == 0 && v.minutes == 0 && v.seconds == 0;
    if zero && v.microseconds == 0 then b == [0] && !v.negative
    else
      && |b| == (if v.microseconds == 0 then 9 else 13) && b[0] == |b| - 1
      && b[1] == (if v.negative then 1 else 0) && IsFixedLength(b[2..6], v.days)
      && b[6] == v.hours && b[7] == v.minutes && b[8] == v.seconds
      && (v.microseconds != 0 ==> IsFixedLength(b[9..13], v.microseconds))
  }

  /** A length-encoded integer and as many bytes. */
  predicate IsData(b: Buffer, data: Buffer) {
    exists k :: 0 <= k <= |b| && IsLengthEncoded(b[..k], |data|) && b[k..] == data
  }

  predicate HoldsData(t: nat) {
    t == 0x00 || t == 0x0f || t == 0x10 || t == 0xf2 || 0xf5 <= t <= 0xff
  }

  predicate IsBinaryValue(b: Buffer, t: nat, unsigned: bool, v: SqlValue) {
    match v
    case IntegerValue(n) => HoldsInteger(t, unsigned, n) && IsBinaryInteger(b, t, n)
    case DoubleValue(bytes) => t == 0x05 && |b| == 8 && b == bytes
    case FloatValue(bytes) => t == 0x04 && |b| == 4 && b == bytes
    case DateValue(_, _, _, _, _, _, _) => (t == 0x07 || t == 0x0a || t == 0x0c) && IsBinaryDate(b, v)
    case TimeValue(_, _, _, _, _, _) => t == 0x0b && IsBinaryTime(b, v)
    case DataValue(data) => HoldsData(t) && IsData(b, data)
  }

  // ---------------------------------------------------------------- "Binary Protocol Resultset Row"

  predicate BitIsSet(bitmap: Buffer, k: nat) {
    k / 8 < |bitmap| && bitmap[k / 8] / [1, 2, 4, 8, 16, 32, 64, 128][k % 8] % 2 == 1
  }

  /** The fewest bytes that hold two bits and one for each column, which is set for null. */
  predicate IsNullBitmap(bitmap: Buffer, values: seq<Maybe<SqlValue>>) {
    && |values| + 2 <= 8 * |bitmap| < |values| + 2 + 8
    && forall i :: 0 <= i < |values| ==> (BitIsSet(bitmap, i + 2) <==> values[i].Nothing?)
  }

  // ---------------------------------------------------------------- "Text Resultset Row"

  predicate IsNumeral(d: Buffer) {
    d != [] && forall u :: u in d ==> 0x30 <= u <= 0x39
  }

  function DigitOf(u: int): int {
    u - 0x30
  }

  function Pow10(k: nat): nat {
    if k == 0 then 1 else 10 * Pow10(k - 1)
  }

  /** Every digit counts by its place. */
  function PlaceValue(d: Buffer): int {
    if d == [] then 0 else DigitOf(d[0]) * Pow10(|d| - 1) + PlaceValue(d[1..])
  }

  /** The text of an integer: a minus sign for a negative one, and its digits, which zeros can come before. */
  predicate IsIntegerText(d: Buffer, n: int) {
    if n < 0 then d != [] && d[0] == 0x2d && IsNumeral(d[1..]) && PlaceValue(d[1..]) == -n
    else IsNumeral(d) && PlaceValue(d) == n
  }

  predicate IsTwoDigits(d: Buffer, at: nat, n: nat) {
    && at + 2 <= |d| && IsNumeral(d[at..at + 2])
    && n == 10 * DigitOf(d[at]) + DigitOf(d[at + 1])
  }

  predicate IsDateText(d: Buffer, year: nat, month: nat, day: nat) {
    && |d| >= 10 && IsNumeral(d[..4]) && d[4] == 0x2d && d[7] == 0x2d
    && year == 1000 * DigitOf(d[0]) + 100 * DigitOf(d[1]) + 10 * DigitOf(d[2]) + DigitOf(d[3])
    && IsTwoDigits(d, 5, month) && IsTwoDigits(d, 8, day)
  }

  predicate IsClockText(d: Buffer, hour: nat, minute: nat, second: nat) {
    && |d| >= 19 && d[10] == 0x20 && d[13] == 0x3a && d[16] == 0x3a
    && IsTwoDigits(d, 11, hour) && IsTwoDigits(d, 14, minute) && IsTwoDigits(d, 17, second)
  }

  function FractionDigit(d: Buffer, i: nat): nat {
    if 20 + i < |d| && 0x30 <= d[20 + i] <= 0x39 then DigitOf(d[20 + i]) else 0
  }

  /** No fraction, or a point and one to six digits. */
  predicate IsFractionText(d: Buffer, microseconds: nat) {
    && (|d| == 19 || (21 <= |d| <= 26 && d[19] == 0x2e && IsNumeral(d[20..])))
    && microseconds == 100_000 * FractionDigit(d, 0) + 10_000 * FractionDigit(d, 1) + 1000 * FractionDigit(d, 2) +
                       100 * FractionDigit(d, 3) + 10 * FractionDigit(d, 4) + FractionDigit(d, 5)
  }

  /** The text of a value; of one that is not an integer or a date nothing is said but that it is text. */
  predicate IsText(d: Buffer, t: nat, unsigned: bool, v: SqlValue) {
    match v
    case IntegerValue(n) => HoldsInteger(t, unsigned, n) && IsIntegerText(d, n)
    case DateValue(year, month, day, hour, minute, second, microseconds) =>
      && IsDateText(d, year, month, day)
      && if t == 0x0a then |d| == 10 && hour == 0 && minute == 0 && second == 0 && microseconds == 0
         else (t == 0x07 || t == 0x0c) && IsClockText(d, hour, minute, second) && IsFractionText(d, microseconds)
    case DataValue(data) => (t == 0x04 || t == 0x05 || t == 0x0b || HoldsData(t)) && d == data
    case _ => false
  }

  /** A null is one byte, a value its text with its length. */
  predicate IsTextValue(b: Buffer, text: Buffer, t: nat, unsigned: bool, v: Maybe<SqlValue>) {
    if v.Nothing? then b == [0xfb] else IsData(b, text) && IsText(text, t, unsigned, v.value)
  }
}
