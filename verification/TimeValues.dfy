/** TIME values: `toTimeParts` of lib/packets/typed_parameter.js, `timeLength`, `writeTime` and
    `readTimeString` of lib/packets/packet.js. */
module TimeValues {
  import opened Bytes
  import opened LengthCoded
  import opened Maybes

  datatype TimeParts = TimeParts(negative: bool, days: nat, hours: nat, minutes: nat, seconds: nat, microseconds: nat)

  /** The parts of a time of day and a number of days. */
  predicate InRange(p: TimeParts) {
    p.hours < 24 && p.minutes < 60 && p.seconds < 60 && p.microseconds < 1_000_000
  }

  predicate IsZero(p: TimeParts) {
    p.days == 0 && p.hours == 0 && p.minutes == 0 && p.seconds == 0 && p.microseconds == 0
  }

  /** The sign of zero is not written. */
  function Unsigned0(p: TimeParts): TimeParts {
    if IsZero(p) then p.(negative := false) else p
  }

  /** The parts that the writer's integers can hold; it throws for longer times. */
  predicate Writable(p: TimeParts) {
    p.days < TWO32 && p.hours < 0x100 && p.minutes < 0x100 && p.seconds < 0x100 && p.microseconds < TWO32
  }

  /** `timeLength`. */
  function TimeLength(p: TimeParts): nat {
    if IsZero(p) then 1 else if p.microseconds > 0 then 13 else 9
  }

  function Clock(p: TimeParts): (b: Buffer)
    requires Writable(p)
    ensures |b| == 8
  {
    [if p.negative then 1 else 0] + Le(p.days, 4) + [p.hours, p.minutes, p.seconds]
  }

  function TimeBytes(p: TimeParts): (b: Buffer)
    requires Writable(p)
    ensures |b| == TimeLength(p)
  {
    if IsZero(p) then [0]
    else if p.microseconds > 0 then [12] + Clock(p) + Le(p.microseconds, 4)
    else [8] + Clock(p)
  }

  method WriteClock(packet: Packet, p: TimeParts)
    requires packet.Valid() && Writable(p) && packet.offset + 8 <= packet.buffer.Length
    modifies packet, packet.buffer
    ensures packet.Valid() && packet.Written() == old(packet.Written()) + Clock(p)
  {
    hide Le, Pow256, Packet.Written;
    Pow256Values();
    ghost var before := packet.Written();
    packet.WriteInt8(if p.negative then 1 else 0);
    packet.WriteUIntLE(p.days, 4);
    packet.WriteInt8(p.hours);
    packet.WriteInt8(p.minutes);
    packet.WriteInt8(p.seconds);
    Appended(before, [if p.negative then 1 else 0], Le(p.days, 4), [p.hours], [p.minutes], [p.seconds]);
  }

  lemma Appended(before: Buffer, a: Buffer, b: Buffer, c: Buffer, d: Buffer, e: Buffer)
    ensures before + a + b + c + d + e == before + (a + b + (c + d + e))
  {
  }

  method WriteTime(packet: Packet, p: TimeParts)
    requires packet.Valid() && Writable(p) && packet.offset + TimeLength(p) <= packet.buffer.Length
    modifies packet, packet.buffer
    ensures packet.Valid() && packet.Written() == old(packet.Written()) + TimeBytes(p)
  {
    hide Le, Pow256, Clock, Packet.Written;
    Pow256Values();
    ghost var before := packet.Written();
    if IsZero(p) {
      packet.WriteInt8(0);
      return;
    }
    packet.WriteInt8(if p.microseconds > 0 then 12 else 8);
    WriteClock(packet, p);
    if p.microseconds > 0 {
      packet.WriteUIntLE(p.microseconds, 4);
      assert before + [12] + Clock(p) + Le(p.microseconds, 4) == before + ([12] + Clock(p) + Le(p.microseconds, 4));
    } else {
      assert before + [8] + Clock(p) == before + ([8] + Clock(p));
    }
  }

  // ---------------------------------------------------------------- reading

  function ReadClock(b: Buffer, offset: nat): TimeParts
    requires offset + 8 <= |b|
  {
    TimeParts(b[offset] != 0, FromLe(b[offset + 1..offset + 5]), b[offset + 5], b[offset + 6], b[offset + 7], 0)
  }

  /** The parts and the end of a time value, from the lengths `readTimeString` distinguishes. Values cut
      short have no reading here. */
  function ReadTime(b: Buffer, offset: nat): Maybe<(TimeParts, nat)> {
    if offset >= |b| then Nothing
    else if b[offset] == 0 then Just((TimeParts(false, 0, 0, 0, 0, 0), offset + 1))
    else if b[offset] > 10 && offset + 13 <= |b| then
      Just((ReadClock(b, offset + 1).(microseconds := FromLe(b[offset + 9..offset + 13])), offset + 13))
    else if 6 < b[offset] <= 10 && offset + 9 <= |b| then Just((ReadClock(b, offset + 1), offset + 9))
    else if b[offset] <= 6 && offset + 2 <= |b| then Just((TimeParts(b[offset + 1] != 0, 0, 0, 0, 0, 0), offset + 2))
    else Nothing
  }

  lemma ClockRoundTrip(b: Buffer, offset: nat, p: TimeParts)
    requires Writable(p) && Holds(b, offset, Clock(p))
    ensures offset + 8 <= |b| && ReadClock(b, offset) == p.(microseconds := 0)
  {
    hide Le, FromLe, Pow256;
    Pow256Values();
    LeRoundTrip(p.days, 4);
    assert Clock(p)[1..5] == Le(p.days, 4);
    HoldsAt(b, offset, Clock(p), 0, 8);
    HoldsAt(b, offset, Clock(p), 1, 5);
    HoldsAt(b, offset, Clock(p), 5, 8);
    HoldsAt(b, offset, Clock(p), 6, 8);
    HoldsAt(b, offset, Clock(p), 7, 8);
  }

  /** A written time is read back, up to the sign of zero. */
  lemma TimeRoundTrip(b: Buffer, offset: nat, p: TimeParts)
    requires Writable(p) && Holds(b, offset, TimeBytes(p))
    ensures ReadTime(b, offset) == Just((Unsigned0(p), offset + TimeLength(p)))
  {
    hide Le, FromLe, Pow256, Clock, ReadClock;
    HoldsAt(b, offset, TimeBytes(p), 0, TimeLength(p));
    if !IsZero(p) {
      if p.microseconds > 0 {
        assert TimeBytes(p) == [12] + (Clock(p) + Le(p.microseconds, 4));
        HoldsSplit(b, offset, [12], Clock(p) + Le(p.microseconds, 4));
        HoldsSplit(b, offset + 1, Clock(p), Le(p.microseconds, 4));
        Pow256Values();
        LeRoundTrip(p.microseconds, 4);
      } else {
        HoldsSplit(b, offset, [8], Clock(p));
      }
      ClockRoundTrip(b, offset + 1, p);
    }
  }

  // ---------------------------------------------------------------- text

  predicate IsDigit(c: char) {
    '0' <= c <= '9'
  }

  predicate AllDigits(s: string) {
    forall c :: c in s ==> IsDigit(c)
  }

  function DigitValue(c: char): nat
    requires IsDigit(c)
  {
    c as int - '0' as int
  }

  function Digit(n: nat): (c: char)
    requires n < 10
    ensures IsDigit(c) && DigitValue(c) == n
  {
    ('0' as int + n) as char
  }

  /** `Number(s)` for digits. */
  function Value(s: string): nat
    requires AllDigits(s)
  {
    if s == "" then 0 else Value(s[..|s| - 1]) * 10 + DigitValue(s[|s| - 1])
  }

  /** `String(n)`. */
  function Digits(n: nat): (s: string)
    ensures AllDigits(s) && |s| >= 1
  {
    if n < 10 then [Digit(n)] else Digits(n / 10) + [Digit(n % 10)]
  }

  function Zeroes(n: nat): (s: string)
    ensures |s| == n && AllDigits(s)
  {
    if n == 0 then "" else Zeroes(n - 1) + "0"
  }

  /** `leftPad`. */
  function LeftPad(width: nat, n: nat): (s: string)
    ensures AllDigits(s) && |s| >= 1 && |s| >= width
  {
    var s := Digits(n);
    if |s| >= width then s else Zeroes(width - |s|) + s
  }

  /** `replace(/0+$/, '')`. */
  function StripZeroes(s: string): (r: string)
    ensures |r| <= |s| && (AllDigits(s) ==> AllDigits(r))
  {
    if s != "" && s[|s| - 1] == '0' then StripZeroes(s[..|s| - 1]) else s
  }

  /** The text `readTimeString` returns for its parts. */
  function TimeText(p: TimeParts): string {
    (if p.negative then "-" else "") +
    LeftPad(2, p.days * 24 + p.hours) + ":" + LeftPad(2, p.minutes) + ":" + LeftPad(2, p.seconds) +
    (if p.microseconds > 0 then "." + StripZeroes(LeftPad(6, p.microseconds)) else "")
  }

  /** `readTimeString`. */
  function ReadTimeString(b: Buffer, offset: nat): Maybe<string> {
    var r := ReadTime(b, offset);
    if r.Just? then Just(TimeText(r.value.0)) else Nothing
  }

  // The pattern of `toTimeParts`: an optional sign, hours, minutes and seconds below 60 of one or two
  // digits, and an optional fraction of one to six digits.

  function DigitRun(s: string): (n: nat)
    ensures n <= |s| && AllDigits(s[..n]) && (n < |s| ==> !IsDigit(s[n]))
  {
    if s != "" && IsDigit(s[0]) then 1 + DigitRun(s[1..]) else 0
  }

  predicate IsSixty(s: string) {
    AllDigits(s) && (|s| == 1 || (|s| == 2 && s[0] <= '5'))
  }

  /** The digits before a separator, and the text after it. */
  function Group(s: string, separator: char): Maybe<(string, string)> {
    var n := DigitRun(s);
    if 0 < n < |s| && s[n] == separator then Just((s[..n], s[n + 1..])) else Nothing
  }

  function PadEnd6(s: string): (r: string)
    ensures AllDigits(s) ==> AllDigits(r)
  {
    if |s| < 6 then s + Zeroes(6 - |s|) else s
  }

  function Seconds(s: string): Maybe<(nat, nat)> {
    var n := DigitRun(s);
    if !IsSixty(s[..n]) then Nothing
    else if n == |s| then Just((Value(s), 0))
    else if s[n] == '.' && 1 <= |s| - n - 1 <= 6 && AllDigits(s[n + 1..]) then
      Just((Value(s[..n]), Value(PadEnd6(s[n + 1..]))))
    else Nothing
  }

  function UnsignedParts(s: string, negative: bool): Maybe<TimeParts> {
    var h := Group(s, ':');
    if h.Nothing? then Nothing
    else
      var m := Group(h.value.1, ':');
      if m.Nothing? || !IsSixty(m.value.0) then Nothing
      else
        var t := Seconds(m.value.1);
        if t.Nothing? then Nothing
        else
          var hours := Value(h.value.0);
          Just(TimeParts(negative, hours / 24, hours % 24, Value(m.value.0), t.value.0, t.value.1))
  }

  /** `toTimeParts` of a string; nothing when it throws. */
  function ParseTime(s: string): Maybe<TimeParts> {
    if s != "" && s[0] == '-' then UnsignedParts(s[1..], true) else UnsignedParts(s, false)
  }

  lemma {:induction false} DigitsRoundTrip(n: nat)
    ensures Value(Digits(n)) == n
  {
    if n < 10 {
      assert Value([Digit(n)]) == Value("") * 10 + DigitValue(Digit(n));
    } else {
      DigitsRoundTrip(n / 10);
      assert Digits(n)[..|Digits(n)| - 1] == Digits(n / 10);
    }
  }

  lemma {:induction false} LeadingZeroes(k: nat, s: string)
    requires AllDigits(s)
    ensures Value(Zeroes(k) + s) == Value(s)
    decreases |s|
  {
    var t := Zeroes(k) + s;
    if s == "" {
      assert t == Zeroes(k);
      ZeroValue(k);
    } else {
      assert t[..|t| - 1] == Zeroes(k) + s[..|s| - 1];
      LeadingZeroes(k, s[..|s| - 1]);
    }
  }

  lemma {:induction false} ZeroValue(k: nat)
    ensures Value(Zeroes(k)) == 0
  {
    if k > 0 {
      ZeroValue(k - 1);
      assert Zeroes(k)[..k - 1] == Zeroes(k - 1);
    }
  }

  lemma PaddedValue(width: nat, n: nat)
    ensures Value(LeftPad(width, n)) == n
  {
    hide Value, Digits;
    DigitsRoundTrip(n);
    if |Digits(n)| < width {
      LeadingZeroes(width - |Digits(n)|, Digits(n));
    }
  }

  function Pow10(k: nat): (p: nat)
    ensures p >= 1
  {
    if k == 0 then 1 else 10 * Pow10(k - 1)
  }

  lemma {:induction false} DigitCount(n: nat, k: nat)
    requires k >= 1 && n < Pow10(k)
    ensures |Digits(n)| <= k
  {
    if n >= 10 {
      DigitCount(n / 10, k - 1);
    }
  }

  /** Stripping trailing zeros and padding them again are inverse. */
  lemma {:induction false} StripThenPad(s: string, k: nat)
    requires AllDigits(s)
    ensures StripZeroes(s) + Zeroes(|s| + k - |StripZeroes(s)|) == s + Zeroes(k)
    decreases |s|
  {
    if s != "" && s[|s| - 1] == '0' {
      var t := s[..|s| - 1];
      StripThenPad(t, k + 1);
      ZeroFirst(k);
      assert t + Zeroes(k + 1) == (t + "0") + Zeroes(k);
      assert s == t + "0";
    }
  }

  lemma {:induction false} ZeroFirst(k: nat)
    ensures Zeroes(k + 1) == "0" + Zeroes(k)
  {
    if k > 0 {
      ZeroFirst(k - 1);
    }
  }

  lemma FractionRoundTrip(n: nat)
    requires 0 < n < 1_000_000
    ensures var f := StripZeroes(LeftPad(6, n));
            1 <= |f| <= 6 && Value(PadEnd6(f)) == n
  {
    hide Value, StripZeroes, Digits;
    assert Pow10(6) == 1_000_000 by { PowersOfTen(); }
    DigitCount(n, 6);
    var s := LeftPad(6, n);
    StripThenPad(s, 0);
    PaddedValue(6, n);
    assert StripZeroes(s) + Zeroes(6 - |StripZeroes(s)|) == s;
    if StripZeroes(s) == "" {
      assert s == Zeroes(6);
      ZeroValue(6);
    }
    assert PadEnd6(StripZeroes(s)) == s;
  }

  lemma PowersOfTen()
    ensures Pow10(1) == 10 && Pow10(2) == 100 && Pow10(6) == 1_000_000
  {
    assert Pow10(1) == 10 * Pow10(0) && Pow10(2) == 10 * Pow10(1) && Pow10(3) == 10 * Pow10(2);
    assert Pow10(4) == 10 * Pow10(3) && Pow10(5) == 10 * Pow10(4) && Pow10(6) == 10 * Pow10(5);
  }

  lemma {:induction false} ValueBound(s: string)
    requires AllDigits(s)
    ensures Value(s) < Pow10(|s|)
  {
    if s != "" {
      ValueBound(s[..|s| - 1]);
      assert s[|s| - 1] in s;
    }
  }

  lemma GroupFound(digits: string, separator: char, rest: string)
    requires AllDigits(digits) && digits != "" && !IsDigit(separator)
    ensures Group(digits + [separator] + rest, separator) == Just((digits, rest))
  {
    var s := digits + [separator] + rest;
    var n := DigitRun(s);
    assert s[|digits|] == separator && forall k :: 0 <= k < |digits| ==> s[k] == digits[k] && digits[k] in digits;
    assert n == |digits|;
    assert s[..|digits|] == digits && s[|digits| + 1..] == rest;
  }

  lemma SixtyText(n: nat)
    requires n < 60
    ensures IsSixty(LeftPad(2, n)) && Value(LeftPad(2, n)) == n
  {
    PaddedValue(2, n);
    assert Digits(n) == if n < 10 then [Digit(n)] else [Digit(n / 10)] + [Digit(n % 10)];
    if n < 10 {
      assert Zeroes(1) == Zeroes(0) + "0" == "0";
      assert LeftPad(2, n) == "0" + [Digit(n)];
    }
  }

  lemma SixtyValue(s: string)
    requires IsSixty(s)
    ensures Value(s) < 60
  {
    assert s[0] in s;
    assert Value(s[..|s| - 1]) <= 5 by {
      if |s| == 2 {
        assert s[..1] == [s[0]] && Value([s[0]]) == Value("") * 10 + DigitValue(s[0]);
      }
    }
    assert s[|s| - 1] in s;
  }

  lemma SecondsRoundTrip(seconds: nat, microseconds: nat)
    requires seconds < 60 && microseconds < 1_000_000
    ensures Seconds(LeftPad(2, seconds)
                    + (if microseconds > 0 then "." + StripZeroes(LeftPad(6, microseconds)) else ""))
            == Just((seconds, microseconds))
  {
    hide Value, LeftPad, StripZeroes, Pow10, PadEnd6;
    SixtyText(seconds);
    var t := LeftPad(2, seconds);
    if microseconds == 0 {
      assert t + "" == t;
      assert forall k :: 0 <= k < |t| ==> t[k] in t;
      assert DigitRun(t) == |t|;
      assert t[..|t|] == t;
    } else {
      FractionRoundTrip(microseconds);
      var f := StripZeroes(LeftPad(6, microseconds));
      GroupFound(t, '.', f);
      assert t + "." + f == t + ("." + f);
    }
  }

  /** The text of a time in range is parsed back to its parts. */
  lemma TimeTextRoundTrip(p: TimeParts)
    requires InRange(p)
    ensures ParseTime(TimeText(p)) == Just(p)
  {
    hide Value, LeftPad, Seconds, StripZeroes, Group, IsSixty;
    var total := p.days * 24 + p.hours;
    var h, m := LeftPad(2, total), LeftPad(2, p.minutes);
    var t := LeftPad(2, p.seconds) + (if p.microseconds > 0 then "." + StripZeroes(LeftPad(6, p.microseconds)) else "");
    PaddedValue(2, total);
    SixtyText(p.minutes);
    SecondsRoundTrip(p.seconds, p.microseconds);
    var rest := m + ":" + t;
    GroupFound(h, ':', rest);
    GroupFound(m, ':', t);
    var body := h + ":" + rest;
    assert total / 24 == p.days && total % 24 == p.hours;
    assert UnsignedParts(body, p.negative) == Just(p);
    assert h[0] in h;
    if p.negative {
      assert TimeText(p) == "-" + body;
      assert TimeText(p)[1..] == body;
    } else {
      assert TimeText(p) == body;
    }
  }

  /** Every string that the pattern accepts denotes parts in range. */
  lemma ParsedInRange(s: string)
    requires ParseTime(s).Just?
    ensures InRange(ParseTime(s).value)
  {
    hide Value, DigitRun, IsSixty;
    var body := if s != "" && s[0] == '-' then s[1..] else s;
    var h := Group(body, ':').value;
    var m := Group(h.1, ':').value;
    SixtyValue(m.0);
    SecondsInRange(m.1);
  }

  lemma SecondsInRange(s: string)
    requires Seconds(s).Just?
    ensures Seconds(s).value.0 < 60 && Seconds(s).value.1 < 1_000_000
  {
    hide Value, IsSixty, Pow10;
    var n := DigitRun(s);
    SixtyValue(s[..n]);
    assert s[..|s|] == s;
    if n < |s| {
      ValueBound(PadEnd6(s[n + 1..]));
      PowersOfTen();
    }
  }

  /** A TIME given as a string is read back as a string for the same time; one that is already in the
      reader's form comes back unchanged. */
  lemma TimeStringSurvives(s: string, b: Buffer, offset: nat)
    requires ParseTime(s).Just? && Writable(ParseTime(s).value)
    requires Holds(b, offset, TimeBytes(ParseTime(s).value))
    ensures ReadTimeString(b, offset).Just?
    ensures var t := ReadTimeString(b, offset).value;
            && ParseTime(t) == Just(Unsigned0(ParseTime(s).value))
            && (t == s <==> exists p :: InRange(p) && p == Unsigned0(p) && s == TimeText(p))
  {
    hide ParseTime, TimeText, Holds, TimeBytes, Writable;
    var p := ParseTime(s).value;
    TimeRoundTrip(b, offset, p);
    ParsedInRange(s);
    TimeTextRoundTrip(Unsigned0(p));
    if q :| InRange(q) && q == Unsigned0(q) && s == TimeText(q) {
      TimeTextRoundTrip(q);
    }
  }

  // ---------------------------------------------------------------- times given as milliseconds

  /** `Math.abs`. */
  function Magnitude(value: real): real {
    if value < 0.0 then -value else value
  }

  /** `rest % 1000`. */
  function Fraction(value: real): real {
    Magnitude(value) - ((Magnitude(value) / 1000.0).Floor as real) * 1000.0
  }

  /** `Math.round` of a non-negative number. */
  function Round(x: real): int {
    (x + 0.5).Floor
  }

  lemma FractionRange(value: real)
    ensures 0.0 <= Fraction(value) < 1000.0 && (Magnitude(value) / 1000.0).Floor >= 0
  {
    var q := Magnitude(value) / 1000.0;
    assert q.Floor as real <= q < q.Floor as real + 1.0;
    assert q * 1000.0 == Magnitude(value);
  }

  /** `toTimeParts` of a number of milliseconds, with exact arithmetic. */
  function PartsOfNumber(value: real): TimeParts {
    FractionRange(value);
    var microseconds := Round(Fraction(value) * 1000.0);
    var rest := (Magnitude(value) / 1000.0).Floor;
    var totalHours := rest / 3600;
    TimeParts(value < 0.0, totalHours / 24, totalHours % 24, rest / 60 % 60, rest % 60, microseconds)
  }

  function Microseconds(p: TimeParts): nat {
    (((p.days * 24 + p.hours) * 60 + p.minutes) * 60 + p.seconds) * 1_000_000 + p.microseconds
  }

  /** The parts always add up to the number rounded to microseconds; but they are in range exactly when the
      rounding does not carry into the seconds. */
  lemma NumberParts(value: real)
    ensures Microseconds(PartsOfNumber(value)) == Round(Magnitude(value) * 1000.0)
    ensures PartsOfNumber(value).microseconds <= 1_000_000
    ensures InRange(PartsOfNumber(value)) <==> Fraction(value) < 999.9995
  {
    FractionRange(value);
    var f, rest := Fraction(value), (Magnitude(value) / 1000.0).Floor;
    var p := PartsOfNumber(value);
    assert Magnitude(value) * 1000.0 == f * 1000.0 + (rest * 1_000_000) as real;
    FloorShift(f * 1000.0 + 0.5, rest * 1_000_000);
    ClockParts(rest);
    assert Microseconds(p) == rest * 1_000_000 + p.microseconds;
  }

  lemma FloorShift(x: real, k: int)
    ensures (x + k as real).Floor == x.Floor + k
  {
    assert (x.Floor + k) as real <= x + k as real < (x.Floor + k) as real + 1.0;
  }

  lemma ClockParts(rest: nat)
    ensures ((rest / 3600 / 24 * 24 + rest / 3600 % 24) * 60 + rest / 60 % 60) * 60 + rest % 60 == rest
  {
    assert rest / 3600 == rest / 60 / 60;
    assert rest == rest / 60 * 60 + rest % 60;
    assert rest / 60 == rest / 60 / 60 * 60 + rest / 60 % 60;
  }

  /** When the rounding carries, the fraction of a second is lost: the value read back ends in ".1". */
  lemma CarryReadsAsTenth(p: TimeParts)
    requires p.microseconds == 1_000_000
    ensures TimeText(p) == TimeText(p.(microseconds := 100_000))
  {
    LastDigits();
    hide StripZeroes, Digits, LeftPad;
  }

  /** Text of parts from a number denotes the same time exactly when they are in range. */
  lemma PartsSurvive(p: TimeParts)
    requires p.hours < 24 && p.minutes < 60 && p.seconds < 60 && p.microseconds <= 1_000_000
    ensures var t := ParseTime(TimeText(Unsigned0(p)));
            && t.Just? && (Microseconds(t.value) == Microseconds(p) <==> InRange(p))
            && (t.value.negative <==> p.negative && !IsZero(p))
  {
    hide ParseTime, TimeText;
    if InRange(p) {
      TimeTextRoundTrip(Unsigned0(p));
    } else {
      CarryReadsAsTenth(p);
      TimeTextRoundTrip(p.(microseconds := 100_000));
    }
  }

  /** A TIME given as a number of milliseconds is read back as the same time, rounded to microseconds,
      exactly when the rounding does not carry into the seconds. */
  lemma NumberTimeSurvives(value: real, b: Buffer, offset: nat)
    requires Writable(PartsOfNumber(value)) && Holds(b, offset, TimeBytes(PartsOfNumber(value)))
    ensures ReadTimeString(b, offset).Just? && ParseTime(ReadTimeString(b, offset).value).Just?
    ensures var time := ParseTime(ReadTimeString(b, offset).value).value;
            && (Microseconds(time) == Round(Magnitude(value) * 1000.0) <==> Fraction(value) < 999.9995)
            && (time.negative <==> value < 0.0 && !IsZero(PartsOfNumber(value)))
  {
    hide ParseTime, TimeText, TimeBytes, Holds, PartsOfNumber, Fraction, Magnitude, Round, Microseconds, Writable,
      Unsigned0, InRange;
    NumberParts(value);
    ClockRange(value);
    TimeRoundTrip(b, offset, PartsOfNumber(value));
    PartsSurvive(PartsOfNumber(value));
  }

  lemma ClockRange(value: real)
    ensures var p := PartsOfNumber(value);
            p.hours < 24 && p.minutes < 60 && p.seconds < 60 && p.negative == (value < 0.0)
  {
    FractionRange(value);
  }

  /** Such a number: 999.9999 milliseconds. */
  lemma CarryExample()
    ensures PartsOfNumber(999.9999) == TimeParts(false, 0, 0, 0, 0, 1_000_000)
    ensures TimeText(PartsOfNumber(999.9999)) == "00:00:00.1"
  {
    hide LeftPad, StripZeroes;
    CarryParts();
    LastDigits();
    TwoZeroes();
    assert "00" + ":" + "00" + ":" + "00" + ("." + "1") == "00:00:00.1";
  }

  lemma CarryParts()
    ensures PartsOfNumber(999.9999) == TimeParts(false, 0, 0, 0, 0, 1_000_000)
  {
    assert (999.9999 / 1000.0).Floor == 0 && (999.9999 * 1000.0 + 0.5).Floor == 1_000_000;
  }

  lemma TwoZeroes()
    ensures LeftPad(2, 0) == "00"
  {
    assert Digits(0) == "0" && Zeroes(1) == Zeroes(0) + "0" == "0";
  }

  lemma LastDigits()
    ensures StripZeroes(LeftPad(6, 1_000_000)) == StripZeroes(LeftPad(6, 100_000)) == "1"
  {
    hide StripZeroes, Digits;
    PowersAsText();
    assert StripZeroes("1") == "1" by { StripNone(); }
    StripOne("1", "10");
    StripOne("10", "100");
    StripOne("100", "1000");
    StripOne("1000", "10000");
    StripOne("10000", "100000");
    StripOne("100000", "1000000");
  }

  lemma PowersAsText()
    ensures Digits(100_000) == "100000" && Digits(1_000_000) == "1000000"
  {
    assert Digits(1) == "1" && Digits(10) == "10" && Digits(100) == "100" && Digits(1000) == "1000";
    assert Digits(10_000) == "10000";
  }

  lemma StripNone()
    ensures StripZeroes("1") == "1"
  {
  }

  lemma StripOne(s: string, t: string)
    requires t == s + "0"
    ensures StripZeroes(t) == StripZeroes(s)
  {
    assert t[..|s|] == s;
  }
}
