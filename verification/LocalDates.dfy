/** The cache of hour offsets in lib/parsers/local_date.js, which must agree with the Date constructor. */
module LocalDates {
  import opened Calendar
  import opened Maybes

  const MS_PER_HOUR: int := 3600000
  const MS_PER_DAY: int := 86400000
  const MAX_CACHED_HOURS: nat := 4096
  const MAX_TIME: int := 8640000000000000

  /** The value of `process.env.TZ`. */
  type Zone = nat

  /** How far local wall time is ahead of UTC, for a zone and a wall-clock time. */
  type Offsets = (Zone, int) -> int

  /** A Date's time value, which may be NaN. */
  datatype Time = NaN | At(ms: int)

  function TimeClip(t: int): Time {
    if -MAX_TIME <= t <= MAX_TIME then At(t) else NaN
  }

  function Trunc(x: real): int {
    if x >= 0.0 then x.Floor else -(-x).Floor
  }

  datatype Fields = Fields(year: int, month: int, day: int, hours: int, minutes: int, seconds: int, milliseconds: real)

  function TimeOfDay(f: Fields): int {
    f.hours * MS_PER_HOUR + f.minutes * 60000 + f.seconds * 1000 + Trunc(f.milliseconds)
  }

  /** `new Date(year, month - 1, ...)`: years 0 to 99 mean 1900 to 1999. */
  function DateConstructor(off: Offsets, zone: Zone, f: Fields): Time {
    var year := if 0 <= f.year <= 99 then 1900 + f.year else f.year;
    var wall := MakeDay(year, f.month - 1, f.day) * MS_PER_DAY + TimeOfDay(f);
    TimeClip(wall - off(zone, wall))
  }

  /** The UTC getters of `new Date(wall)`. */
  function UtcFields(wall: int): Fields {
    var c, t := CivilOf(wall / MS_PER_DAY), wall % MS_PER_DAY;
    Fields(c.year, c.month, c.day, t / MS_PER_HOUR, t / 60000 % 60, t / 1000 % 60, (t % 1000) as real)
  }

  function LocalTime(off: Offsets, zone: Zone, wall: int): Time {
    if TimeClip(wall).NaN? then NaN else DateConstructor(off, zone, UtcFields(wall))
  }

  /** The offset that the constructor applies at the start, middle and end of an hour, if it is one. */
  function ProveHourOffset(off: Offsets, zone: Zone, hour: int): Maybe<int> {
    var start := hour * MS_PER_HOUR;
    var middle, end := start + MS_PER_HOUR / 2, start + MS_PER_HOUR - 1;
    var a, b, c := LocalTime(off, zone, start), LocalTime(off, zone, middle), LocalTime(off, zone, end);
    if a.NaN? || b.NaN? || c.NaN? then Nothing
    else if start - a.ms != middle - b.ms || start - a.ms != end - c.ms then Nothing
    else Just(start - a.ms)
  }

  /** The calls that the cache leaves to the constructor. */
  predicate Uncached(f: Fields) {
    f.year < 100 || f.month < 1 || f.month > 12
  }

  function WallTime(f: Fields): int
    requires 1 <= f.month <= 12
  {
    DaysFromCivil(f.year, f.month, f.day) * MS_PER_DAY + TimeOfDay(f)
  }

  /** `localDate` with the offset known for the hour. */
  function WithOffset(off: Offsets, zone: Zone, f: Fields, offset: Maybe<int>): Time
    requires 1 <= f.month <= 12
  {
    if offset.Nothing? then DateConstructor(off, zone, f) else TimeClip(WallTime(f) - offset.value)
  }

  // ---------------------------------------------------------------- what the offsets must satisfy

  /** An offset that is the same at the three probes of an hour is the same throughout the hour. */
  ghost predicate Regular(off: Offsets) {
    forall zone, hour, t :: RegularAt(off, zone, hour, t)
  }

  ghost predicate RegularAt(off: Offsets, zone: Zone, hour: int, t: int) {
    var start := hour * MS_PER_HOUR;
    start <= t < start + MS_PER_HOUR
    && off(zone, start) == off(zone, start + MS_PER_HOUR / 2) == off(zone, start + MS_PER_HOUR - 1)
    ==> off(zone, t) == off(zone, start)
  }

  /** The wall time falls in one of the years 0 to 99, which the constructor cannot be given. */
  predicate InLegacyYears(wall: int) {
    0 <= CivilOf(wall / MS_PER_DAY).year <= 99
  }

  /** How many milliseconds the constructor moves a date of those years forward. */
  function LegacyShift(wall: int): int {
    var c := CivilOf(wall / MS_PER_DAY);
    if !InLegacyYears(wall) then 0
    else (MakeDay(1900 + c.year, c.month - 1, c.day) - MakeDay(c.year, c.month - 1, c.day)) * MS_PER_DAY
  }

  lemma SplitTime(wall: int)
    ensures var t := wall % MS_PER_DAY;
            t == (t / MS_PER_HOUR) * MS_PER_HOUR + (t / 60000 % 60) * 60000 + (t / 1000 % 60) * 1000 + t % 1000
  {
    var t := wall % MS_PER_DAY;
    assert t / 1000 == (t / 60000) * 60 + t / 1000 % 60;
    assert t / 60000 == (t / MS_PER_HOUR) * 60 + t / 60000 % 60;
  }

  lemma UtcTime(wall: int)
    ensures TimeOfDay(UtcFields(wall)) == wall % MS_PER_DAY
  {
    hide CivilOf;
    SplitTime(wall);
    var t := wall % MS_PER_DAY;
    assert Trunc((t % 1000) as real) == t % 1000;
  }

  lemma UtcDate(wall: int)
    ensures var f, c := UtcFields(wall), CivilOf(wall / MS_PER_DAY);
            f.year == c.year && f.month == c.month && f.day == c.day
  {
    hide CivilOf;
  }

  lemma SplitDay(wall: int)
    ensures wall / MS_PER_DAY * MS_PER_DAY + wall % MS_PER_DAY == wall
  {
  }

  /** The UTC getters and the constructor's arithmetic are inverse. */
  lemma UtcFieldsRoundTrip(wall: int)
    ensures var f := UtcFields(wall);
            && f.year == CivilOf(wall / MS_PER_DAY).year
            && MakeDay(f.year, f.month - 1, f.day) * MS_PER_DAY + TimeOfDay(f) == wall
  {
    hide MakeDay, CivilOf, DaysFromCivil, TimeOfDay, UtcFields;
    var c := CivilOf(wall / MS_PER_DAY);
    CivilOfDays(wall / MS_PER_DAY);
    DaysFromCivilIsMakeDay(c.year, c.month, c.day);
    UtcDate(wall);
    UtcTime(wall);
    SplitDay(wall);
  }

  /** Going through the UTC getters and the constructor applies the zone's offset, after the shift. */
  lemma LocalTimeShift(off: Offsets, zone: Zone, wall: int)
    requires TimeClip(wall) != NaN
    ensures var w := wall + LegacyShift(wall); LocalTime(off, zone, wall) == TimeClip(w - off(zone, w))
  {
    UtcFieldsRoundTrip(wall);
    hide MakeDay, CivilOf, TimeOfDay;
    var f, c := UtcFields(wall), CivilOf(wall / MS_PER_DAY);
    assert f.month == c.month && f.day == c.day;
    var year := if 0 <= f.year <= 99 then 1900 + f.year else f.year;
    var w := MakeDay(year, f.month - 1, f.day) * MS_PER_DAY + TimeOfDay(f);
    hide UtcFields;
    assert LocalTime(off, zone, wall) == TimeClip(w - off(zone, w));
    assert w == wall + LegacyShift(wall);
  }

  lemma HourInOneDay(hour: int, t: int)
    requires hour * MS_PER_HOUR <= t < (hour + 1) * MS_PER_HOUR
    ensures t / MS_PER_DAY == hour * MS_PER_HOUR / MS_PER_DAY
    ensures LegacyShift(t) == LegacyShift(hour * MS_PER_HOUR)
  {
    SameDay(hour, t);
    hide MakeDay, CivilOf;
  }

  lemma SameDay(hour: int, t: int)
    requires hour * MS_PER_HOUR <= t < (hour + 1) * MS_PER_HOUR
    ensures t / MS_PER_DAY == hour * MS_PER_HOUR / MS_PER_DAY
  {
    var h, r := hour / 24, hour % 24;
    assert hour * MS_PER_HOUR == h * MS_PER_DAY + r * MS_PER_HOUR;
    assert t == h * MS_PER_DAY + (t - h * MS_PER_DAY) && 0 <= t - h * MS_PER_DAY < MS_PER_DAY;
  }

  /** What a probe sees: the zone's offset at the shifted time, less the shift. */
  lemma ProbeSees(off: Offsets, zone: Zone, hour: int, t: int)
    requires hour * MS_PER_HOUR <= t < (hour + 1) * MS_PER_HOUR
    ensures var shift, time := LegacyShift(hour * MS_PER_HOUR), LocalTime(off, zone, t);
            time != NaN ==> t - time.ms == off(zone, t + shift) - shift
  {
    HourInOneDay(hour, t);
    if TimeClip(t) != NaN {
      LocalTimeShift(off, zone, t);
    }
    hide LegacyShift, DateConstructor;
  }

  /** A proven offset is the zone's offset at the shifted hour, less the shift. */
  lemma ProvenOffset(off: Offsets, zone: Zone, hour: int, t: int)
    requires Regular(off) && hour * MS_PER_HOUR <= t < (hour + 1) * MS_PER_HOUR
    requires ProveHourOffset(off, zone, hour).Just?
    ensures ProveHourOffset(off, zone, hour) == Just(off(zone, t + LegacyShift(t)) - LegacyShift(t))
  {
    hide LegacyShift, LocalTime;
    var start := hour * MS_PER_HOUR;
    ProbeSees(off, zone, hour, start);
    ProbeSees(off, zone, hour, start + MS_PER_HOUR / 2);
    ProbeSees(off, zone, hour, start + MS_PER_HOUR - 1);
    HourInOneDay(hour, t);
    ShiftIsWholeHours(start);
    var shift := LegacyShift(start);
    var shifted := hour + shift / MS_PER_HOUR;
    assert shifted * MS_PER_HOUR == start + shift;
    assert RegularAt(off, zone, shifted, t + shift);
  }

  lemma ShiftIsWholeHours(wall: int)
    ensures LegacyShift(wall) / MS_PER_HOUR * MS_PER_HOUR == LegacyShift(wall)
  {
    hide MakeDay, CivilOf;
    var c := CivilOf(wall / MS_PER_DAY);
    var days :=
      if InLegacyYears(wall) then MakeDay(1900 + c.year, c.month - 1, c.day) - MakeDay(c.year, c.month - 1, c.day)
      else 0;
    WholeHours(days);
  }

  lemma WholeHours(days: int)
    ensures days * MS_PER_DAY / MS_PER_HOUR == 24 * days
  {
  }

  lemma NoShift(wall: int)
    ensures !InLegacyYears(wall) ==> LegacyShift(wall) == 0
  {
  }

  lemma HourOf(wall: int)
    ensures wall / MS_PER_HOUR * MS_PER_HOUR <= wall < (wall / MS_PER_HOUR + 1) * MS_PER_HOUR
  {
  }

  /** From year 100 on, the constructor is given the wall time that the cache computes. */
  lemma ConstructorValue(off: Offsets, zone: Zone, f: Fields)
    requires !Uncached(f)
    ensures DateConstructor(off, zone, f) == TimeClip(WallTime(f) - off(zone, WallTime(f)))
  {
    DaysFromCivilIsMakeDay(f.year, f.month, f.day);
    hide MakeDay, DaysFromCivil, TimeOfDay, TimeClip;
  }

  /** Outside the legacy years a cached offset gives the constructor's value. */
  lemma CachedIsConstructor(off: Offsets, zone: Zone, f: Fields)
    requires Regular(off) && !Uncached(f) && !InLegacyYears(WallTime(f))
    ensures WithOffset(off, zone, f, ProveHourOffset(off, zone, WallTime(f) / MS_PER_HOUR)) ==
            DateConstructor(off, zone, f)
  {
    hide DateConstructor, WallTime, ProveHourOffset, InLegacyYears, Regular, LegacyShift;
    var wall := WallTime(f);
    HourOf(wall);
    if ProveHourOffset(off, zone, wall / MS_PER_HOUR).Just? {
      NoShift(wall);
      ProvenOffset(off, zone, wall / MS_PER_HOUR, wall);
      ConstructorValue(off, zone, f);
    }
  }

  /** The guarantee the wire protocols rely on: a year from 100 on, a day from 1 on, no negative time. */
  lemma OrdinaryIsNotLegacy(f: Fields)
    requires !Uncached(f) && f.day >= 1
    requires f.hours >= 0 && f.minutes >= 0 && f.seconds >= 0 && f.milliseconds >= 0.0
    ensures !InLegacyYears(WallTime(f))
  {
    DaysFromCivilIsMakeDay(f.year, f.month, f.day);
    MakeDayInYear(f.year, f.month - 1, f.day);
    MonthLengths(f.year, f.month);
    DayFromYearMonotone(100, f.year);
    hide MakeDay, DaysFromCivil, DayFromYear, DaysBeforeMonth, DaysInMonth, IsLeapYear, CivilOf;
    var wall := WallTime(f);
    assert TimeOfDay(f) >= 0;
    assert wall / MS_PER_DAY >= DayFromYear(100);
    YearOfDay(wall / MS_PER_DAY, 100);
  }

  ghost predicate Bounded(off: Offsets) {
    forall zone, t :: -864000000 <= off(zone, t) <= 864000000
  }

  /** Exactly when a call that uses the cache gives the constructor's value: the wall time is outside the
      years 0 to 99, or the hour has no proven offset. */
  lemma AgreesExactly(off: Offsets, zone: Zone, f: Fields)
    requires Regular(off) && Bounded(off) && !Uncached(f)
    ensures var offset := ProveHourOffset(off, zone, WallTime(f) / MS_PER_HOUR);
            WithOffset(off, zone, f, offset) == DateConstructor(off, zone, f) <==>
            !InLegacyYears(WallTime(f)) || offset.Nothing?
  {
    hide DateConstructor, WallTime, ProveHourOffset, InLegacyYears, Regular, LegacyShift;
    var wall := WallTime(f);
    var hour := wall / MS_PER_HOUR;
    HourOf(wall);
    if !InLegacyYears(wall) {
      CachedIsConstructor(off, zone, f);
    } else if ProveHourOffset(off, zone, hour).Just? {
      ProvenOffset(off, zone, hour, wall);
      ConstructorValue(off, zone, f);
      LegacyIsFar(wall);
      var shift := LegacyShift(wall);
      assert WithOffset(off, zone, f, ProveHourOffset(off, zone, hour)) ==
        TimeClip(wall + shift - off(zone, wall + shift));
    }
  }

  lemma LegacyIsFar(wall: int)
    requires InLegacyYears(wall)
    ensures 2000 * MS_PER_DAY <= LegacyShift(wall) <= 1000000 * MS_PER_DAY
    ensures -1000000 * MS_PER_DAY <= wall <= 0
  {
    var days := wall / MS_PER_DAY;
    var c := CivilOf(days);
    CivilOfDays(days);
    DaysWithinYear(c);
    MakeDayInYear(c.year, c.month - 1, c.day);
    MakeDayInYear(1900 + c.year, c.month - 1, c.day);
    DayFromYearMonotone(c.year, 1900 + c.year);
    DayFromYearMonotone(c.year, 100);
    DayFromYearMonotone(0, c.year);
    DayFromYearMonotone(100, 1970);
    LeapDaysOfYear(c.year);
    assert DayFromYear(1970) == 0;
    hide MakeDay, DaysFromCivil, DayFromYear, IsLeapYear, CivilOf;
  }

  /** A zone that is never ahead of UTC. */
  function NoOffset(zone: Zone, wall: int): int {
    0
  }

  lemma NoOffsetTime(zone: Zone, wall: int)
    requires InLegacyYears(wall)
    ensures LocalTime(NoOffset, zone, wall) == At(wall + LegacyShift(wall))
  {
    hide LocalTime, LegacyShift, InLegacyYears;
    LegacyIsFar(wall);
    LocalTimeShift(NoOffset, zone, wall);
  }

  lemma NoOffsetProven(zone: Zone, hour: int)
    requires InLegacyYears(hour * MS_PER_HOUR)
    ensures ProveHourOffset(NoOffset, zone, hour).Just?
  {
    hide LocalTime, LegacyShift, CivilOf;
    var start := hour * MS_PER_HOUR;
    HourInOneDay(hour, start + MS_PER_HOUR / 2);
    HourInOneDay(hour, start + MS_PER_HOUR - 1);
    NoOffsetTime(zone, start);
    NoOffsetTime(zone, start + MS_PER_HOUR / 2);
    NoOffsetTime(zone, start + MS_PER_HOUR - 1);
  }

  lemma DaysOfYear99()
    ensures DayFromYear(100) == -683003 && DayFromYear(0) == -719528 && DaysFromCivil(100, 1, 0) == -683004
  {
  }

  /** Such a call: day 0 of January 100 is the last day of the year 99. */
  lemma LastDayOfYear99(zone: Zone)
    ensures var f := Fields(100, 1, 0, 0, 0, 0, 0.0);
            && Regular(NoOffset) && Bounded(NoOffset) && !Uncached(f) && InLegacyYears(WallTime(f))
            && WithOffset(NoOffset, zone, f, ProveHourOffset(NoOffset, zone, WallTime(f) / MS_PER_HOUR)) !=
                 DateConstructor(NoOffset, zone, f)
  {
    hide ProveHourOffset, DateConstructor, WithOffset, CivilOf, DayFromYear, DaysFromCivil;
    var f := Fields(100, 1, 0, 0, 0, 0, 0.0);
    DaysOfYear99();
    YearOfDay(-683004, 100);
    YearOfDay(-683004, 0);
    assert WallTime(f) == -683004 * MS_PER_DAY;
    NoOffsetProven(zone, -683004 * 24);
    AgreesExactly(NoOffset, zone, f);
  }

  // ---------------------------------------------------------------- the cache

  datatype Event =
    | SetTimezone(zone: Zone)
    | CheckTimezone
    | LocalDate(fields: Fields)

  /** The time zone may have changed since the last check. */
  function Stale(events: seq<Event>): bool {
    if events == [] then false
    else match events[|events| - 1]
      case SetTimezone(_) => true
      case CheckTimezone => false
      case LocalDate(_) => Stale(events[..|events| - 1])
  }

  /** The zone in force after some events. */
  function ZoneAfter(events: seq<Event>, zone: Zone): Zone {
    if events == [] then zone
    else
      var last := events[|events| - 1];
      if last.SetTimezone? then last.zone else ZoneAfter(events[..|events| - 1], zone)
  }

  class LocalDateCache {
    const off: Offsets
    /** `process.env.TZ`. */
    var timezone: Zone
    var lastTimezone: Zone
    var hourOffsets: map<int, Maybe<int>>

    /** Every entry is what the probes of its hour give in the zone last seen. */
    ghost predicate Valid()
      reads this
    {
      && |hourOffsets| <= MAX_CACHED_HOURS
      && forall hour :: hour in hourOffsets ==> hourOffsets[hour] == ProveHourOffset(off, lastTimezone, hour)
    }

    constructor (off: Offsets, zone: Zone)
      ensures Valid() && this.off == off && timezone == zone && lastTimezone == zone
    {
      this.off := off;
      timezone, lastTimezone, hourOffsets := zone, zone, map[];
    }

    method CheckZone()
      requires Valid()
      modifies this
      ensures Valid() && timezone == old(timezone) && lastTimezone == timezone
    {
      if timezone != lastTimezone {
        lastTimezone := timezone;
        hourOffsets := map[];
      }
    }

    /** `localDate`, called while the zone is the one last seen. */
    method Lookup(f: Fields) returns (time: Time)
      requires Valid() && Regular(off) && timezone == lastTimezone
      modifies this`hourOffsets
      ensures Valid()
      ensures Uncached(f) || !InLegacyYears(WallTime(f)) ==> time == DateConstructor(off, timezone, f)
    {
      hide DateConstructor, DaysFromCivil, InLegacyYears, ProveHourOffset;
      if f.year < 100 || f.month < 1 || f.month > 12 {
        return DateConstructor(off, timezone, f);
      }
      var wallTime := WallTime(f);
      var hour := wallTime / MS_PER_HOUR;
      var offset := OffsetOf(hour);
      if !InLegacyYears(WallTime(f)) {
        CachedIsConstructor(off, timezone, f);
      }
      if offset.Nothing? {
        return DateConstructor(off, timezone, f);
      }
      return TimeClip(wallTime - offset.value);
    }

    method OffsetOf(hour: int) returns (offset: Maybe<int>)
      requires Valid() && timezone == lastTimezone
      modifies this`hourOffsets
      ensures Valid() && offset == ProveHourOffset(off, timezone, hour)
    {
      hide ProveHourOffset;
      if hour in hourOffsets {
        return hourOffsets[hour];
      }
      if |hourOffsets| >= MAX_CACHED_HOURS {
        hourOffsets := map[];
      }
      offset := ProveHourOffset(off, timezone, hour);
      ghost var was := hourOffsets;
      hourOffsets := hourOffsets[hour := offset];
      assert hourOffsets.Keys == was.Keys + {hour};
    }

    /** Every history of calls, flushes and zone changes: as long as each call follows a check of the zone,
        its value is the constructor's in the zone then in force. */
    method Run(events: seq<Event>) returns (times: seq<Time>)
      requires Valid() && Regular(off) && timezone == lastTimezone
      requires forall k :: 0 <= k < |events| && events[k].LocalDate? ==> !Stale(events[..k])
      modifies this
      ensures Valid() && |times| == |events|
      ensures forall k :: 0 <= k < |events| && events[k].LocalDate? ==>
                var f := events[k].fields;
                Uncached(f) || !InLegacyYears(WallTime(f)) ==>
                  times[k] == DateConstructor(off, ZoneAfter(events[..k], old(timezone)), f)
    {
      hide DateConstructor, WallTime, InLegacyYears, ProveHourOffset, Regular;
      times := [];
      for k := 0 to |events|
        invariant Valid() && |times| == k && timezone == ZoneAfter(events[..k], old(timezone))
        invariant !Stale(events[..k]) ==> timezone == lastTimezone
        invariant forall j :: 0 <= j < k && events[j].LocalDate? ==>
                    var f := events[j].fields;
                    Uncached(f) || !InLegacyYears(WallTime(f)) ==>
                      times[j] == DateConstructor(off, ZoneAfter(events[..j], old(timezone)), f)
      {
        assert events[..k + 1][..k] == events[..k];
        var time := NaN;
        match events[k] {
          case SetTimezone(zone) => timezone := zone;
          case CheckTimezone => CheckZone();
          case LocalDate(f) => time := Lookup(f);
        }
        times := times + [time];
      }
    }
  }
}
