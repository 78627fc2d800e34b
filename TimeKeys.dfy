/** The local-to-UTC slot conversion shared by the poll grid, the timezone
    planner's slot loop and its vote submission.

    A weekday is an index 0..6 with Sunday = 0 (as `Date.getDay` numbers
    them). The offset is `Date.getTimezoneOffset() / 60`: whole hours of UTC
    minus local time, so the UTC hour is the local hour plus the offset.
    The code computes `(hour + offset) % 24` with JavaScript's truncating
    remainder, adds 24 to a negative result, and moves the day back one when
    `hour + offset < 0` and forward one when `hour + offset >= 24`. */
module TimeKeys {

  /** JavaScript's `%` on integers: it truncates toward zero, so the
      remainder carries the sign of the dividend. */
  function JsRem(a: int, b: int): (r: int)
    requires b > 0
    ensures -b < r < b
    ensures a >= 0 ==> r >= 0
    ensures a <= 0 ==> r <= 0
  {
    if a >= 0 then a % b else -((-a) % b)
  }

  /** A (weekday, hour) slot. */
  datatype SlotKey = SlotKey(day: int, hour: int)

  predicate ValidKey(k: SlotKey) {
    0 <= k.day < 7 && 0 <= k.hour < 24
  }

  /** Hours since the start of Sunday: the slot's place in the week. */
  function WeekHour(k: SlotKey): int {
    24 * k.day + k.hour
  }

  /** The UTC hour of local hour `hour`: the Euclidean remainder of
      `hour + offset` by 24. */
  function UtcHour(hour: int, offset: int): (u: int)
    ensures 0 <= u < 24
  {
    (hour + offset) % 24
  }

  /** `let utcHour = (hour + offset) % 24; if (utcHour < 0) utcHour += 24;`
      with JavaScript's truncating remainder. */
  function JsUtcHour(hour: int, offset: int): int {
    var r := JsRem(hour + offset, 24);
    if r < 0 then r + 24 else r
  }

  /** The code's remainder-and-correct computation gives the Euclidean
      remainder for every integer input. */
  lemma JsUtcHourIsUtcHour(hour: int, offset: int)
    ensures JsUtcHour(hour, offset) == UtcHour(hour, offset)
  {
    var a := hour + offset;
    if a < 0 {
      var q := (-a) / 24;
      assert -a == 24 * q + (-a) % 24;
      if (-a) % 24 == 0 {
        assert a == 24 * (-q);
      } else {
        assert a == 24 * (-q - 1) + (24 - (-a) % 24);
      }
    }
  }

  /** The day rollover: back one weekday when `hour + offset < 0`, forward one
      when `hour + offset >= 24`, unchanged otherwise; Saturday wraps to Sunday
      and Sunday back to Saturday. */
  function RolloverDay(day: int, hour: int, offset: int): (d: int)
    requires 0 <= day < 7
    ensures 0 <= d < 7
  {
    if hour + offset < 0 then (if day == 0 then 6 else day - 1)
    else if hour + offset >= 24 then (if day == 6 then 0 else day + 1)
    else day
  }

  /** `(utcDayIndex - 1 + 7) % 7` and `(utcDayIndex + 1) % 7`, as the code
      writes the two rollover branches. */
  function JsRolloverDay(day: int, hour: int, offset: int): int {
    if hour + offset < 0 then (day - 1 + 7) % 7
    else if hour + offset >= 24 then (day + 1) % 7
    else day
  }

  lemma JsRolloverDayIsRolloverDay(day: int, hour: int, offset: int)
    requires 0 <= day < 7
    ensures JsRolloverDay(day, hour, offset) == RolloverDay(day, hour, offset)
  {
  }

  /** While `hour + offset` lies within one day either side, the rollover
      moves the day by the floor of `(hour + offset) / 24` around the week. */
  lemma RolloverDayIsFloorShift(day: int, hour: int, offset: int)
    requires 0 <= day < 7 && -24 <= hour + offset < 48
    ensures RolloverDay(day, hour, offset) == (day + (hour + offset) / 24) % 7
  {
    var t := hour + offset;
    if t < 0 {
      assert t / 24 == -1;
    } else if t < 24 {
      assert t / 24 == 0;
    } else {
      assert t / 24 == 1;
    }
  }

  /** The weekday a date on weekday `day` shows after `setHours(hour)`: an
      hour outside 0..23 carries into the date, moving it by
      `floor(hour / 24)` days. */
  function SetHoursDay(day: int, hour: int): (d: int)
    requires 0 <= day < 7
    ensures 0 <= d < 7
    ensures 0 <= hour < 24 ==> d == day
    ensures 24 * d + hour % 24 == (24 * day + hour) % 168
  {
    var d := (day + hour / 24) % 7;
    SetHoursWeekHour(day, hour, d);
    d
  }

  /** The slot `setHours` lands on is `hour` hours into weekday `day`,
      modulo one week. */
  lemma SetHoursWeekHour(day: int, hour: int, d: int)
    requires 0 <= day < 7 && d == (day + hour / 24) % 7
    ensures 24 * d + hour % 24 == (24 * day + hour) % 168
  {
    var q := hour / 24;
    var r := hour % 24;
    assert hour == 24 * q + r && 0 <= r < 24;
    var t := (day + q) / 7;
    assert day + q == 7 * t + d && 0 <= d < 7;
    assert 24 * day + hour == 168 * t + (24 * d + r);
    assert 0 <= 24 * d + r < 168;
  }

  /** The canonical UTC slot of local weekday `day` at local hour `hour`. */
  function LocalToUtc(day: int, hour: int, offset: int): (k: SlotKey)
    requires 0 <= day < 7
    ensures ValidKey(k)
  {
    SlotKey(RolloverDay(day, hour, offset), UtcHour(hour, offset))
  }

  /** When `hour + offset` stays within the day, the UTC slot is on the same
      weekday at hour `hour + offset`. */
  lemma LocalToUtcWithinDay(day: int, hour: int, offset: int)
    requires 0 <= day < 7 && 0 <= hour + offset < 24
    ensures LocalToUtc(day, hour, offset) == SlotKey(day, hour + offset)
  {
    assert (hour + offset) % 24 == hour + offset;
  }

  /** The UTC slot is the same moment of the week: converting moves the
      week-hour by exactly `offset`, modulo one week. */
  lemma LocalToUtcWeekHour(day: int, hour: int, offset: int)
    requires 0 <= day < 7 && -24 <= hour + offset < 48
    ensures WeekHour(LocalToUtc(day, hour, offset)) == (24 * day + hour + offset) % 168
  {
    RolloverDayIsFloorShift(day, hour, offset);
    WeekHourOfRollover(day, hour + offset);
  }

  /** Week-hour arithmetic for a shift of at most one day in either direction. */
  lemma WeekHourOfRollover(day: int, t: int)
    requires 0 <= day < 7 && -24 <= t < 48
    ensures 24 * ((day + t / 24) % 7) + t % 24 == (24 * day + t) % 168
  {
    if t < 0 {
      assert t / 24 == -1 && t % 24 == t + 24;
      if day == 0 {
        assert (day + t / 24) % 7 == 6;
        assert (24 * day + t) % 168 == 168 + t;
      } else {
        assert (day + t / 24) % 7 == day - 1;
        assert (24 * day + t) % 168 == 24 * day + t;
      }
    } else if t < 24 {
      assert t / 24 == 0 && t % 24 == t;
      assert (24 * day + t) % 168 == 24 * day + t;
    } else {
      assert t / 24 == 1 && t % 24 == t - 24;
      if day == 6 {
        assert (day + t / 24) % 7 == 0;
        assert (24 * day + t) % 168 == t - 24;
      } else {
        assert (day + t / 24) % 7 == day + 1;
        assert (24 * day + t) % 168 == 24 * day + t;
      }
    }
  }

  /** The conversion back from a UTC slot to local time: the same rule with
      the offset negated. */
  function UtcToLocal(k: SlotKey, offset: int): (l: SlotKey)
    requires 0 <= k.day < 7
    ensures ValidKey(l)
  {
    LocalToUtc(k.day, k.hour, -offset)
  }

  /** A valid slot is determined by its week-hour. */
  lemma WeekHourInjective(a: SlotKey, b: SlotKey)
    requires ValidKey(a) && ValidKey(b) && WeekHour(a) == WeekHour(b)
    ensures a == b
  {
    DivOfWeekHour(a);
    DivOfWeekHour(b);
  }

  lemma DivOfWeekHour(k: SlotKey)
    requires ValidKey(k)
    ensures WeekHour(k) / 24 == k.day && WeekHour(k) % 24 == k.hour
  {
  }

  lemma ModShift(x: int, o: int)
    ensures (x % 168 - o) % 168 == (x - o) % 168
  {
    var q := x / 168;
    assert x == 168 * q + x % 168;
    assert x - o == (x % 168 - o) + 168 * q;
  }

  /** Shifting a week-hour forward by `o` and back by `o`, modulo a week, is the identity. */
  lemma ShiftBack(w: int, o: int, forth: int, back: int)
    requires 0 <= w < 168 && forth == (w + o) % 168 && back == (forth - o) % 168
    ensures back == w
  {
    ModShift(w + o, o);
    assert w + o - o == w;
  }

  /** Converting to UTC and back with the same whole-hour offset recovers the
      local slot, for every offset of less than a day (real offsets lie
      between -14 and +12 hours). */
  lemma {:induction false} RoundTrip(day: int, hour: int, offset: int)
    requires 0 <= day < 7 && 0 <= hour < 24 && -24 < offset < 24
    ensures UtcToLocal(LocalToUtc(day, hour, offset), offset) == SlotKey(day, hour)
  {
    var k := LocalToUtc(day, hour, offset);
    var l := UtcToLocal(k, offset);
    var w := WeekHour(SlotKey(day, hour));
    LocalToUtcWeekHour(day, hour, offset);
    LocalToUtcWeekHour(k.day, k.hour, -offset);
    ShiftBack(w, offset, WeekHour(k), WeekHour(l));
    WeekHourInjective(l, SlotKey(day, hour));
  }

  /** Converting a UTC slot to local time and back recovers it. */
  lemma {:induction false} RoundTripFromUtc(k: SlotKey, offset: int)
    requires ValidKey(k) && -24 < offset < 24
    ensures LocalToUtc(UtcToLocal(k, offset).day, UtcToLocal(k, offset).hour, offset) == k
  {
    RoundTrip(k.day, k.hour, -offset);
  }

  /** Local midnight on Monday one hour east of UTC (offset -1) is Sunday 23:00 UTC. */
  lemma MondayMidnightEastOfUtc()
    ensures LocalToUtc(1, 0, -1) == SlotKey(0, 23)
  {
  }
}
