/** The timezone planner: one day of 24 local hours for the picked date, each
    joined with the stored vote of its UTC slot; a click toggles the slot's
    `"${day}-${hour}"` key; submitting turns every selected key back into a
    (day, hour) pair and converts it to UTC. */
module TimeZoneScheduler {
  import opened JsText
  import opened TimeKeys
  import opened VoteRecords
  import opened Selection

  /** `DAYS_OF_WEEK`, indexed as `Date.getDay` numbers weekdays. */
  const DaysOfWeek: seq<string> :=
    ["Sunday", "Monday", "Tuesday", "Wednesday", "Thursday", "Friday", "Saturday"]

  /** No day name holds the key separator. */
  lemma DayNameHasNoHyphen(d: int)
    requires 0 <= d < 7
    ensures '-' !in DaysOfWeek[d]
  {
  }

  /** `DAYS_OF_WEEK.indexOf(name)`, with `None` for -1. */
  function DayIndex(name: string): (r: Option<nat>)
    ensures r.Some? ==> r.value < 7 && DaysOfWeek[r.value] == name
    ensures r.None? ==> name !in DaysOfWeek
  {
    if name == "Sunday" then Some(0)
    else if name == "Monday" then Some(1)
    else if name == "Tuesday" then Some(2)
    else if name == "Wednesday" then Some(3)
    else if name == "Thursday" then Some(4)
    else if name == "Friday" then Some(5)
    else if name == "Saturday" then Some(6)
    else None
  }

  /** The day names are distinct, so each one's index names it back. */
  lemma DayIndexOfName(d: int)
    requires 0 <= d < 7
    ensures DayIndex(DaysOfWeek[d]) == Some(d)
  {
  }

  /** `${day}-${hour}`: a slot's key in `selectedSlots`. */
  function SlotKeyOf(day: string, hour: nat): string {
    day + "-" + NatToString(hour)
  }

  /** `const [day, hourStr] = slotKey.split('-'); parseInt(hourStr)`: the text
      before the first '-' and the number after it; `None` when there is no
      second part (`parseInt(undefined)`) or it holds no digit (`NaN`). */
  function ParseSlotKey(key: string): (r: (string, Option<int>))
    ensures '-' !in r.0 && |r.0| <= |key| && r.0 == key[..|r.0|]
    ensures '-' !in key ==> r == (key, None)
    ensures '-' in key ==> |r.0| < |key| && key[|r.0|] == '-' && r.1 == ParseInt(FirstPart(key[|r.0| + 1..]))
  {
    var parts := Split(key, '-');
    if '-' in key then
      var i := IndexOfChar(key, '-');
      assert parts == [key[..i]] + Split(key[i + 1..], '-');
      SplitHead(key[i + 1..]);
      (parts[0], ParseInt(parts[1]))
    else
      (parts[0], None)
  }

  /** The text of `s` before its first '-', or all of it when it has none:
      what `split('-')` puts first. */
  function FirstPart(s: string): (p: string)
    ensures '-' !in p && |p| <= |s| && p == s[..|p|]
    ensures |p| < |s| ==> s[|p|] == '-'
  {
    if '-' in s then s[..IndexOfChar(s, '-')] else s
  }

  /** The first piece `split` gives is the text before the first separator. */
  lemma SplitHead(s: string)
    ensures Split(s, '-')[0] == FirstPart(s)
  {
  }

  /** Parsing a key recovers the day and hour it was built from, for every
      day name without a '-'. */
  lemma KeyRoundTrip(day: string, hour: nat)
    requires '-' !in day
    ensures ParseSlotKey(SlotKeyOf(day, hour)) == (day, Some(hour as int))
  {
    var digits := NatToString(hour);
    assert forall i :: 0 <= i < |digits| ==> IsDigit(digits[i]);
    assert '-' !in digits;
    assert SlotKeyOf(day, hour) == day + ['-'] + digits;
    SplitTwo(day, digits, '-');
    ParseIntOfNatToString(hour);
  }

  /** Two slots of the planner have the same key only if they have the same
      day name and hour. */
  lemma KeyInjective(d1: int, h1: nat, d2: int, h2: nat)
    requires 0 <= d1 < 7 && 0 <= d2 < 7
    requires SlotKeyOf(DaysOfWeek[d1], h1) == SlotKeyOf(DaysOfWeek[d2], h2)
    ensures DaysOfWeek[d1] == DaysOfWeek[d2] && h1 == h2
  {
    DayNameHasNoHyphen(d1);
    DayNameHasNoHyphen(d2);
    KeyRoundTrip(DaysOfWeek[d1], h1);
    KeyRoundTrip(DaysOfWeek[d2], h2);
  }

  /** One slot of the planner: its local day name and hour, the UTC slot
      (weekday index and hour) of that local hour, the stored count of the
      UTC slot, and whether its key is selected. The `Date` objects the code
      keeps are represented by the UTC slot alone. */
  datatype SchedulerSlot = SchedulerSlot(day: string, hour: nat, utc: SlotKey, votes: int, selected: bool)

  /** The slot for local hour `hour` on a date whose weekday is `dateDay`. */
  function SlotAt(votes: seq<TimeVote>, dateDay: int, offset: int, selected: set<string>, hour: nat): (slot: SchedulerSlot)
    requires 0 <= dateDay < 7
    ensures slot.day == DaysOfWeek[dateDay] && slot.hour == hour && ValidKey(slot.utc)
    ensures (forall j :: 0 <= j < |votes| ==> !Matches(votes[j], DaysOfWeek[slot.utc.day], slot.utc.hour)) ==> slot.votes == 0
    ensures forall j :: 0 <= j < |votes| && IsFirstMatch(votes, DaysOfWeek[slot.utc.day], slot.utc.hour, j) ==>
      slot.votes == votes[j].voteCount
    ensures slot.selected <==> SlotKeyOf(DaysOfWeek[dateDay], hour) in selected
  {
    var k := LocalToUtc(dateDay, hour, offset);
    SchedulerSlot(DaysOfWeek[dateDay], hour, k, VoteCountFor(votes, DaysOfWeek[k.day], k.hour),
                  SlotKeyOf(DaysOfWeek[dateDay], hour) in selected)
  }

  /** One pass of the `for` loop in `loadTimeSlots`, with the remainder and
      the day rollover written out as the loop body does them. */
  method BuildSlot(votes: seq<TimeVote>, dateDay: int, offset: int, selected: set<string>, hour: nat)
    returns (slot: SchedulerSlot)
    requires 0 <= dateDay < 7
    ensures slot == SlotAt(votes, dateDay, offset, selected, hour)
  {
    var dayName := DaysOfWeek[dateDay];
    var utcHour := JsRem(hour + offset, 24);
    if utcHour < 0 {
      utcHour := utcHour + 24;
    }
    var utcDate := dateDay;
    if hour + offset < 0 {
      utcDate := (utcDate - 1 + 7) % 7;
    } else if hour + offset >= 24 {
      utcDate := (utcDate + 1) % 7;
    }
    JsUtcHourIsUtcHour(hour, offset);
    JsRolloverDayIsRolloverDay(dateDay, hour, offset);
    assert SlotKey(utcDate, utcHour) == LocalToUtc(dateDay, hour, offset);
    var utcDay := DaysOfWeek[utcDate];
    var slotKey := SlotKeyOf(dayName, hour);
    slot := SchedulerSlot(dayName, hour, SlotKey(utcDate, utcHour),
                          VoteCountFor(votes, utcDay, utcHour), slotKey in selected);
  }

  /** Converting a slot's UTC slot back to local time gives the picked date's
      weekday and the slot's hour. */
  lemma SlotUtcRoundTrip(votes: seq<TimeVote>, dateDay: int, offset: int, selected: set<string>, hour: nat)
    requires 0 <= dateDay < 7 && hour < 24 && -24 < offset < 24
    ensures UtcToLocal(SlotAt(votes, dateDay, offset, selected, hour).utc, offset) == SlotKey(dateDay, hour)
  {
    RoundTrip(dateDay, hour, offset);
  }

  /** A slot's UTC day is the picked weekday moved back one when
      `hour + offset < 0`, forward one when `hour + offset >= 24`, and the
      same otherwise, around the week. */
  lemma SlotUtcDay(votes: seq<TimeVote>, dateDay: int, offset: int, selected: set<string>, hour: nat)
    requires 0 <= dateDay < 7
    ensures var d := SlotAt(votes, dateDay, offset, selected, hour).utc.day;
      && (hour + offset < 0 ==> (d + 1) % 7 == dateDay)
      && (0 <= hour + offset < 24 ==> d == dateDay)
      && (hour + offset >= 24 ==> d == (dateDay + 1) % 7)
  {
  }

  /** A slot is shown selected exactly when its key is in the selection, so
      toggling one slot's key flips that slot and no other slot of the day. */
  lemma ToggleFlipsOneSlot(votes: seq<TimeVote>, dateDay: int, offset: int, selected: set<string>, hour: nat, other: nat)
    requires 0 <= dateDay < 7
    ensures var toggled := Toggled(selected, SlotKeyOf(DaysOfWeek[dateDay], hour));
      && (SlotAt(votes, dateDay, offset, toggled, hour).selected <==> SlotKeyOf(DaysOfWeek[dateDay], hour) in toggled)
      && (SlotAt(votes, dateDay, offset, toggled, other).selected <==> SlotKeyOf(DaysOfWeek[dateDay], other) in toggled)
    ensures var toggled := Toggled(selected, SlotKeyOf(DaysOfWeek[dateDay], hour));
      && SlotAt(votes, dateDay, offset, toggled, hour).selected == !SlotAt(votes, dateDay, offset, selected, hour).selected
      && (other != hour ==> SlotAt(votes, dateDay, offset, toggled, other) == SlotAt(votes, dateDay, offset, selected, other))
  {
    if other != hour && SlotKeyOf(DaysOfWeek[dateDay], other) == SlotKeyOf(DaysOfWeek[dateDay], hour) {
      KeyInjective(dateDay, other, dateDay, hour);
    }
  }

  /** One record of the POST body: the UTC day name and hour (stored twice,
      as `hour` and `utc_hour`) and the local day name and hour of the key.
      The ISO timestamp `utc_time` is not represented. */
  datatype VoteSubmission = VoteSubmission(day: string, hour: int, utcHour: int, localDay: string, localHour: int)

  /** The record `submitVotes` builds for one key, AS WRITTEN: the UTC day is
      rolled over from the weekday of the date picked in the calendar
      (`pickerDay`), not from the day named in the key, after `setHours`
      has carried an hour outside 0..23 into that date. `None` when the hour
      does not parse (the code then throws building the timestamp). */
  function SubmissionAsWritten(key: string, pickerDay: int, offset: int): (r: Option<VoteSubmission>)
    requires 0 <= pickerDay < 7
    ensures r.Some? <==> ParseSlotKey(key).1.Some?
    ensures r.Some? ==> r.value.localDay == ParseSlotKey(key).0 && Some(r.value.localHour) == ParseSlotKey(key).1
    ensures r.Some? ==> r.value.hour == r.value.utcHour && 0 <= r.value.hour < 24 && r.value.day in DaysOfWeek
  {
    var (day, localHour) := ParseSlotKey(key);
    match localHour
    case None => None
    case Some(h) =>
      var k := LocalToUtc(SetHoursDay(pickerDay, h), h, offset);
      Some(VoteSubmission(DaysOfWeek[k.day], k.hour, k.hour, day, h))
  }

  /** The as-written record's UTC slot is the picked weekday at the key's
      hour converted to UTC, and it converts back to (picked weekday, key
      hour); `UtcSlotOfPickedDate` places it `offset` hours later in the week. */
  lemma {:induction false} SubmissionAsWrittenFromPickedDate(key: string, pickerDay: int, offset: int)
    requires 0 <= pickerDay < 7 && -24 < offset < 24
    requires SubmissionAsWritten(key, pickerDay, offset).Some?
    requires 0 <= SubmissionAsWritten(key, pickerDay, offset).value.localHour < 24
    ensures var r := SubmissionAsWritten(key, pickerDay, offset).value;
      && DayIndex(r.day).Some?
      && SlotKey(DayIndex(r.day).value, r.hour) == LocalToUtc(pickerDay, r.localHour, offset)
      && UtcToLocal(SlotKey(DayIndex(r.day).value, r.hour), offset) == SlotKey(pickerDay, r.localHour)
  {
    var r := SubmissionAsWritten(key, pickerDay, offset).value;
    var k := LocalToUtc(pickerDay, r.localHour, offset);
    assert SetHoursDay(pickerDay, r.localHour) == pickerDay;
    assert r.day == DaysOfWeek[k.day] && r.hour == k.hour;
    UtcSlotOfPickedDate(pickerDay, r.localHour, offset);
    assert DayIndex(r.day) == Some(k.day);
    assert SlotKey(DayIndex(r.day).value, r.hour) == k;
  }

  /** The UTC slot of a local hour on the picked weekday, named by its day
      name, converts back and is `offset` hours later in the week. */
  lemma {:induction false} UtcSlotOfPickedDate(pickerDay: int, h: int, offset: int)
    requires 0 <= pickerDay < 7 && 0 <= h < 24 && -24 < offset < 24
    ensures var k := LocalToUtc(pickerDay, h, offset);
      && DayIndex(DaysOfWeek[k.day]) == Some(k.day)
      && UtcToLocal(k, offset) == SlotKey(pickerDay, h)
      && WeekHour(k) == (24 * pickerDay + h + offset) % 168
  {
    var k := LocalToUtc(pickerDay, h, offset);
    DayIndexOfName(k.day);
    RoundTrip(pickerDay, h, offset);
    LocalToUtcWeekHour(pickerDay, h, offset);
  }

  /** At UTC+0 local and UTC time coincide, yet the key of a slot on weekday
      `d` submitted while the calendar shows another weekday `p` (say
      "Monday-10" with a Tuesday picked) is recorded on day `p` with local
      day `d`; the record with the key's own day keeps `d`. */
  lemma SubmissionAsWrittenUsesPickerDay(d: int, p: int, hour: nat)
    requires 0 <= d < 7 && 0 <= p < 7 && d != p && hour < 24
    ensures var r := SubmissionAsWritten(SlotKeyOf(DaysOfWeek[d], hour), p, 0);
      && r.Some? && r.value.hour == hour
      && r.value.day == DaysOfWeek[p] && r.value.localDay == DaysOfWeek[d] && r.value.day != r.value.localDay
    ensures var r := Submission(SlotKeyOf(DaysOfWeek[d], hour), 0);
      r.Some? && r.value.hour == hour && r.value.day == DaysOfWeek[d]
  {
    LocalToUtcWithinDay(p, hour, 0);
    LocalToUtcWithinDay(d, hour, 0);
    DayNameHasNoHyphen(d);
    KeyRoundTrip(DaysOfWeek[d], hour);
    DayIndexOfName(d);
    DayIndexOfName(p);
  }

  /** The record for one key with the UTC day rolled over from the day named
      in the key itself; `None` when the key names no weekday or its hour does
      not parse. */
  function Submission(key: string, offset: int): (r: Option<VoteSubmission>)
    ensures r.Some? <==> DayIndex(ParseSlotKey(key).0).Some? && ParseSlotKey(key).1.Some?
    ensures r.Some? ==> r.value.localDay == ParseSlotKey(key).0 && Some(r.value.localHour) == ParseSlotKey(key).1
    ensures r.Some? ==> r.value.hour == r.value.utcHour && 0 <= r.value.hour < 24 && r.value.day in DaysOfWeek
  {
    var (day, localHour) := ParseSlotKey(key);
    match (DayIndex(day), localHour)
    case (Some(d), Some(h)) =>
      var k := LocalToUtc(d, h, offset);
      Some(VoteSubmission(DaysOfWeek[k.day], k.hour, k.hour, day, h))
    case _ => None
  }

  /** The record for a planner slot's key carries the slot's day and hour as
      local values, and its UTC day and hour convert back to them. */
  lemma {:induction false} SubmissionRoundTrip(d: int, hour: nat, offset: int)
    requires 0 <= d < 7 && hour < 24 && -24 < offset < 24
    ensures var r := Submission(SlotKeyOf(DaysOfWeek[d], hour), offset);
      && r.Some?
      && r.value.localDay == DaysOfWeek[d] && r.value.localHour == hour
      && DayIndex(r.value.day).Some?
      && UtcToLocal(SlotKey(DayIndex(r.value.day).value, r.value.hour), offset) == SlotKey(d, hour)
  {
    DayNameHasNoHyphen(d);
    KeyRoundTrip(DaysOfWeek[d], hour);
    DayIndexOfName(d);
    var k := LocalToUtc(d, hour, offset);
    DayIndexOfName(k.day);
    RoundTrip(d, hour, offset);
  }

  /** The record for a slot's key (its hour one of the day's 0..23) is that
      slot's UTC slot whenever the calendar shows the key's own day; this is
      also the only case in which the as-written record is right. */
  lemma SubmissionMatchesSlot(votes: seq<TimeVote>, dateDay: int, offset: int, selected: set<string>, hour: nat)
    requires 0 <= dateDay < 7 && hour < 24
    ensures var slot := SlotAt(votes, dateDay, offset, selected, hour);
      var r := Submission(SlotKeyOf(slot.day, slot.hour), offset);
      && r.Some?
      && r == SubmissionAsWritten(SlotKeyOf(slot.day, slot.hour), dateDay, offset)
      && r.value.day == DaysOfWeek[slot.utc.day] && r.value.hour == slot.utc.hour
  {
    DayNameHasNoHyphen(dateDay);
    KeyRoundTrip(DaysOfWeek[dateDay], hour);
    DayIndexOfName(dateDay);
    assert SetHoursDay(dateDay, hour) == dateDay;
  }

  /** The 24 slots of the picked date, local hours 0..23 in order. */
  function DaySlots(votes: seq<TimeVote>, dateDay: int, offset: int, selected: set<string>): (slots: seq<SchedulerSlot>)
    requires 0 <= dateDay < 7
    ensures |slots| == 24
    ensures forall i :: 0 <= i < 24 ==> slots[i] == SlotAt(votes, dateDay, offset, selected, i)
  {
    seq(24, i requires 0 <= i < 24 => SlotAt(votes, dateDay, offset, selected, i))
  }

  /** The `for` loop of `loadTimeSlots`: one slot per local hour 0..23,
      pushed in order. */
  method BuildDaySlots(votes: seq<TimeVote>, dateDay: int, offset: int, selected: set<string>)
    returns (slots: seq<SchedulerSlot>)
    requires 0 <= dateDay < 7
    ensures |slots| == 24
    ensures forall i :: 0 <= i < 24 ==> slots[i].hour == i && slots[i].day == DaysOfWeek[dateDay]
    ensures slots == DaySlots(votes, dateDay, offset, selected)
  {
    slots := [];
    var hour := 0;
    while hour < 24
      invariant 0 <= hour <= 24 && |slots| == hour
      invariant forall i :: 0 <= i < hour ==> slots[i] == SlotAt(votes, dateDay, offset, selected, i)
    {
      var slot := BuildSlot(votes, dateDay, offset, selected, hour);
      slots := slots + [slot];
      hour := hour + 1;
    }
  }

  /** `Array.from(keys).map(f)`: every key visited once, in some order
      (`order`), and its value collected in that order; `None` when `f` gives
      no value for some key. */
  method MapKeys<T>(keys: set<string>, f: string -> Option<T>) returns (results: Option<seq<T>>, order: seq<string>)
    ensures |order| == |keys|
    ensures forall k :: k in order <==> k in keys
    ensures forall i, j :: 0 <= i < j < |order| ==> order[i] != order[j]
    ensures results.Some? <==> forall i :: 0 <= i < |order| ==> f(order[i]).Some?
    ensures results.Some? ==> |results.value| == |order|
    ensures results.Some? ==> forall i :: 0 <= i < |order| ==> f(order[i]) == Some(results.value[i])
  {
    var rest := keys;
    var values: seq<T> := [];
    var ok := true;
    order := [];
    while rest != {}
      invariant rest <= keys
      invariant forall k :: k in keys <==> k in rest || k in order
      invariant forall k :: k in order ==> k !in rest
      invariant |order| + |rest| == |keys|
      invariant forall i, j :: 0 <= i < j < |order| ==> order[i] != order[j]
      invariant ok <==> forall i :: 0 <= i < |order| ==> f(order[i]).Some?
      invariant ok ==> |values| == |order|
      invariant ok ==> forall i :: 0 <= i < |order| ==> f(order[i]) == Some(values[i])
      decreases |rest|
    {
      var k :| k in rest;
      var r := f(k);
      if r.None? {
        ok := false;
      } else if ok {
        values := values + [r.value];
      }
      var before := order;
      order := order + [k];
      assert forall i :: 0 <= i < |before| ==> order[i] == before[i];
      assert order[|before|] == k;
      rest := rest - {k};
    }
    results := if ok then Some(values) else None;
  }

  /** The records `submitVotes` sends, as written: one per selected key, in
      the order the keys are visited (`order`), each rolled over from
      `pickerDay`, the weekday of the picked date (today's when none is
      picked); `None` when some key gives no record. */
  method BuildSubmissions(selected: set<string>, pickerDay: int, offset: int)
    returns (posted: Option<seq<VoteSubmission>>, order: seq<string>)
    requires 0 <= pickerDay < 7
    ensures |order| == |selected|
    ensures forall k :: k in order <==> k in selected
    ensures forall i, j :: 0 <= i < j < |order| ==> order[i] != order[j]
    ensures posted.Some? <==> forall i :: 0 <= i < |order| ==> SubmissionAsWritten(order[i], pickerDay, offset).Some?
    ensures posted.Some? ==> |posted.value| == |order|
    ensures posted.Some? ==>
      forall i :: 0 <= i < |order| ==> SubmissionAsWritten(order[i], pickerDay, offset) == Some(posted.value[i])
  {
    posted, order := MapKeys(selected, k => SubmissionAsWritten(k, pickerDay, offset));
  }

  /** The planner's state: the slots shown for the picked date and the set of
      selected slot keys. */
  class Scheduler {
    var timeSlots: seq<SchedulerSlot>
    var selectedSlots: set<string>

    constructor ()
      ensures timeSlots == [] && selectedSlots == {}
    {
      timeSlots := [];
      selectedSlots := {};
    }

    /** `loadTimeSlots`: for the picked date (`None` when the calendar has no
        date, and nothing happens) shows the 24 slots of that day. */
    method LoadTimeSlots(votes: seq<TimeVote>, date: Option<int>, offset: int)
      requires date.Some? ==> 0 <= date.value < 7
      modifies this
      ensures selectedSlots == old(selectedSlots)
      ensures date.None? ==> timeSlots == old(timeSlots)
      ensures date.Some? ==> timeSlots == DaySlots(votes, date.value, offset, selectedSlots)
    {
      if date.Some? {
        timeSlots := BuildDaySlots(votes, date.value, offset, selectedSlots);
      }
    }

    /** `toggleTimeSlot`: the slot's key leaves the selection if it is in it
        and joins it otherwise. */
    method ToggleTimeSlot(slot: SchedulerSlot)
      modifies this
      ensures selectedSlots == Toggled(old(selectedSlots), SlotKeyOf(slot.day, slot.hour))
      ensures timeSlots == old(timeSlots)
    {
      var slotKey := SlotKeyOf(slot.day, slot.hour);
      var newSelectedSlots := selectedSlots;
      if slotKey in selectedSlots {
        newSelectedSlots := newSelectedSlots - {slotKey};
      } else {
        newSelectedSlots := newSelectedSlots + {slotKey};
      }
      selectedSlots := newSelectedSlots;
    }

    /** `submitVotes`: the records of the selected keys are sent, each
        rolled over from the weekday of the picked date (`date`, or `today`
        when none is picked), as the code does; when the server answers
        `postOk` the selection is cleared, otherwise it is kept. Nothing is
        sent when some key gives no record. */
    method SubmitVotes(date: Option<int>, today: int, offset: int, postOk: bool)
      returns (posted: Option<seq<VoteSubmission>>, order: seq<string>)
      requires 0 <= today < 7 && (date.Some? ==> 0 <= date.value < 7)
      modifies this
      ensures |order| == |old(selectedSlots)|
      ensures forall k :: k in order <==> k in old(selectedSlots)
      ensures var pickerDay := if date.Some? then date.value else today;
        posted.Some? <==> forall i :: 0 <= i < |order| ==> SubmissionAsWritten(order[i], pickerDay, offset).Some?
      ensures posted.Some? ==> |posted.value| == |order|
      ensures var pickerDay := if date.Some? then date.value else today;
        posted.Some? ==>
          forall i :: 0 <= i < |order| ==> SubmissionAsWritten(order[i], pickerDay, offset) == Some(posted.value[i])
      ensures selectedSlots == if posted.Some? && postOk then {} else old(selectedSlots)
      ensures timeSlots == old(timeSlots)
    {
      var selectedDate := if date.Some? then date.value else today;
      posted, order := BuildSubmissions(selectedSlots, selectedDate, offset);
      if posted.Some? && postOk {
        selectedSlots := {};
      }
    }
  }
}
