/** The weekly availability grid: 24 display hours by 7 weekday columns,
    each cell converted to its UTC slot and joined with the stored votes;
    clicking a cell toggles it in the selection; a cell's shade follows its
    share of the largest count. */
module EventTimePoll {
  import opened JsText
  import opened TimeKeys
  import opened VoteRecords
  import opened Selection

  /** The grid's columns, Monday first. */
  const Days: seq<string> := ["Mon", "Tue", "Wed", "Thu", "Fri", "Sat", "Sun"]

  /** Column name to `Date.getDay` index: Sunday is 0. */
  const DayIndexMap: map<string, int> :=
    map["Mon" := 1, "Tue" := 2, "Wed" := 3, "Thu" := 4, "Fri" := 5, "Sat" := 6, "Sun" := 0]

  /** `days[i === 0 ? 6 : i - 1]`: the column name of weekday index `i`. */
  function DayName(i: int): (name: string)
    requires 0 <= i < 7
    ensures name in Days
    ensures name in DayIndexMap && DayIndexMap[name] == i
  {
    Days[if i == 0 then 6 else i - 1]
  }

  /** The weekday index of column `c` (Monday is column 0 and weekday 1). */
  function ColumnDay(c: int): (d: int)
    requires 0 <= c < 7
    ensures 0 <= d < 7 && DayName(d) == Days[c]
  {
    if c == 6 then 0 else c + 1
  }

  /** `dayIndexMap` agrees with the column order: every column name maps to
      the weekday index that names it back. */
  lemma DayIndexRoundTrip(c: int)
    requires 0 <= c < 7
    ensures Days[c] in DayIndexMap && DayIndexMap[Days[c]] == ColumnDay(c)
  {
  }

  /** `localToUTC`: the code reads today's weekday and the offset from the
      clock; here they are the inputs `today` and `offset`. `setHours`
      first moves the date when the local hour lies outside 0..23, and the
      weekday read from it is then rolled over once more by the branches on
      `localHour + offset`. For a local hour in 0..23 the result is the
      canonical UTC slot of `(today, localHour)`. */
  method LocalToUtcToday(localHour: int, today: int, offset: int) returns (utcHour: int, utcDay: int)
    requires 0 <= today < 7
    ensures SlotKey(utcDay, utcHour) == LocalToUtc(SetHoursDay(today, localHour), localHour, offset)
    ensures 0 <= localHour < 24 ==> SlotKey(utcDay, utcHour) == LocalToUtc(today, localHour, offset)
    ensures 0 <= utcHour < 24 && 0 <= utcDay < 7
  {
    var localDay := SetHoursDay(today, localHour);
    utcHour := JsRem(localHour + offset, 24);
    if utcHour < 0 {
      utcHour := utcHour + 24;
    }
    utcDay := localDay;
    if localHour + offset < 0 {
      utcDay := (utcDay - 1 + 7) % 7;
    } else if localHour + offset >= 24 {
      utcDay := (utcDay + 1) % 7;
    }
    JsUtcHourIsUtcHour(localHour, offset);
    JsRolloverDayIsRolloverDay(localDay, localHour, offset);
  }

  /** A local hour past the end of the day is carried into the date by
      `setHours` and then rolled forward again: at UTC+0, hour 30 lands two
      days on at 06:00, and hour -1 two days back at 23:00. */
  lemma LocalHourOutsideDayRollsTwice(today: int)
    requires 0 <= today < 7
    ensures LocalToUtc(SetHoursDay(today, 30), 30, 0) == SlotKey((today + 2) % 7, 6)
    ensures LocalToUtc(SetHoursDay(today, -1), -1, 0) == SlotKey((today + 5) % 7, 23)
  {
    assert SetHoursDay(today, 30) == (today + 1) % 7 by {
      assert 30 / 24 == 1;
    }
    assert SetHoursDay(today, -1) == (today + 6) % 7 by {
      assert -1 / 24 == -1;
      assert (today - 1) % 7 == (today + 6) % 7;
    }
  }

  /** One grid cell. */
  datatype GridSlot = GridSlot(
    day: string,
    time: string,
    time12: string,
    utcTime: string,
    utcDay: string,
    hour: int,
    utcHour: int,
    voteCount: int,
    selected: bool)

  /** The 12-hour clock reading of display hour 1..24: 12 is noon, 24 is midnight. */
  function Hour12(hour: int): (r: (int, string))
    requires 1 <= hour <= 24
    ensures 1 <= r.0 <= 12 && (hour == r.0 || hour == r.0 + 12)
    ensures r.1 == (if 12 <= hour < 24 then "PM" else "AM")
  {
    if hour == 12 then (hour, "PM")
    else if hour == 24 then (12, "AM")
    else if hour > 12 then (hour - 12, "PM")
    else (hour, "AM")
  }

  /** `${hour.toString().padStart(2, '0')}00`. */
  function Time24Label(hour: nat): string {
    PadStart2(NatToString(hour)) + "00"
  }

  /** `${hour12} ${period}`. */
  function Time12Label(hour: int): string
    requires 1 <= hour <= 24
  {
    var (h12, period) := Hour12(hour);
    NatToString(h12) + " " + period
  }

  /** `${utcHour.toString().padStart(2, '0')}:00`. */
  function UtcTimeLabel(utcHour: nat): string {
    PadStart2(NatToString(utcHour)) + ":00"
  }

  /** The cell for display hour `hour` (1..24) in column `c` of the row
      labelled `time` and `time12`: display hour 24 is local hour 0, the UTC
      fields are that local slot converted with `offset`, and the count is the
      stored vote's for the UTC slot. */
  function Cell(votes: seq<TimeVote>, offset: int, hour: int, c: int, time: string, time12: string): (slot: GridSlot)
    requires 1 <= hour <= 24 && 0 <= c < 7
    ensures slot.day == Days[c] && slot.utcDay in Days && !slot.selected
    ensures 0 <= slot.hour < 24 && (hour < 24 ==> slot.hour == hour) && (hour == 24 ==> slot.hour == 0)
    ensures 0 <= slot.utcHour < 24
    ensures slot.voteCount == VoteCountFor(votes, slot.utcDay, slot.utcHour)
  {
    var local := if hour == 24 then 0 else hour;
    var k := LocalToUtc(ColumnDay(c), local, offset);
    GridSlot(Days[c], time, time12, UtcTimeLabel(k.hour),
             DayName(k.day), local, k.hour, VoteCountFor(votes, DayName(k.day), k.hour), false)
  }

  /** One pass of the inner `days.forEach`: the cell of display hour `hour` in
      column `c`, with the rollover written out as the loop body does it. */
  method BuildCell(votes: seq<TimeVote>, offset: int, hour: int, c: int, time: string, time12: string)
    returns (slot: GridSlot)
    requires 1 <= hour <= 24 && 0 <= c < 7
    ensures slot == Cell(votes, offset, hour, c, time, time12)
  {
    var day := Days[c];
    DayIndexRoundTrip(c);
    var dayIndex := DayIndexMap[day];
    var actualHour := if hour == 24 then 0 else hour;
    var utcHour := JsRem(actualHour + offset, 24);
    if utcHour < 0 {
      utcHour := utcHour + 24;
    }
    var utcDayIndex := dayIndex;
    if actualHour + offset < 0 {
      utcDayIndex := (utcDayIndex - 1 + 7) % 7;
    } else if actualHour + offset >= 24 {
      utcDayIndex := (utcDayIndex + 1) % 7;
    }
    JsUtcHourIsUtcHour(actualHour, offset);
    JsRolloverDayIsRolloverDay(dayIndex, actualHour, offset);
    assert utcHour == UtcHour(actualHour, offset);
    assert utcDayIndex == RolloverDay(dayIndex, actualHour, offset);
    assert LocalToUtc(ColumnDay(c), actualHour, offset) == SlotKey(utcDayIndex, utcHour);
    var utcDay := Days[if utcDayIndex == 0 then 6 else utcDayIndex - 1];
    assert utcDay == DayName(utcDayIndex);
    slot := GridSlot(day, time, time12, UtcTimeLabel(utcHour),
                     utcDay, actualHour, utcHour, VoteCountFor(votes, utcDay, utcHour), false);
  }

  /** The index of the cell of display hour `hour` (1..24) in column `c`: the
      grid is built row by row, seven columns to a row. */
  function GridPos(hour: int, c: int): int {
    7 * (hour - 1) + c
  }

  /** The first `n` cells of row `hour`, columns `0..n-1`, as `cell` gives them. */
  function RowCells(cell: (int, int) -> GridSlot, hour: int, n: int): (cells: seq<GridSlot>)
    requires 0 <= n <= 7
    ensures |cells| == n
  {
    if n == 0 then [] else RowCells(cell, hour, n - 1) + [cell(hour, n - 1)]
  }

  /** Rows `1..n` of seven cells each, in order, as `cell` gives them. */
  function GridRows(cell: (int, int) -> GridSlot, n: int): (rows: seq<GridSlot>)
    requires 0 <= n
    ensures |rows| == 7 * n
  {
    if n == 0 then [] else GridRows(cell, n - 1) + RowCells(cell, n, 7)
  }

  lemma RowCellsStep(cell: (int, int) -> GridSlot, hour: int, c: int)
    requires 0 <= c < 7
    ensures RowCells(cell, hour, c + 1) == RowCells(cell, hour, c) + [cell(hour, c)]
  {
  }

  lemma {:induction false} RowCellsAt(cell: (int, int) -> GridSlot, hour: int, n: int, c: int)
    requires 0 <= c < n <= 7
    ensures RowCells(cell, hour, n)[c] == cell(hour, c)
  {
    if c < n - 1 {
      RowCellsAt(cell, hour, n - 1, c);
    }
  }

  /** Row by row, seven to a row: cell `(h, c)` of the first `n` rows is at `GridPos(h, c)`. */
  lemma {:induction false} GridRowsAt(cell: (int, int) -> GridSlot, n: int, h: int, c: int)
    requires 1 <= h <= n && 0 <= c < 7
    ensures GridPos(h, c) < |GridRows(cell, n)| && GridRows(cell, n)[GridPos(h, c)] == cell(h, c)
  {
    var prev := GridRows(cell, n - 1);
    var row := RowCells(cell, n, 7);
    assert GridRows(cell, n) == prev + row;
    if h < n {
      GridRowsAt(cell, n - 1, h, c);
      assert GridPos(h, c) < |prev|;
    } else {
      RowCellsAt(cell, n, 7, c);
      assert GridPos(h, c) == |prev| + c;
    }
  }

  /** A slot with every field empty, for positions outside the grid. */
  const NoSlot := GridSlot("", "", "", "", "", 0, 0, 0, false)

  /** The cell at display hour `h` (1..24) and column `c`, with the labels of
      that hour. */
  function CellOf(votes: seq<TimeVote>, offset: int): (int, int) -> GridSlot {
    (h, c) => if 1 <= h <= 24 && 0 <= c < 7 then Cell(votes, offset, h, c, Time24Label(h), Time12Label(h)) else NoSlot
  }

  lemma CellOfAt(votes: seq<TimeVote>, offset: int, h: int, c: int)
    requires 1 <= h <= 24 && 0 <= c < 7
    ensures CellOf(votes, offset)(h, c) == Cell(votes, offset, h, c, Time24Label(h), Time12Label(h))
  {
  }

  /** The whole grid: display hours 1..24, seven columns each. */
  function Grid(votes: seq<TimeVote>, offset: int): (grid: seq<GridSlot>)
    ensures |grid| == 7 * 24
  {
    GridRows(CellOf(votes, offset), 24)
  }

  /** One pass of the outer `for` loop: the seven cells of display hour
      `hour`, Monday to Sunday, appended to the rows built so far. */
  method AppendHourRow(votes: seq<TimeVote>, offset: int, hour: int, prefix: seq<GridSlot>)
    returns (slots: seq<GridSlot>)
    requires 1 <= hour <= 24
    ensures slots == prefix + RowCells(CellOf(votes, offset), hour, 7)
  {
    var time := Time24Label(hour);
    var time12 := Time12Label(hour);
    slots := prefix;
    var c := 0;
    while c < 7
      invariant 0 <= c <= 7
      invariant slots == prefix + RowCells(CellOf(votes, offset), hour, c)
    {
      var slot := BuildCell(votes, offset, hour, c, time, time12);
      CellOfAt(votes, offset, hour, c);
      RowCellsStep(CellOf(votes, offset), hour, c);
      slots := slots + [slot];
      c := c + 1;
    }
  }

  /** `generateTimeSlots`: display hours 1..24 in order, and for each the seven
      columns Monday to Sunday. */
  method GenerateTimeSlots(votes: seq<TimeVote>, offset: int) returns (slots: seq<GridSlot>)
    ensures slots == Grid(votes, offset)
  {
    slots := [];
    var hour := 1;
    while hour <= 24
      invariant 1 <= hour <= 25
      invariant slots == GridRows(CellOf(votes, offset), hour - 1)
    {
      slots := AppendHourRow(votes, offset, hour, slots);
      hour := hour + 1;
    }
    assert hour - 1 == 24;
  }

  /** The grid has 168 cells and the cell of display hour `h` (1..24) in
      column `c` is at `GridPos(h, c)`. */
  lemma GridCell(votes: seq<TimeVote>, offset: int, h: int, c: int)
    requires 1 <= h <= 24 && 0 <= c < 7
    ensures GridPos(h, c) < |Grid(votes, offset)|
    ensures Grid(votes, offset)[GridPos(h, c)] == Cell(votes, offset, h, c, Time24Label(h), Time12Label(h))
  {
    GridRowsAt(CellOf(votes, offset), 24, h, c);
  }

  /** Every weekday index is named by a column that `dayIndexMap` maps back to it. */
  lemma DayNameIndex(i: int)
    requires 0 <= i < 7
    ensures DayName(i) in DayIndexMap && DayIndexMap[DayName(i)] == i
  {
  }

  /** A cell's UTC day and hour, converted back to local time with the same
      offset, give the cell's own column weekday and local hour. */
  lemma CellUtcRoundTrip(votes: seq<TimeVote>, offset: int, hour: int, c: int, time: string, time12: string)
    requires 1 <= hour <= 24 && 0 <= c < 7 && -24 < offset < 24
    ensures var slot := Cell(votes, offset, hour, c, time, time12);
      && slot.utcDay in DayIndexMap
      && UtcToLocal(SlotKey(DayIndexMap[slot.utcDay], slot.utcHour), offset) == SlotKey(ColumnDay(c), slot.hour)
  {
    var slot := Cell(votes, offset, hour, c, time, time12);
    var k := LocalToUtc(ColumnDay(c), slot.hour, offset);
    DayNameIndex(k.day);
    RoundTrip(ColumnDay(c), slot.hour, offset);
  }

  /** The count a cell shows is that of the first stored vote for the UTC
      slot of the cell's own weekday and local hour, and 0 when no vote is
      stored for that slot. */
  lemma CellVoteJoin(votes: seq<TimeVote>, offset: int, hour: int, c: int, time: string, time12: string)
    requires 1 <= hour <= 24 && 0 <= c < 7
    ensures var k := LocalToUtc(ColumnDay(c), if hour == 24 then 0 else hour, offset);
      var slot := Cell(votes, offset, hour, c, time, time12);
      && (forall j :: 0 <= j < |votes| && IsFirstMatch(votes, DayName(k.day), k.hour, j) ==> slot.voteCount == votes[j].voteCount)
      && ((forall j :: 0 <= j < |votes| ==> !Matches(votes[j], DayName(k.day), k.hour)) ==> slot.voteCount == 0)
  {
  }

  /** Cell `i` of the grid is the cell of display hour `i / 7 + 1` in column `i % 7`. */
  lemma GridAt(votes: seq<TimeVote>, offset: int, i: int)
    requires 0 <= i < 7 * 24
    ensures Grid(votes, offset)[i] == Cell(votes, offset, i / 7 + 1, i % 7, Time24Label(i / 7 + 1), Time12Label(i / 7 + 1))
  {
    var h, c := i / 7 + 1, i % 7;
    assert GridPos(h, c) == i;
    GridCell(votes, offset, h, c);
  }

  /** Every cell of the grid has local and UTC hours in 0..23. */
  lemma GridHours(votes: seq<TimeVote>, offset: int)
    ensures forall i :: 0 <= i < |Grid(votes, offset)| ==>
      0 <= Grid(votes, offset)[i].hour < 24 && 0 <= Grid(votes, offset)[i].utcHour < 24
  {
    forall i | 0 <= i < 7 * 24
      ensures 0 <= Grid(votes, offset)[i].hour < 24 && 0 <= Grid(votes, offset)[i].utcHour < 24
    {
      GridAt(votes, offset, i);
    }
  }

  /** The index of the last slot with hour `h`, if any. */
  function LastWithHour(slots: seq<GridSlot>, h: int): (r: Option<nat>)
    ensures r.Some? ==> r.value < |slots| && slots[r.value].hour == h
    ensures r.Some? ==> forall j :: r.value < j < |slots| ==> slots[j].hour != h
    ensures r.None? ==> forall j :: 0 <= j < |slots| ==> slots[j].hour != h
  {
    if slots == [] then None
    else if slots[|slots| - 1].hour == h then Some(|slots| - 1)
    else LastWithHour(slots[..|slots| - 1], h)
  }

  /** `new Map(timeSlots.map(slot => [slot.hour, slot]))`: each hour present
      maps to the last slot with that hour (a later `set` overwrites). */
  method IndexByHour(slots: seq<GridSlot>) returns (byHour: map<int, GridSlot>)
    ensures forall h :: h in byHour <==> LastWithHour(slots, h).Some?
    ensures forall h :: h in byHour ==> byHour[h] == slots[LastWithHour(slots, h).value]
  {
    byHour := map[];
    var n := 0;
    while n < |slots|
      invariant 0 <= n <= |slots|
      invariant forall h :: h in byHour <==> LastWithHour(slots[..n], h).Some?
      invariant forall h :: h in byHour ==> byHour[h] == slots[LastWithHour(slots[..n], h).value]
    {
      assert slots[..n + 1][..n] == slots[..n];
      byHour := byHour[slots[n].hour := slots[n]];
      n := n + 1;
    }
    assert slots[..n] == slots;
  }

  /** `uniqueTimeSlots`: the values of that map sorted by hour, so one row per
      distinct hour, in increasing hour order, each row the LAST slot with
      that hour. */
  method UniqueTimeSlots(slots: seq<GridSlot>) returns (rows: seq<GridSlot>)
    requires forall i :: 0 <= i < |slots| ==> 0 <= slots[i].hour < 24
    ensures forall i, j :: 0 <= i < j < |rows| ==> rows[i].hour < rows[j].hour
    ensures forall i :: 0 <= i < |rows| ==>
      LastWithHour(slots, rows[i].hour).Some? && rows[i] == slots[LastWithHour(slots, rows[i].hour).value]
    ensures forall j :: 0 <= j < |slots| ==> exists i :: 0 <= i < |rows| && rows[i].hour == slots[j].hour
  {
    var byHour := IndexByHour(slots);
    rows := [];
    var h := 0;
    while h < 24
      invariant 0 <= h <= 24
      invariant forall i, j :: 0 <= i < j < |rows| ==> rows[i].hour < rows[j].hour
      invariant forall i :: 0 <= i < |rows| ==> rows[i].hour < h && rows[i].hour in byHour && rows[i] == byHour[rows[i].hour]
      invariant forall g :: 0 <= g < h && g in byHour ==> exists i :: 0 <= i < |rows| && rows[i].hour == g
    {
      if h in byHour {
        assert byHour[h].hour == h;
        var before := rows;
        rows := rows + [byHour[h]];
        assert forall i :: 0 <= i < |before| ==> rows[i] == before[i];
        assert rows[|before|].hour == h;
      }
      h := h + 1;
    }
    forall i | 0 <= i < |rows|
      ensures LastWithHour(slots, rows[i].hour).Some? && rows[i] == slots[LastWithHour(slots, rows[i].hour).value]
    {
      assert rows[i].hour in byHour;
    }
    forall j | 0 <= j < |slots|
      ensures exists i :: 0 <= i < |rows| && rows[i].hour == slots[j].hour
    {
      assert LastWithHour(slots, slots[j].hour).Some?;
    }
  }

  /** An entry of `selectedTimeSlots`: a UTC day name and hour. */
  datatype UtcSelection = UtcSelection(day: string, hour: int)

  /** `prev.filter(slot => !(slot.day === utcDay && slot.hour === utcHour))`. */
  function WithoutSlot(prev: seq<UtcSelection>, day: string, hour: int): (r: seq<UtcSelection>)
    ensures forall e :: e in r <==> e in prev && e != UtcSelection(day, hour)
    ensures |r| <= |prev|
  {
    if prev == [] then []
    else (if prev[0] == UtcSelection(day, hour) then [] else [prev[0]]) + WithoutSlot(prev[1..], day, hour)
  }

  /** Removing a slot that is not in the list changes nothing. */
  lemma {:induction false} WithoutAbsentSlot(prev: seq<UtcSelection>, day: string, hour: int)
    requires UtcSelection(day, hour) !in prev
    ensures WithoutSlot(prev, day, hour) == prev
  {
    if prev != [] {
      WithoutAbsentSlot(prev[1..], day, hour);
    }
  }

  /** Selecting a slot that was not selected and then deselecting it restores
      the submission list. */
  lemma {:induction false} SelectThenDeselect(prev: seq<UtcSelection>, day: string, hour: int)
    requires UtcSelection(day, hour) !in prev
    ensures WithoutSlot(prev + [UtcSelection(day, hour)], day, hour) == prev
  {
    if prev == [] {
    } else {
      assert (prev + [UtcSelection(day, hour)])[1..] == prev[1..] + [UtcSelection(day, hour)];
      SelectThenDeselect(prev[1..], day, hour);
    }
  }

  /** `${day}-${utcTime}`: the key a cell has in `selectedSlots`. */
  function SlotId(day: string, utcTime: string): string {
    day + "-" + utcTime
  }

  /** The selection state of the poll: the set of selected cell keys and the
      list of UTC slots to submit. */
  class PollSelection {
    var selectedSlots: set<string>
    var selectedTimeSlots: seq<UtcSelection>

    constructor ()
      ensures selectedSlots == {} && selectedTimeSlots == []
    {
      selectedSlots := {};
      selectedTimeSlots := [];
    }

    /** `handleSlotClick`: toggles the cell's key; a newly selected cell appends
        its UTC slot, a deselected one removes every entry for that UTC slot. */
    method HandleSlotClick(day: string, utcTime: string, utcDay: string, utcHour: int)
      modifies this
      ensures selectedSlots == Toggled(old(selectedSlots), SlotId(day, utcTime))
      ensures SlotId(day, utcTime) in old(selectedSlots) ==>
        selectedTimeSlots == WithoutSlot(old(selectedTimeSlots), utcDay, utcHour)
      ensures SlotId(day, utcTime) !in old(selectedSlots) ==>
        selectedTimeSlots == old(selectedTimeSlots) + [UtcSelection(utcDay, utcHour)]
    {
      var slotId := SlotId(day, utcTime);
      var isSelected := slotId in selectedSlots;
      var newSet := selectedSlots;
      if isSelected {
        newSet := newSet - {slotId};
      } else {
        newSet := newSet + {slotId};
      }
      selectedSlots := newSet;
      if isSelected {
        selectedTimeSlots := WithoutSlot(selectedTimeSlots, utcDay, utcHour);
      } else {
        selectedTimeSlots := selectedTimeSlots + [UtcSelection(utcDay, utcHour)];
      }
    }
  }

  /** `Math.max(...voteCounts.map(v => v.vote_count), 1)`. */
  function MaxVotes(votes: seq<TimeVote>): (m: int)
    ensures m >= 1
    ensures forall i :: 0 <= i < |votes| ==> votes[i].voteCount <= m
    ensures m == 1 || exists i :: 0 <= i < |votes| && votes[i].voteCount == m
  {
    if votes == [] then 1
    else
      var rest := MaxVotes(votes[..|votes| - 1]);
      var last := votes[|votes| - 1].voteCount;
      assert forall i :: 0 <= i < |votes| - 1 ==> votes[..|votes| - 1][i] == votes[i];
      if last > rest then last else rest
  }

  /** The fill of a cell. */
  datatype Background = SelectedFill | NoFill | Shade(level: int)

  /** The Tailwind classes `getBackgroundColor` returns for each fill. */
  function BackgroundClasses(b: Background): string {
    match b
    case SelectedFill => "bg-blue-500 hover:bg-blue-600"
    case NoFill => "hover:bg-gray-100"
    case Shade(level) =>
      "hover:bg-blue-100 " +
      (if level <= 1 then "bg-blue-50" else if level == 2 then "bg-blue-100"
       else if level == 3 then "bg-blue-200" else if level == 4 then "bg-blue-300" else "bg-blue-400")
  }

  /** `getBackgroundColor`: selected cells are always blue, cells without votes
      get no fill, and the others get the shade of the 20-percent band their
      share `voteCount / maxVotes` falls in (compared exactly, by
      cross-multiplication). */
  function BackgroundColor(voteCount: int, isSelected: bool, maxVotes: int): (b: Background)
    requires maxVotes >= 1
    ensures isSelected ==> b == SelectedFill
    ensures !isSelected && voteCount == 0 ==> b == NoFill
    ensures !isSelected && voteCount != 0 ==> b.Shade? && 1 <= b.level <= 5
    ensures b.Shade? ==> b.level == 1 || 20 * (b.level - 1) * maxVotes < 100 * voteCount
    ensures b.Shade? ==> b.level == 5 || 100 * voteCount <= 20 * b.level * maxVotes
  {
    if isSelected then SelectedFill
    else if voteCount == 0 then NoFill
    else if 100 * voteCount <= 20 * maxVotes then Shade(1)
    else if 100 * voteCount <= 40 * maxVotes then Shade(2)
    else if 100 * voteCount <= 60 * maxVotes then Shade(3)
    else if 100 * voteCount <= 80 * maxVotes then Shade(4)
    else Shade(5)
  }

  /** More votes never give a lighter shade. */
  lemma ShadeMonotone(v1: int, v2: int, maxVotes: int)
    requires maxVotes >= 1 && 0 < v1 <= v2
    ensures BackgroundColor(v1, false, maxVotes).level <= BackgroundColor(v2, false, maxVotes).level
  {
  }

  /** `UTCToLocal` as written: the instant it converts is today's UTC date at
      `utcHour` (`todayUtcDay` is today's UTC weekday), read back in local
      time; the `utcDay` argument is never read. */
  function UtcToLocalAsWritten(utcHour: int, utcDay: int, todayUtcDay: int, offset: int): (l: SlotKey)
    requires 0 <= todayUtcDay < 7
    ensures ValidKey(l)
  {
    var t := utcHour - offset;
    SlotKey((todayUtcDay + t / 24) % 7, t % 24)
  }

  /** The as-written result is the moment `utcHour - offset` hours after the
      start of today's UTC weekday, modulo one week. */
  lemma UtcToLocalAsWrittenWeekHour(utcHour: int, utcDay: int, todayUtcDay: int, offset: int)
    requires 0 <= todayUtcDay < 7
    ensures WeekHour(UtcToLocalAsWritten(utcHour, utcDay, todayUtcDay, offset)) == (24 * todayUtcDay + utcHour - offset) % 168
  {
    var t := utcHour - offset;
    var q, r := t / 24, t % 24;
    var m := (todayUtcDay + q) % 7;
    var p := (todayUtcDay + q) / 7;
    assert t == 24 * q + r;
    assert todayUtcDay + q == 7 * p + m;
    assert 24 * todayUtcDay + t == 168 * p + (24 * m + r);
    WeekMod(p, 24 * m + r);
  }

  lemma WeekMod(p: int, y: int)
    requires 0 <= y < 168
    ensures (168 * p + y) % 168 == y
  {
    var x := 168 * p + y;
    var k := x / 168;
    assert x == 168 * k + x % 168;
    assert 168 * (p - k) == x % 168 - y;
  }

  /** The as-written `UTCToLocal` gives the same answer whatever UTC day it is asked about. */
  lemma UtcToLocalAsWrittenIgnoresDay(utcHour: int, d1: int, d2: int, todayUtcDay: int, offset: int)
    requires 0 <= todayUtcDay < 7
    ensures UtcToLocalAsWritten(utcHour, d1, todayUtcDay, offset) == UtcToLocalAsWritten(utcHour, d2, todayUtcDay, offset)
  {
  }

  /** So it is not the inverse of the local-to-UTC rule: Friday 10:00 local at
      UTC+0 is Friday 10:00 UTC, but on a Wednesday the as-written `UTCToLocal`
      maps it back to Wednesday; `TimeKeys.UtcToLocal` maps it back to Friday. */
  lemma UtcToLocalAsWrittenNotInverse()
    ensures LocalToUtc(5, 10, 0) == SlotKey(5, 10)
    ensures UtcToLocalAsWritten(10, 5, 3, 0) == SlotKey(3, 10)
    ensures UtcToLocal(LocalToUtc(5, 10, 0), 0) == SlotKey(5, 10)
  {
  }
}
