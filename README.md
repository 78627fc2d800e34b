# Galaxy Trek scheduling and playlist logic in Dafny

Galaxy Trek is a small Next.js site. This project models its logic:

- **Weekly availability poll** (`EventTimePoll.tsx`, module `EventTimePoll`).
  - A grid of 24 display hours by 7 weekday columns, Monday first.
  - Each cell's local (weekday, hour) is converted to a UTC slot and joined with the stored vote count of that slot.
  - Clicking a cell toggles it in two selection structures.
  - A cell's shade is set by its share of the largest count.
- **Timezone planner** (`TimeZoneScheduler.tsx`, module `TimeZoneScheduler`).
  - One day of 24 local hours for the picked date, each joined with its UTC slot's votes.
  - A `"${day}-${hour}"` key per selected slot.
  - Submission parses every selected key back and converts it to a UTC record.
- **Popular-slots panel** (`PopularTimeSlots.tsx`, modules `PopularTimeSlots` and `KeyedSort`).
  - Votes are grouped by day name and the days listed in calendar order.
  - Within a day, votes are listed by count (highest first), then by hour.
  - Each vote gets a badge style.
- **Vote table helpers** (`lib/db/supabase.ts`, module `VoteStore`).
  - Increment, decrement (never below zero) or insert the count of one (day, hour) slot.
  - Fall back to an empty list when a read fails.
- **Music player** (`MusicPlayer.tsx`, module `MusicPlayer`).
  - The song list chosen on mount.
  - Next and previous with wrap-around, and advancing when a track ends.
  - Play, mute and volume flags, and the `m:ss` time label.
- **Playlist script** (`scripts/add-song.js`, module `AddSong`).
  - Lists the `.mp3` files and parses the numbers typed.
  - Derives a title and writes one entry per chosen file.
  - Splices the entries into the `spacePlaylist` array of the page source.

Two modules hold what the others share:

- `TimeKeys` holds the local-to-UTC slot conversion, which the sources write out three times.
  - It is defined once as the canonical rule (Euclidean remainder and a one-day rollover).
  - The JavaScript form (truncating `%` plus the `+24` correction and the `(d ± 1 + 7) % 7` branches) is proved equal to it.
  - The inverse conversion and the round trip are proved for every whole-hour offset of less than a day.
- `JsText` states the JavaScript string and number built-ins over `seq<char>`: `toString`, `padStart`, `parseInt`, `split`, `trim`, `indexOf`, `replace`, `endsWith`.

Inputs and conventions:

- The time zone offset is the integer `offset = getTimezoneOffset() / 60`, that is, UTC minus local in whole hours.
- A UTC slot is then `local + offset`, as the code computes it.
- Weekday indices are those of `Date.getDay` (Sunday is 0).
- The clock, the picked date's weekday, the vote rows read, the answers typed, the folder listing and the page text are all parameters.

## Model

| member | source | states |
|---|---|---|
| TimeKeys.JsRem | app/components/EventTimePoll.tsx:77 | JavaScript `%` truncates: the remainder lies strictly between `-b` and `b` and has the dividend's sign |
| TimeKeys.UtcHour | app/components/EventTimePoll.tsx:77-78 | the UTC hour is in 0..23 for every integer hour and offset |
| TimeKeys.JsUtcHourIsUtcHour | app/components/EventTimePoll.tsx:77-78 | `(h + off) % 24`, plus 24 when negative, is the Euclidean remainder of `h + off` by 24 for every integer input |
| TimeKeys.RolloverDay | app/components/EventTimePoll.tsx:81-88 | the UTC weekday stays in 0..6 |
| TimeKeys.JsRolloverDayIsRolloverDay | app/components/EventTimePoll.tsx:171-178 | the `(d - 1 + 7) % 7` and `(d + 1) % 7` branches are the one-day rollover rule |
| TimeKeys.RolloverDayIsFloorShift | app/components/EventTimePoll.tsx:81-88 | within one day either side, the rollover moves the weekday by `floor((h + off) / 24)` around the week |
| TimeKeys.SetHoursDay | app/components/EventTimePoll.tsx:69-71 | the weekday `setHours(hour)` leaves: unchanged for an hour in 0..23, and in general the slot landed on is `hour` hours into the old weekday, modulo a week |
| TimeKeys.LocalToUtc | app/components/EventTimePoll.tsx:65-91 | the converted slot has weekday 0..6 and hour 0..23 |
| TimeKeys.LocalToUtcWithinDay | app/components/TimeZoneScheduler.tsx:99-109 | when `0 <= h + off < 24` the UTC slot is the same weekday at hour `h + off` |
| TimeKeys.LocalToUtcWeekHour | app/components/EventTimePoll.tsx:65-91 | conversion moves the slot's hour-of-week by exactly `offset`, modulo one week, so it names the same moment |
| TimeKeys.UtcToLocal | app/components/EventTimePoll.tsx:94-117 | the inverse conversion (same rule, offset negated) gives a valid local slot |
| TimeKeys.RoundTrip | app/components/EventTimePoll.tsx:65-117 | local to UTC and back with the same offset gives the original weekday and hour, for every offset of less than a day |
| TimeKeys.RoundTripFromUtc | app/components/EventTimePoll.tsx:65-117 | UTC to local and back gives the original valid UTC slot |
| TimeKeys.MondayMidnightEastOfUtc | app/components/EventTimePoll.tsx:82-84 | Monday 00:00 at UTC+1 is Sunday 23:00 UTC (the backward rollover) |
| VoteRecords.FindVote | app/components/EventTimePoll.tsx:182-184 | `find` returns the first vote with that day and hour, or none when no vote matches |
| VoteRecords.VoteCountFor | app/components/EventTimePoll.tsx:194 | a slot's count is the first matching vote's `vote_count`, or 0 when none matches |
| Selection.Toggled | app/components/TimeZoneScheduler.tsx:153-164 | the key is in the new set exactly when it was not in the old one; every other key is unchanged |
| Selection.ToggleTwice | app/components/TimeZoneScheduler.tsx:153-164 | toggling the same key twice restores the selection |
| EventTimePoll.DayName | app/components/EventTimePoll.tsx:179 | `days[i === 0 ? 6 : i - 1]` is a column name that `dayIndexMap` maps back to `i` |
| EventTimePoll.ColumnDay | app/components/EventTimePoll.tsx:156 | a column's weekday index is in 0..6 and names that column back |
| EventTimePoll.DayIndexRoundTrip | app/components/EventTimePoll.tsx:122-131 | every column name maps through `dayIndexMap` to its column's weekday |
| EventTimePoll.LocalToUtcToday | app/components/EventTimePoll.tsx:65-91 | `localToUTC` returns the conversion of the local hour from the weekday `setHours` leaves, with hour 0..23 and day 0..6; for a local hour in 0..23 that is the canonical UTC slot of (today, local hour) |
| EventTimePoll.LocalHourOutsideDayRollsTwice | app/components/EventTimePoll.tsx:71-88 | an hour outside 0..23 is carried into the date by `setHours` and rolled again by the branches: at UTC+0 hour 30 lands two days on at 06:00, hour -1 two days back at 23:00 |
| EventTimePoll.Hour12 | app/components/EventTimePoll.tsx:137-149 | the 12-hour reading is 1..12, is the hour or the hour minus 12, and is PM exactly for 12..23 |
| EventTimePoll.Cell | app/components/EventTimePoll.tsx:154-196 | display hour 24 becomes local hour 0, other hours are kept, UTC hour is 0..23, the UTC day is a column name, the vote count is the stored count of that UTC slot, and the cell starts unselected |
| EventTimePoll.CellVoteJoin | app/components/EventTimePoll.tsx:182-194 | a cell's count is the first vote recorded for the UTC slot of its column's weekday and local hour, or 0 when no vote is |
| EventTimePoll.BuildCell | app/components/EventTimePoll.tsx:156-196 | the loop body's conversion and vote join give exactly the specified cell |
| EventTimePoll.Grid | app/components/EventTimePoll.tsx:120-201 | the grid has 7 x 24 = 168 cells |
| EventTimePoll.AppendHourRow | app/components/EventTimePoll.tsx:154-197 | one outer-loop pass appends the seven cells of that hour, Monday to Sunday |
| EventTimePoll.GenerateTimeSlots | app/components/EventTimePoll.tsx:120-201 | the nested loops produce exactly the specified grid |
| EventTimePoll.GridCell | app/components/EventTimePoll.tsx:134-197 | the cell of display hour `h` and column `c` sits at index `7(h-1) + c` |
| EventTimePoll.GridAt | app/components/EventTimePoll.tsx:134-197 | grid index `i` holds display hour `i / 7 + 1` in column `i % 7` |
| EventTimePoll.DayNameIndex | app/components/EventTimePoll.tsx:179 | every weekday index is named by a column that maps back to it |
| EventTimePoll.CellUtcRoundTrip | app/components/EventTimePoll.tsx:65-117 | converting a cell's UTC day and hour back gives the cell's own weekday and local hour |
| EventTimePoll.GridHours | app/components/EventTimePoll.tsx:162-193 | every cell's local and UTC hours lie in 0..23 |
| EventTimePoll.LastWithHour | app/components/EventTimePoll.tsx:207-208 | the last slot with a given hour, or none when no slot has it |
| EventTimePoll.IndexByHour | app/components/EventTimePoll.tsx:207-208 | the `Map` built from the slots has exactly the hours present, each mapped to the last slot with that hour |
| EventTimePoll.UniqueTimeSlots | app/components/EventTimePoll.tsx:207-209 | one row per distinct hour, hours strictly increasing, each row the last slot with its hour |
| EventTimePoll.WithoutSlot | app/components/EventTimePoll.tsx:235-237 | the filter removes every entry equal to (utcDay, utcHour) and keeps every other one |
| EventTimePoll.WithoutAbsentSlot | app/components/EventTimePoll.tsx:235-237 | filtering out an absent slot changes nothing |
| EventTimePoll.SelectThenDeselect | app/components/EventTimePoll.tsx:232-242 | appending a new slot and then filtering it out restores the submission list |
| EventTimePoll.PollSelection.HandleSlotClick | app/components/EventTimePoll.tsx:211-243 | toggles the cell key; appends the UTC slot when newly selected, removes all its entries when deselected |
| EventTimePoll.MaxVotes | app/components/EventTimePoll.tsx:246 | at least 1, at least every count, and equal to 1 or to some vote's count |
| EventTimePoll.BackgroundColor | app/components/EventTimePoll.tsx:249-267 | selected wins; 0 votes gets no fill; otherwise the shade is the 20-percent band that `count / max` falls in |
| EventTimePoll.ShadeMonotone | app/components/EventTimePoll.tsx:258-266 | more votes never give a lighter shade |
| EventTimePoll.UtcToLocalAsWritten | app/components/EventTimePoll.tsx:94-117 | `UTCToLocal` as written returns a valid slot, computed from today's UTC date and `utcHour` only |
| EventTimePoll.UtcToLocalAsWrittenWeekHour | app/components/EventTimePoll.tsx:99-114 | the as-written result is `utcHour - offset` hours after the start of today's UTC weekday, modulo a week |
| EventTimePoll.UtcToLocalAsWrittenIgnoresDay | app/components/EventTimePoll.tsx:94-117 | the as-written result is the same for every `utcDay` |
| EventTimePoll.UtcToLocalAsWrittenNotInverse | app/components/EventTimePoll.tsx:94-117 | Friday 10:00 at UTC+0, asked on a Wednesday, comes back as Wednesday; the intended inverse gives Friday |
| TimeZoneScheduler.DayNameHasNoHyphen | app/components/TimeZoneScheduler.tsx:43-51 | no `DAYS_OF_WEEK` name holds the key separator `-` |
| TimeZoneScheduler.DayIndex | app/components/PopularTimeSlots.tsx:88 | `DAYS_OF_WEEK.indexOf`: an index that names the day, or none exactly when the name is not in the table |
| TimeZoneScheduler.DayIndexOfName | app/components/TimeZoneScheduler.tsx:43-51 | the names are distinct, so every index is found again from its name |
| TimeZoneScheduler.ParseSlotKey | app/components/TimeZoneScheduler.tsx:170-171 | the day part is the key's text up to the first `-`; a key without `-` is all day and gives no hour; otherwise the `-` follows the day part and the hour is `parseInt` of the text between it and the next `-` |
| TimeZoneScheduler.KeyRoundTrip | app/components/TimeZoneScheduler.tsx:170-171 | parsing the key `${day}-${hour}` gives back `day` and `hour` for every day without `-` |
| TimeZoneScheduler.KeyInjective | app/components/TimeZoneScheduler.tsx:129 | two planner slots share a key only when they share the day name and hour |
| TimeZoneScheduler.SlotAt | app/components/TimeZoneScheduler.tsx:93-139 | a slot carries the picked day's name and its hour, a valid UTC slot, and the first matching vote's count or 0; it is selected exactly when its key is in the selection |
| TimeZoneScheduler.BuildSlot | app/components/TimeZoneScheduler.tsx:95-139 | the loop body's remainder, rollover, vote join and `has(slotKey)` give exactly the specified slot |
| TimeZoneScheduler.SlotUtcRoundTrip | app/components/TimeZoneScheduler.tsx:98-113 | a slot's UTC slot converts back to the picked weekday and the slot's hour |
| TimeZoneScheduler.SlotUtcDay | app/components/TimeZoneScheduler.tsx:105-113 | the UTC day is the picked day moved back one, unchanged, or forward one, by the sign and size of `hour + offset` |
| TimeZoneScheduler.ToggleFlipsOneSlot | app/components/TimeZoneScheduler.tsx:138 | after toggling an hour's key, that hour's slot is selected exactly when it was not before, and every other hour's slot keeps its state; each is selected exactly when its key is in the new set |
| TimeZoneScheduler.SubmissionAsWritten | app/components/TimeZoneScheduler.tsx:169-221 | as written: a record exactly when the hour parses; local day and hour are the key's; `hour == utc_hour` in 0..23; but the UTC day is rolled from the weekday `setHours` leaves on the picked date |
| TimeZoneScheduler.SubmissionAsWrittenFromPickedDate | app/components/TimeZoneScheduler.tsx:174-199 | for a key hour in 0..23 and an offset under a day, the record's UTC day names a weekday, its UTC slot is the picked weekday at the key's hour converted to UTC, and that slot converts back to (picked weekday, key hour) |
| TimeZoneScheduler.UtcSlotOfPickedDate | app/components/TimeZoneScheduler.tsx:174-199 | the UTC slot of an hour on the picked weekday is named by its day, converts back, and lies `offset` hours later in the week |
| TimeZoneScheduler.SubmissionAsWrittenUsesPickerDay | app/components/TimeZoneScheduler.tsx:174-199 | at UTC+0, a key for weekday `d` submitted with another weekday `p` picked is recorded on `p`; the corrected record keeps `d` |
| TimeZoneScheduler.Submission | app/components/TimeZoneScheduler.tsx:169-221 | the intended record of the submission finding: a record exactly when the key names a weekday and an hour; local fields are the key's; `hour == utc_hour` in 0..23 |
| TimeZoneScheduler.SubmissionRoundTrip | app/components/TimeZoneScheduler.tsx:169-221 | a slot key's record has that slot's local day and hour, and its UTC day and hour convert back to them |
| TimeZoneScheduler.SubmissionMatchesSlot | app/components/TimeZoneScheduler.tsx:174-199 | for a slot hour in 0..23, when the picked date shows the key's day, the record is the slot's UTC slot and equals the as-written one |
| TimeZoneScheduler.DaySlots | app/components/TimeZoneScheduler.tsx:90-140 | 24 slots, slot `i` for local hour `i` |
| TimeZoneScheduler.BuildDaySlots | app/components/TimeZoneScheduler.tsx:93-140 | the loop pushes exactly 24 slots, hours 0..23 in order, all labelled with the picked day's name |
| TimeZoneScheduler.MapKeys | app/components/TimeZoneScheduler.tsx:169 | `Array.from(set).map(f)` visits each key exactly once and collects `f` of each, in visiting order |
| TimeZoneScheduler.BuildSubmissions | app/components/TimeZoneScheduler.tsx:169-222 | one record per selected key, each the as-written record for the picked date; nothing when some key gives no record |
| TimeZoneScheduler.Scheduler.constructor | app/components/TimeZoneScheduler.tsx:58-59 | no slots and an empty selection |
| TimeZoneScheduler.Scheduler.LoadTimeSlots | app/components/TimeZoneScheduler.tsx:79-151 | with a picked date the shown slots become that day's 24 slots; without one nothing changes; the selection is untouched |
| TimeZoneScheduler.Scheduler.ToggleTimeSlot | app/components/TimeZoneScheduler.tsx:153-164 | the slot's key is toggled in the selection; the slots are unchanged |
| TimeZoneScheduler.Scheduler.SubmitVotes | app/components/TimeZoneScheduler.tsx:166-241 | records are posted exactly when every selected key gives an as-written record for the picked date (or today when none is picked), one per key in order; the selection is cleared exactly when they were posted and the POST succeeded; the slots are unchanged |
| KeyedSort.Insert | app/components/PopularTimeSlots.tsx:137-144 | insertion adds exactly the one element |
| KeyedSort.InsertSorted | app/components/PopularTimeSlots.tsx:137-144 | inserting into a sorted sequence keeps it sorted |
| KeyedSort.SortBy | app/components/PopularTimeSlots.tsx:137-144 | the sorted order is a permutation of the input and ascending in the key |
| PopularTimeSlots.DayRank | app/components/PopularTimeSlots.tsx:88 | `indexOf` is -1 exactly for names not in the table, else the index naming the day |
| PopularTimeSlots.VotesOfDay | app/components/PopularTimeSlots.tsx:64-70 | a day's group holds exactly the votes of that day |
| PopularTimeSlots.DaysInOrder | app/components/PopularTimeSlots.tsx:64-70 | the object's keys are distinct and include every vote's day |
| PopularTimeSlots.FirstVoteOfDay | app/components/PopularTimeSlots.tsx:64-70 | the index of the first vote on the day, or none exactly when no vote is on it |
| PopularTimeSlots.DaysInOrderFirstAppearance | app/components/PopularTimeSlots.tsx:64-70 | every key is the day of some vote, and the keys are listed in the order of their days' first votes |
| PopularTimeSlots.Grouping | app/components/PopularTimeSlots.tsx:64-70 | the object `reduce` should build: its keys are exactly the days of some vote, each holding that day's votes |
| PopularTimeSlots.PushVote | app/components/PopularTimeSlots.tsx:65-69 | one `reduce` step keeps the accumulator equal to the grouping of the votes seen so far |
| PopularTimeSlots.GroupByDay | app/components/PopularTimeSlots.tsx:64-70 | the `reduce` yields keys in first-appearance order, each holding exactly its day's votes in input order |
| PopularTimeSlots.GroupingPartitions | app/components/PopularTimeSlots.tsx:64-70 | the group sizes add up to the number of votes |
| PopularTimeSlots.VotesOfDayConcat | app/components/PopularTimeSlots.tsx:68 | grouping keeps input order: the group of two lists in turn is the first's group followed by the second's |
| PopularTimeSlots.DayCompareIsKeyOrder | app/components/PopularTimeSlots.tsx:86-89 | the day comparator is negative or zero exactly as the table indices order them |
| PopularTimeSlots.SortedDays | app/components/PopularTimeSlots.tsx:86-89 | `sortedDays` is a permutation of the days, ordered by table index (unknown names first) |
| PopularTimeSlots.VoteCompareIsKeyOrder | app/components/PopularTimeSlots.tsx:138-144 | the vote comparator is negative or zero exactly as (count descending, hour ascending) orders them |
| PopularTimeSlots.SortedVotes | app/components/PopularTimeSlots.tsx:137-144 | a day's votes are permuted into count-descending order, ties by hour ascending |
| PopularTimeSlots.Badge | app/components/PopularTimeSlots.tsx:148 | the badge is `default` exactly when `vote_count > 2` |
| PopularTimeSlots.DayGroups | app/components/PopularTimeSlots.tsx:129-157 | one section per day with votes, in table order, each holding its day's votes sorted |
| PopularTimeSlots.DayGroupsOnePerDay | app/components/PopularTimeSlots.tsx:129-157 | the sections' days are distinct and every vote's day has a section |
| PopularTimeSlots.Render | app/components/PopularTimeSlots.tsx:118-158 | spinner while loading, then the error, "no votes" exactly for an empty list, else the non-empty sections |
| VoteStore.NewCount | lib/db/supabase.ts:42-44 | an increment adds one; a decrement subtracts one but never goes below zero |
| VoteStore.ApplyVote | lib/db/supabase.ts:27-60 | the slot is added to the keys only on an increment or when it exists; no other slot changes |
| VoteStore.ExistingSlot | lib/db/supabase.ts:40-44 | an existing slot goes to `c + 1` on increment and to `max(0, c - 1)` on decrement |
| VoteStore.MissingSlot | lib/db/supabase.ts:50-58 | a missing slot is inserted with count 1 on increment and left absent on decrement |
| VoteStore.CountsStayNonNegative | lib/db/supabase.ts:42-44 | counts never become negative |
| VoteStore.AddThenRemove | lib/db/supabase.ts:27-60 | a decrement undoes an increment, except that a newly created slot remains with count 0 |
| VoteStore.RemoveThenAddAtZero | lib/db/supabase.ts:40-58 | at count 0, a decrement then an increment leaves count 1, not 0 |
| VoteStore.GetVoteCounts | lib/db/supabase.ts:16-25 | an empty list on error or missing data, else the rows read |
| VoteStore.VoteTable.UpdateVoteCount | lib/db/supabase.ts:27-60 | the table becomes the specified update of the old table |
| MusicPlayer.InitialSongs | app/components/MusicPlayer.tsx:34-43 | never empty: the playlist if non-empty, else the `audioSrc` song if that is a non-empty string, else the default track |
| MusicPlayer.NextIndex | app/components/MusicPlayer.tsx:152-159 | the next index stays in range |
| MusicPlayer.PrevIndex | app/components/MusicPlayer.tsx:161-168 | the previous index stays in range |
| MusicPlayer.SkipIsModular | app/components/MusicPlayer.tsx:152-168 | next is `(i + 1) mod n` and previous is `(i - 1) mod n` |
| MusicPlayer.SkipRoundTrip | app/components/MusicPlayer.tsx:152-168 | next then previous, and previous then next, return to the same song |
| MusicPlayer.EndedIndexAsWritten | app/components/MusicPlayer.tsx:63-70 | as written, both `ended` handlers advance: before the last song the index moves to `i + 2`; on the last it stays |
| MusicPlayer.EndedIndexAsWrittenOverruns | app/components/MusicPlayer.tsx:206-212 | ending the second-to-last song leaves the index one past the list |
| MusicPlayer.EndedIndex | app/components/MusicPlayer.tsx:206-212 | one advance: the next song before the last, unchanged on the last, always in range |
| MusicPlayer.FormatTime | app/components/MusicPlayer.tsx:181-185 | the label holds a colon |
| MusicPlayer.ParsePadded | app/components/MusicPlayer.tsx:184 | a padded number below 100 is all digits and parses back to itself |
| MusicPlayer.FormatTimeRoundTrip | app/components/MusicPlayer.tsx:181-185 | the label splits into minutes and two-digit seconds that read back as `t / 60` and `t % 60` |
| MusicPlayer.Player.constructor | app/components/MusicPlayer.tsx:34-53 | the chosen song list, first song, paused, unmuted, volume 0.7, playlist closed |
| MusicPlayer.Player.PlayNextSong | app/components/MusicPlayer.tsx:152-159 | the index becomes the next index and stays valid; the flags are unchanged |
| MusicPlayer.Player.PlayPreviousSong | app/components/MusicPlayer.tsx:161-168 | the index becomes the previous index and stays valid; the flags are unchanged |
| MusicPlayer.Player.HandleEndedAsWritten | app/components/MusicPlayer.tsx:63-70 | both handlers run on one event: the index becomes the as-written index, playback stops only on the last song, and the player stays valid exactly when the second-to-last song did not end |
| MusicPlayer.Player.HandleEnded | app/components/MusicPlayer.tsx:206-212 | the intended handling, once: advances before the last song; on the last it stops playback and keeps the index |
| MusicPlayer.Player.SelectSong | app/components/MusicPlayer.tsx:170-178 | the chosen index becomes current and the playlist closes |
| MusicPlayer.Player.TogglePlay | app/components/MusicPlayer.tsx:97-108 | playing flips; nothing else changes |
| MusicPlayer.Player.ToggleMute | app/components/MusicPlayer.tsx:110-115 | muted flips; nothing else changes |
| MusicPlayer.Player.HandleVolumeChange | app/components/MusicPlayer.tsx:117-130 | the volume is set, and afterwards the player is muted exactly when the volume is 0 |
| JsText.NatToString | app/components/MusicPlayer.tsx:184 | decimal digits of the number, no leading zero, one digit exactly below 10 |
| JsText.PadStart2 | app/components/MusicPlayer.tsx:184 | at least two characters, the input as suffix, zeros in front |
| JsText.ParseInt | app/components/TimeZoneScheduler.tsx:171 | `NaN` exactly when no digit follows the blanks and the sign |
| JsText.ParseIntOfDigits | app/components/TimeZoneScheduler.tsx:171 | `parseInt` reads a non-empty run of digits as its decimal value |
| JsText.ParseIntOfNatToString | app/components/TimeZoneScheduler.tsx:171 | `parseInt(n.toString()) === n` |
| JsText.Split | app/components/TimeZoneScheduler.tsx:170 | at least one part, no part holds the separator, and joining the parts gives the string back |
| JsText.SplitTwo | app/components/TimeZoneScheduler.tsx:170 | splitting `a + sep + b` gives `[a, b]` when neither holds the separator |
| JsText.SplitJoin | scripts/add-song.js:82 | splitting parts joined by a separator that none holds gives the parts back |
| JsText.IndexOf | scripts/add-song.js:75 | the first occurrence of the pattern, or none when it does not occur |
| JsText.ReplaceAllChar | scripts/add-song.js:97 | every occurrence of the character is replaced and nothing else changes |
| AddSong.Mp3Files | scripts/add-song.js:37 | exactly the listed names that end in `.mp3` |
| AddSong.Mp3FilesConcat | scripts/add-song.js:37 | the filter keeps the listing's order and repeats: the `.mp3` files of two listings in a row are those of the first, then those of the second |
| AddSong.TypedNumbers | scripts/add-song.js:82 | typing numbers joined by commas gives one index per number, in order, each the number minus 1 |
| AddSong.SelectedFiles | scripts/add-song.js:83 | every chosen file is a listed file, and nothing is chosen exactly when no index is in range |
| AddSong.SelectedFilesConcat | scripts/add-song.js:83 | the filter keeps input order |
| AddSong.SelectedFilesInRange | scripts/add-song.js:83 | when every index names a file, each selects its file, in order |
| AddSong.SelectTyped | scripts/add-song.js:82-83 | typing numbers of listed files joined by commas selects those files, numbered from 1, in the order typed |
| AddSong.SelectOne | scripts/add-song.js:82-83 | typing `n` chooses exactly the `n`-th listed file |
| AddSong.SelectOutOfRange | scripts/add-song.js:82-83 | typing 0 or a number past the listing chooses nothing |
| AddSong.DefaultTitle | scripts/add-song.js:97 | the title has no hyphen and is four characters shorter exactly when the name holds `.mp3` |
| AddSong.DefaultTitleContent | scripts/add-song.js:97 | character by character, the title is the name with its first `.mp3` cut out and each hyphen a space |
| AddSong.DefaultTitleOfName | scripts/add-song.js:97 | `name.mp3`, for a name without a dot, is titled with the name's hyphens turned into spaces, and a name without hyphens is its own title |
| AddSong.Entry | scripts/add-song.js:99-103 | the entry holds `src: '/music/<file>'` and then `title: '<title>'` where the template puts them |
| AddSong.NewEntriesConcat | scripts/add-song.js:95-104 | the generated text is one entry per file, in order |
| AddSong.SplicedContents | scripts/add-song.js:106-115 | in the written page the playlist's trimmed contents are followed by the entries when they hold `src:`, and replaced by the entries otherwise |
| AddSong.Substring | scripts/add-song.js:78 | `substring` with bounds in order is the slice between them |
| AddSong.SplicePreserves | scripts/add-song.js:112-115 | the splice keeps the text before `startIndex` and from `endIndex` on, with the new content between them |
| AddSong.LocatePlaylistAsWritten | scripts/add-song.js:62-75 | found exactly when both patterns occur; the start is just past `const spacePlaylist = [`; the end is the first `];` at or after the start, or -1 when none is |
| AddSong.LocatePlaylist | scripts/add-song.js:62-75 | the intended bounds of the playlist finding: found exactly when the script finds a `];` after the start; then the end is the first `];` from the start and agrees with the script |
| AddSong.UpdatedDataKeeps | scripts/add-song.js:112-115 | the splice of any content keeps the text before the start and from the end on, and what precedes the kept tail ends like the content |
| AddSong.SplicedTextKeepsPage | scripts/add-song.js:106-115 | the written page for a given text of entries keeps the text around the playlist, and the entries end the playlist |
| AddSong.SplicedKeepsPage | scripts/add-song.js:74-115 | the written page keeps the text before the playlist and from the `];` on, and the new entries end the playlist |
| AddSong.PlaylistEndMissingRepeatsPage | scripts/add-song.js:75-115 | a page whose only `];` precedes the start gets end -1 from the script, and the written page holds the whole old page twice |
| AddSong.PlaylistEndMissing | scripts/add-song.js:62-75 | on the page `];const spacePlaylist = [` the script's bounds are the page's end and -1, and the intended bounds are not found |
| AddSong.SplicedAtMissingEnd | scripts/add-song.js:112-115 | with the start bound at the page's end and the end bound -1, the written page begins and ends with the whole old page |
| AddSong.AddSongs | scripts/add-song.js:29-115 | a page is written exactly when the answer is `y` or `Y`, the script's own bounds are found (end -1 included) and some number names a listed `.mp3` file; it is the splice at the script's bounds |
| AddSong.AddSongsRepeatsPage | scripts/add-song.js:29-115 | the script writes a page for `];const spacePlaylist = [` although no `];` follows the start, and that page holds the whole old page before and after the entries |
| AddSong.AddSongsSplices | scripts/add-song.js:62-115 | when the intended bounds are found, the script's bounds are the same and the written page is the splice at them |
| AddSong.KeepsPage | scripts/add-song.js:106-115 | a page equal to the splice keeps the text around the playlist, and the entries end the playlist |
| AddSong.AddSongsKeepsPage | scripts/add-song.js:29-115 | when the intended bounds are found, a written page keeps the text before the playlist and from its closing `];` on, and the chosen files' entries close the playlist |

## Left out

- Clocks and calendars are not modelled.
  - `Date`, `getTimezoneOffset`, daylight saving time, `Intl.DateTimeFormat`, `startOfDay` and `addHours` are outside the model.
  - The offset is a whole-hour integer parameter, and the picked date and today are weekday parameters.
  - Fractional offsets such as +5:30 are not covered.
- Network and storage calls are parameters or are not modelled.
  - `fetch`, the POST of the votes, `toast` messages and `console` logging are outside the model.
  - The Supabase client and its `.single()` lookups are outside the model.
  - app/api/time-votes/route.ts is not part of this model.
- TimeZoneScheduler.VoteSubmission does not carry `utc_time`, the ISO timestamp of the UTC date.
- VoteStore.VoteTable models the table as a map from (day, hour) to a count, so it cannot hold two rows for one slot.
- VoteStore.VoteTable.UpdateVoteCount is one atomic step. The code reads the row and then writes it in a second request, so two concurrent calls can lose an update; that interleaving is not modelled. The error `.single()` reports for a missing row is ignored by the code and is modelled only as "no row".
- JsText.ParseInt reads decimal only: no `0x` prefix.
- JsText.Trim skips only space, tab, line feed and carriage return, not the other Unicode white space that `trim` removes.
- MusicPlayer.FormatTime takes whole seconds, so it does not model fractional times. The progress bar and seek arithmetic are floating point and not modelled. Neither is `getVolumeIcon`.
- MusicPlayer.Player does not model the audio element (`play`, `pause`, `muted`, `volume`).
  - It takes the element to be mounted, so an `ended` event reaches both of its handlers (MusicPlayer.Player.HandleEndedAsWritten).
  - The effect that stops playback when `play()` rejects is not modelled.
- KeyedSort.SortBy returns the sorted order as a new sequence; the in-place reordering by `Array.prototype.sort` is not modelled.
  - Its stability is not stated in the contract.
  - The panel's order is determined by the keys only up to ties (same day index, or same count and hour).
- PopularTimeSlots.GroupByDay treats day names as ordinary property names of the `{}` accumulator. A vote whose day is an `Object.prototype` member name (`constructor`, `toString`, `__proto__`) makes the code's `acc[vote.day].push` throw, and the panel fails to render; the model groups such a vote like any other. Nothing in the model restricts stored day names to weekday names.
- PopularTimeSlots.DaysInOrder takes the keys of `votesByDay` in insertion order. JavaScript lists integer-like property names first, which day names never are.
- PopularTimeSlots.Render does not model `formatHour`, which formats through `Intl`.
- EventTimePoll.BackgroundColor compares the share by exact cross-multiplication, where the code divides in floating point.
- TimeZoneScheduler.Submission rolls the UTC day over from the key's own weekday, not from the picked date as lines 174-199 do. It is the corrected half of the submission finding; TimeZoneScheduler.Scheduler.SubmitVotes posts the as-written records.
- TimeZoneScheduler.SubmissionMatchesSlot is stated for slot hours 0..23, the only hours the planner's loop builds. For a larger hour the as-written record is rolled once more by `setHours` and differs from the corrected one.
- TimeZoneScheduler.Submission returns no record for a key whose day is not a weekday name. The code's `selectedSlots` only ever holds keys built from `DAYS_OF_WEEK` names.
- TimeZoneScheduler.MapKeys visits the keys of the selection set in an order of its own choosing. `Array.from(Set)` follows insertion order, so the order in which records are posted is not modelled.
- AddSong.AddSongs is a function of its inputs: the answer, the folder listing, the page text (`None` when it cannot be read) and the numbers typed. Reading and writing the files is not modelled.
- AddSong.AddSongs splices at the script's own bounds, so for a page with no `];` after the playlist's start it writes the repeated page of the playlist finding. The intended bounds, AddSong.LocatePlaylist, are what AddSong.AddSongsKeepsPage assumes.
- `answer.toLowerCase()` is modelled as accepting exactly `y` and `Y`.
- Rendering is not modelled: JSX, drawers, backgrounds, wrappers and next.config.js.

## Findings

| source | as written | input that shows it | evidently intended | confidence | as-written member | corrected member |
|---|---|---|---|---|---|---|
| app/components/EventTimePoll.tsx:94-117 | `UTCToLocal` (which the header at lines 3-14 lists as unused for now) builds the instant from today's UTC date and never reads `utcDay` | Friday 10:00 UTC at offset 0, asked on a Wednesday, gives Wednesday 10:00 | the inverse of `localToUTC`: the same rule with the offset negated | not executed | EventTimePoll.UtcToLocalAsWrittenNotInverse | TimeKeys.RoundTrip |
| app/components/TimeZoneScheduler.tsx:174-199 | `submitVotes` rolls the UTC day over from the weekday of the picked date, not from the day named in the key | key `Monday-10` submitted with a Tuesday picked, offset 0: recorded as Tuesday 10 with `local_day` Monday | the key's own weekday, rolled over by the offset | not executed | TimeZoneScheduler.SubmissionAsWrittenUsesPickerDay | TimeZoneScheduler.SubmissionRoundTrip |
| app/components/MusicPlayer.tsx:63-70 | the effect's `ended` listener and the `<audio onEnded>` prop (lines 206-212) both advance the index on the same event | two songs, the first ends: the index becomes 2, past the list | advance once, to the next song | not executed | MusicPlayer.EndedIndexAsWrittenOverruns | MusicPlayer.EndedIndex |
| scripts/add-song.js:75 | `indexOf('];', startIndex)` is -1 when the only `];` comes before the playlist, and `data.substring(endIndex)` at line 115 is then the whole page | page `];const spacePlaylist = [`: the written page is the page, the entries, then the page again | stop with "could not find playlist" when no `];` follows the start | not executed | AddSong.AddSongsRepeatsPage | AddSong.LocatePlaylist |
