/** A stable sort by an integer-pair key, lexicographically ordered: the
    behaviour of `Array.prototype.sort` with a comparator that returns the
    difference of two keys. Elements with equal keys keep their order. */
module KeyedSort {

  /** Lexicographic order on pairs of integers. */
  predicate KeyLe(a: (int, int), b: (int, int)) {
    a.0 < b.0 || (a.0 == b.0 && a.1 <= b.1)
  }

  /** `s` is in ascending key order: every element's key is at most every later element's. */
  predicate Sorted<T>(s: seq<T>, key: T -> (int, int)) {
    forall i, j :: 0 <= i < j < |s| ==> KeyLe(key(s[i]), key(s[j]))
  }

  /** Insert `x` into `s` after every element whose key is not greater than its own. */
  function Insert<T>(x: T, s: seq<T>, key: T -> (int, int)): (r: seq<T>)
    ensures |r| == |s| + 1
    ensures multiset(r) == multiset(s) + multiset{x}
  {
    if s == [] then [x]
    else if !KeyLe(key(s[0]), key(x)) then [x] + s
    else
      assert s == [s[0]] + s[1..];
      [s[0]] + Insert(x, s[1..], key)
  }

  /** Inserting into a sorted sequence keeps it sorted. */
  lemma {:induction false} InsertSorted<T>(x: T, s: seq<T>, key: T -> (int, int))
    requires Sorted(s, key)
    ensures Sorted(Insert(x, s, key), key)
  {
    if s != [] && KeyLe(key(s[0]), key(x)) {
      var rest := Insert(x, s[1..], key);
      InsertSorted(x, s[1..], key);
      forall j | 0 <= j < |rest| ensures KeyLe(key(s[0]), key(rest[j])) {
        assert rest[j] in multiset(rest);
        if rest[j] != x {
          assert rest[j] in s[1..];
          var k :| 0 <= k < |s[1..]| && s[1..][k] == rest[j];
          assert s[k + 1] == rest[j];
        }
      }
      assert Insert(x, s, key) == [s[0]] + rest;
    }
  }

  /** The sorted order of `s`: each element in turn inserted into the sorted
      order of the elements before it. */
  function SortBy<T>(s: seq<T>, key: T -> (int, int)): (r: seq<T>)
    ensures |r| == |s|
    ensures multiset(r) == multiset(s)
    ensures Sorted(r, key)
  {
    if s == [] then []
    else
      assert s == s[..|s| - 1] + [s[|s| - 1]];
      InsertSorted(s[|s| - 1], SortBy(s[..|s| - 1], key), key);
      Insert(s[|s| - 1], SortBy(s[..|s| - 1], key), key)
  }
}

/** The popular-slots panel: the stored votes grouped by day name, the days
    in calendar order, each day's votes by count (most first) and then by
    hour, and each vote's badge style. */
module PopularTimeSlots {
  import opened JsText
  import opened VoteRecords
  import opened KeyedSort
  import TimeZoneScheduler

  /** The component's own `DAYS_OF_WEEK`: Sunday first, the same table as the planner's. */
  const DaysOfWeek: seq<string> := TimeZoneScheduler.DaysOfWeek

  /** `DAYS_OF_WEEK.indexOf(name)`: -1 for a name not in the table. */
  function DayRank(name: string): (r: int)
    ensures -1 <= r < 7
    ensures r == -1 <==> name !in DaysOfWeek
    ensures r >= 0 ==> DaysOfWeek[r] == name
  {
    match TimeZoneScheduler.DayIndex(name)
    case None => -1
    case Some(i) => i
  }

  /** The votes of `s` cast for `day`, in input order. */
  function VotesOfDay(s: seq<TimeVote>, day: string): (r: seq<TimeVote>)
    ensures forall v :: v in r <==> v in s && v.day == day
    ensures |r| <= |s|
  {
    if s == [] then []
    else
      var last := s[|s| - 1];
      assert s == s[..|s| - 1] + [last];
      VotesOfDay(s[..|s| - 1], day) + (if last.day == day then [last] else [])
  }

  /** The distinct day names of `s`, in order of first appearance: the key
      order of the object `reduce` builds. */
  function DaysInOrder(s: seq<TimeVote>): (r: seq<string>)
    ensures forall i, j :: 0 <= i < j < |r| ==> r[i] != r[j]
    ensures forall i :: 0 <= i < |s| ==> s[i].day in r
  {
    if s == [] then []
    else
      var p := DaysInOrder(s[..|s| - 1]);
      var last := s[|s| - 1].day;
      assert forall i :: 0 <= i < |s| - 1 ==> s[..|s| - 1][i] == s[i];
      if last in p then p else p + [last]
  }

  /** The index of the first vote of `s` cast for `day`, if any. */
  function FirstVoteOfDay(s: seq<TimeVote>, day: string): (r: Option<nat>)
    ensures r.Some? ==> r.value < |s| && s[r.value].day == day
    ensures r.Some? ==> forall k :: 0 <= k < r.value ==> s[k].day != day
    ensures r.None? ==> forall k :: 0 <= k < |s| ==> s[k].day != day
  {
    if s == [] then None
    else
      assert forall k :: 0 <= k < |s| - 1 ==> s[..|s| - 1][k] == s[k];
      match FirstVoteOfDay(s[..|s| - 1], day)
      case Some(i) => Some(i)
      case None => if s[|s| - 1].day == day then Some(|s| - 1) else None
  }

  /** The keys of the grouping are exactly the days some vote is cast for,
      each listed where its first vote appears: a day whose first vote comes
      earlier is listed earlier. */
  lemma {:induction false} DaysInOrderFirstAppearance(s: seq<TimeVote>)
    ensures forall i :: 0 <= i < |DaysInOrder(s)| ==> FirstVoteOfDay(s, DaysInOrder(s)[i]).Some?
    ensures forall i, j :: 0 <= i < j < |DaysInOrder(s)| ==>
      FirstVoteOfDay(s, DaysInOrder(s)[i]).value < FirstVoteOfDay(s, DaysInOrder(s)[j]).value
  {
    if s != [] {
      var p := s[..|s| - 1];
      var last := s[|s| - 1];
      DaysInOrderFirstAppearance(p);
      assert s == p + [last];
      DaysInOrderSnoc(p, last);
      var r := DaysInOrder(s);
      var q := DaysInOrder(p);
      forall d | FirstVoteOfDay(p, d).Some? ensures FirstVoteOfDay(s, d) == FirstVoteOfDay(p, d) {
      }
      forall i | 0 <= i < |q| ensures FirstVoteOfDay(s, q[i]) == FirstVoteOfDay(p, q[i]) && FirstVoteOfDay(p, q[i]).value < |s| - 1 {
      }
      if last.day !in q {
        assert FirstVoteOfDay(p, last.day).None?;
        assert FirstVoteOfDay(s, last.day) == Some(|s| - 1);
        assert r == q + [last.day];
      }
    }
  }

  /** The object `reduce` builds from `s`: each day of some vote mapped to
      that day's votes, in input order. */
  ghost function Grouping(s: seq<TimeVote>): (g: map<string, seq<TimeVote>>)
    ensures forall d :: d in g <==> d in DaysInOrder(s)
    ensures forall d :: d in g ==> g[d] == VotesOfDay(s, d)
  {
    map d | d in DaysInOrder(s) :: VotesOfDay(s, d)
  }

  /** One step of the `reduce`: a day's list is created on its first vote,
      then the vote is pushed onto it. */
  method PushVote(byDay: map<string, seq<TimeVote>>, days: seq<string>, ghost s: seq<TimeVote>, vote: TimeVote)
    returns (byDay': map<string, seq<TimeVote>>, days': seq<string>)
    requires byDay == Grouping(s) && days == DaysInOrder(s)
    ensures byDay' == Grouping(s + [vote]) && days' == DaysInOrder(s + [vote])
  {
    DaysInOrderSnoc(s, vote);
    byDay', days' := byDay, days;
    if vote.day !in byDay' {
      NoGroupOutsideDays(s, vote.day);
      byDay' := byDay'[vote.day := []];
      days' := days' + [vote.day];
    }
    var before := byDay';
    byDay' := byDay'[vote.day := byDay'[vote.day] + [vote]];
    forall d | d in byDay' ensures byDay'[d] == VotesOfDay(s + [vote], d) {
      VotesOfDaySnoc(s, vote, d);
      if d != vote.day {
        assert byDay'[d] == before[d];
      }
    }
    IsGrouping(byDay', s + [vote]);
  }

  /** A map with the days of `s` as keys, each holding its day's votes, is
      the grouping of `s`. */
  lemma IsGrouping(g: map<string, seq<TimeVote>>, s: seq<TimeVote>)
    requires forall d :: d in g <==> d in DaysInOrder(s)
    requires forall d :: d in g ==> g[d] == VotesOfDay(s, d)
    ensures g == Grouping(s)
  {
    assert g.Keys == Grouping(s).Keys;
  }

  /** The `reduce` that builds `votesByDay`: each vote pushed onto the list of
      its day. `days` is the key order of the resulting object. */
  method GroupByDay(votes: seq<TimeVote>) returns (byDay: map<string, seq<TimeVote>>, days: seq<string>)
    ensures days == DaysInOrder(votes)
    ensures forall d :: d in byDay <==> d in days
    ensures forall d :: d in byDay ==> byDay[d] == VotesOfDay(votes, d)
  {
    byDay := map[];
    days := [];
    var n := 0;
    assert votes[..n] == [];
    while n < |votes|
      invariant 0 <= n <= |votes|
      invariant byDay == Grouping(votes[..n]) && days == DaysInOrder(votes[..n])
    {
      assert votes[..n + 1] == votes[..n] + [votes[n]];
      byDay, days := PushVote(byDay, days, votes[..n], votes[n]);
      n := n + 1;
    }
    assert votes[..n] == votes;
  }

  lemma DaysInOrderSnoc(s: seq<TimeVote>, v: TimeVote)
    ensures DaysInOrder(s + [v]) == if v.day in DaysInOrder(s) then DaysInOrder(s) else DaysInOrder(s) + [v.day]
  {
    assert (s + [v])[..|s + [v]| - 1] == s;
  }

  lemma VotesOfDaySnoc(s: seq<TimeVote>, v: TimeVote, d: string)
    ensures VotesOfDay(s + [v], d) == VotesOfDay(s, d) + (if v.day == d then [v] else [])
  {
    assert (s + [v])[..|s + [v]| - 1] == s;
  }

  /** The total size of the groups of `days`. */
  function GroupSizes(s: seq<TimeVote>, days: seq<string>): nat {
    if days == [] then 0 else |VotesOfDay(s, days[0])| + GroupSizes(s, days[1..])
  }

  lemma {:induction false} GroupSizesAppend(s: seq<TimeVote>, days: seq<string>, d: string)
    ensures GroupSizes(s, days + [d]) == GroupSizes(s, days) + |VotesOfDay(s, d)|
  {
    if days != [] {
      assert (days + [d])[1..] == days[1..] + [d];
      GroupSizesAppend(s, days[1..], d);
    }
  }

  /** One more vote adds one to the total of the groups when its day is
      among them (each day counted once), and nothing otherwise. */
  lemma {:induction false} GroupSizesStep(s: seq<TimeVote>, v: TimeVote, days: seq<string>)
    requires forall i, j :: 0 <= i < j < |days| ==> days[i] != days[j]
    ensures GroupSizes(s + [v], days) == GroupSizes(s, days) + (if v.day in days then 1 else 0)
  {
    if days != [] {
      assert (s + [v])[..|s + [v]| - 1] == s;
      assert days == [days[0]] + days[1..];
      GroupSizesStep(s, v, days[1..]);
    }
  }

  /** A day with no vote has an empty group. */
  lemma NoGroupOutsideDays(s: seq<TimeVote>, d: string)
    requires d !in DaysInOrder(s)
    ensures VotesOfDay(s, d) == []
  {
    if VotesOfDay(s, d) != [] {
      assert VotesOfDay(s, d)[0] in VotesOfDay(s, d);
    }
  }

  /** Grouping partitions the votes: the groups' sizes add up to the number
      of votes. */
  lemma {:induction false} GroupingPartitions(s: seq<TimeVote>)
    ensures GroupSizes(s, DaysInOrder(s)) == |s|
  {
    if s != [] {
      var init, v := s[..|s| - 1], s[|s| - 1];
      assert s == init + [v];
      var p := DaysInOrder(init);
      GroupingPartitions(init);
      GroupSizesStep(init, v, p);
      if v.day !in p {
        GroupSizesAppend(s, p, v.day);
        NoGroupOutsideDays(init, v.day);
      }
    }
  }

  /** Grouping keeps the input order: the group of a day for two lists one
      after the other is the group for the first followed by the group for
      the second. */
  lemma {:induction false} VotesOfDayConcat(s1: seq<TimeVote>, s2: seq<TimeVote>, day: string)
    ensures VotesOfDay(s1 + s2, day) == VotesOfDay(s1, day) + VotesOfDay(s2, day)
  {
    if s2 == [] {
      assert s1 + s2 == s1;
    } else {
      var init, last := s2[..|s2| - 1], s2[|s2| - 1];
      assert s2 == init + [last];
      assert (s1 + s2)[..|s1 + s2| - 1] == s1 + init;
      assert (s1 + s2)[|s1 + s2| - 1] == last;
      VotesOfDayConcat(s1, init, day);
    }
  }

  /** The sort key of a day: its `DAYS_OF_WEEK` index. */
  function DayKey(day: string): (int, int) {
    (DayRank(day), 0)
  }

  /** `(a, b) => DAYS_OF_WEEK.indexOf(a) - DAYS_OF_WEEK.indexOf(b)`. */
  function DayCompare(a: string, b: string): int {
    DayRank(a) - DayRank(b)
  }

  /** The comparator puts `a` first exactly when its key is smaller, and
      calls two days equal exactly when their keys are equal. */
  lemma DayCompareIsKeyOrder(a: string, b: string)
    ensures DayCompare(a, b) < 0 <==> !KeyLe(DayKey(b), DayKey(a))
    ensures DayCompare(a, b) == 0 <==> DayKey(a) == DayKey(b)
  {
  }

  /** `sortedDays`: the day names ordered by their table index, names not in
      the table (index -1) first. */
  function SortedDays(days: seq<string>): (r: seq<string>)
    ensures multiset(r) == multiset(days)
    ensures forall i, j :: 0 <= i < j < |r| ==> DayRank(r[i]) <= DayRank(r[j])
  {
    var r := SortBy(days, DayKey);
    assert forall i, j :: 0 <= i < j < |r| ==> KeyLe(DayKey(r[i]), DayKey(r[j]));
    r
  }

  /** The sort key of a vote: most votes first, then earliest hour. */
  function VoteKey(v: TimeVote): (int, int) {
    (-v.voteCount, v.hour)
  }

  /** The comparator of the per-day sort. */
  function VoteCompare(a: TimeVote, b: TimeVote): int {
    if b.voteCount != a.voteCount then b.voteCount - a.voteCount else a.hour - b.hour
  }

  /** The comparator puts `a` first exactly when its key is smaller, and
      calls two votes equal exactly when their keys are equal. */
  lemma VoteCompareIsKeyOrder(a: TimeVote, b: TimeVote)
    ensures VoteCompare(a, b) < 0 <==> !KeyLe(VoteKey(b), VoteKey(a))
    ensures VoteCompare(a, b) == 0 <==> VoteKey(a) == VoteKey(b)
  {
  }

  /** A day's votes as the panel lists them. */
  function SortedVotes(votes: seq<TimeVote>): (r: seq<TimeVote>)
    ensures multiset(r) == multiset(votes)
    ensures forall i, j :: 0 <= i < j < |r| ==>
      r[i].voteCount > r[j].voteCount || (r[i].voteCount == r[j].voteCount && r[i].hour <= r[j].hour)
  {
    var r := SortBy(votes, VoteKey);
    assert forall i, j :: 0 <= i < j < |r| ==> KeyLe(VoteKey(r[i]), VoteKey(r[j]));
    r
  }

  datatype BadgeVariant = Default | Outline

  /** `vote.vote_count > 2 ? 'default' : 'outline'`. */
  function Badge(v: TimeVote): (b: BadgeVariant)
    ensures b == Default <==> v.voteCount > 2
  {
    if v.voteCount > 2 then Default else Outline
  }

  /** One day's section of the panel. */
  datatype DayGroup = DayGroup(day: string, votes: seq<TimeVote>)

  /** What the panel shows. */
  datatype View = Loading | Failed(message: string) | NoVotes | Groups(groups: seq<DayGroup>)

  /** The sections: the days in calendar order, each with its votes sorted. */
  function DayGroups(votes: seq<TimeVote>): (groups: seq<DayGroup>)
    ensures |groups| == |DaysInOrder(votes)|
    ensures forall i :: 0 <= i < |groups| ==>
      groups[i].day in DaysInOrder(votes) && groups[i].votes == SortedVotes(VotesOfDay(votes, groups[i].day))
    ensures forall i, j :: 0 <= i < j < |groups| ==> DayRank(groups[i].day) <= DayRank(groups[j].day)
  {
    var days := SortedDays(DaysInOrder(votes));
    PermutedMembers(days, DaysInOrder(votes));
    GroupsOf(votes, days)
  }

  /** Every element of a permutation of `q` is an element of `q`. */
  lemma PermutedMembers(p: seq<string>, q: seq<string>)
    requires multiset(p) == multiset(q)
    ensures forall i :: 0 <= i < |p| ==> p[i] in q
  {
    forall i | 0 <= i < |p| ensures p[i] in q {
      assert p[i] in multiset(p);
    }
  }

  /** A section for each of `days`, in that order. */
  function GroupsOf(votes: seq<TimeVote>, days: seq<string>): (groups: seq<DayGroup>)
    ensures |groups| == |days|
    ensures forall i :: 0 <= i < |days| ==> groups[i] == DayGroup(days[i], SortedVotes(VotesOfDay(votes, days[i])))
  {
    seq(|days|, i requires 0 <= i < |days| => DayGroup(days[i], SortedVotes(VotesOfDay(votes, days[i]))))
  }

  /** The panel has one section per day with votes: no day has two
      sections, and every vote's day has one. */
  lemma DayGroupsOnePerDay(votes: seq<TimeVote>)
    ensures forall i, j :: 0 <= i < j < |DayGroups(votes)| ==> DayGroups(votes)[i].day != DayGroups(votes)[j].day
    ensures forall k :: 0 <= k < |votes| ==> exists i :: 0 <= i < |DayGroups(votes)| && DayGroups(votes)[i].day == votes[k].day
  {
    var groups := DayGroups(votes);
    var days := SortedDays(DaysInOrder(votes));
    assert groups == GroupsOf(votes, days);
    DistinctCounts(DaysInOrder(votes));
    DistinctFromCounts(days);
    forall k | 0 <= k < |votes| ensures exists i :: 0 <= i < |groups| && groups[i].day == votes[k].day {
      assert votes[k].day in multiset(DaysInOrder(votes));
      assert votes[k].day in days;
      var i :| 0 <= i < |days| && days[i] == votes[k].day;
      assert groups[i].day == votes[k].day;
    }
  }

  /** In a sequence without repeats every element occurs once. */
  lemma {:induction false} DistinctCounts(s: seq<string>)
    requires forall i, j :: 0 <= i < j < |s| ==> s[i] != s[j]
    ensures forall x :: multiset(s)[x] <= 1
  {
    if s != [] {
      DistinctCounts(s[1..]);
      assert s == [s[0]] + s[1..];
      assert s[0] !in s[1..];
    }
  }

  /** A sequence in which every element occurs at most once has no repeats. */
  lemma DistinctFromCounts(s: seq<string>)
    requires forall x :: multiset(s)[x] <= 1
    ensures forall i, j :: 0 <= i < j < |s| ==> s[i] != s[j]
  {
    forall i, j | 0 <= i < j < |s| ensures s[i] != s[j] {
      assert s == s[..j] + [s[j]] + s[j + 1..];
      assert s[i] in s[..j];
      assert multiset(s)[s[j]] >= multiset(s[..j])[s[j]] + 1;
    }
  }

  /** The panel: a spinner while loading, the error when the fetch failed, a
      "no votes yet" note for an empty list, and otherwise one section per day. */
  function Render(loading: bool, error: Option<string>, votes: seq<TimeVote>): (view: View)
    ensures loading ==> view == Loading
    ensures !loading && error.Some? ==> view == Failed(error.value)
    ensures view == NoVotes <==> !loading && error.None? && votes == []
    ensures view.Groups? ==> view.groups == DayGroups(votes) && view.groups != []
  {
    if loading then Loading
    else if error.Some? then Failed(error.value)
    else if votes == [] then NoVotes
    else
      assert votes[0].day in DaysInOrder(votes);
      Groups(DayGroups(votes))
  }
}
