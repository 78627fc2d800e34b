/** The `time_votes` row shape and the vote lookup both slot builders use:
    `votes.find(v => v.day === day && v.hour === hour)` followed by
    `voteData?.vote_count || 0`. */
module VoteRecords {
  import opened JsText

  /** One row of the `time_votes` table: a (day, hour) slot and its count. */
  datatype TimeVote = TimeVote(
    id: string,
    day: string,
    hour: int,
    voteCount: int,
    createdAt: string,
    updatedAt: string)

  predicate Matches(v: TimeVote, day: string, hour: int) {
    v.day == day && v.hour == hour
  }

  /** Vote `j` is the first for (day, hour). */
  predicate IsFirstMatch(votes: seq<TimeVote>, day: string, hour: int, j: int)
    requires 0 <= j < |votes|
  {
    Matches(votes[j], day, hour) && forall i :: 0 <= i < j ==> !Matches(votes[i], day, hour)
  }

  /** `Array.prototype.find`, as the index of the first matching vote. */
  function FindVote(votes: seq<TimeVote>, day: string, hour: int): (r: Option<nat>)
    ensures r.Some? ==> r.value < |votes| && Matches(votes[r.value], day, hour)
    ensures r.Some? ==> forall j :: 0 <= j < r.value ==> !Matches(votes[j], day, hour)
    ensures r.None? ==> forall j :: 0 <= j < |votes| ==> !Matches(votes[j], day, hour)
  {
    if votes == [] then None
    else if Matches(votes[0], day, hour) then Some(0)
    else match FindVote(votes[1..], day, hour)
      case None => None
      case Some(i) => Some(i + 1)
  }

  /** The count a slot shows: that of the first vote for its (day, hour), or 0. */
  function VoteCountFor(votes: seq<TimeVote>, day: string, hour: int): (c: int)
    ensures (forall j :: 0 <= j < |votes| ==> !Matches(votes[j], day, hour)) ==> c == 0
    ensures forall j :: 0 <= j < |votes| && IsFirstMatch(votes, day, hour, j) ==> c == votes[j].voteCount
  {
    match FindVote(votes, day, hour)
    case None => 0
    case Some(i) => votes[i].voteCount
  }
}

/** Selection sets toggled by clicking a slot: `new Set(prev)` followed by
    `delete` when the key is present and `add` when it is not. */
module Selection {

  function Toggled(s: set<string>, x: string): (r: set<string>)
    ensures x in r <==> x !in s
    ensures forall y :: y != x ==> (y in r <==> y in s)
  {
    if x in s then s - {x} else s + {x}
  }

  /** Toggling the same key twice leaves the selection as it was. */
  lemma ToggleTwice(s: set<string>, x: string)
    ensures Toggled(Toggled(s, x), x) == s
  {
  }
}
