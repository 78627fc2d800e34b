/** The `time_votes` table as the vote-count helpers use it: one count per
    (day, hour) slot. `updateVoteCount` reads the slot's row and writes the
    new count back, or inserts the slot with count 1 when a vote is added to
    a slot that has no row; `getVoteCounts` falls back to an empty list when
    the read fails. */
module VoteStore {
  import opened JsText
  import opened VoteRecords

  /** The (day, hour) a row is filtered on with `.eq('day', day).eq('hour', hour)`. */
  datatype Slot = Slot(day: string, hour: int)

  /** The count an existing row gets: one more on an increment, one fewer on
      a decrement but never below zero (`Math.max(0, count - 1)`). */
  function NewCount(count: int, increment: bool): (c: int)
    ensures increment ==> c == count + 1
    ensures !increment ==> c >= 0 && c >= count - 1 && (c == 0 || c == count - 1)
  {
    if increment then count + 1 else if count - 1 > 0 then count - 1 else 0
  }

  /** The table after `updateVoteCount(day, hour, increment)`. */
  function ApplyVote(table: map<Slot, int>, slot: Slot, increment: bool): (t: map<Slot, int>)
    ensures t.Keys == if slot in table || increment then table.Keys + {slot} else table.Keys
    ensures forall s :: s in table && s != slot ==> t[s] == table[s]
  {
    if slot in table then table[slot := NewCount(table[slot], increment)]
    else if increment then table[slot := 1]
    else table
  }

  /** A vote added to an existing slot raises its count by one; one removed
      lowers it by one, or leaves it at zero. */
  lemma ExistingSlot(table: map<Slot, int>, slot: Slot)
    requires slot in table
    ensures ApplyVote(table, slot, true)[slot] == table[slot] + 1
    ensures ApplyVote(table, slot, false)[slot] == if table[slot] >= 1 then table[slot] - 1 else 0
  {
  }

  /** A vote added to a slot without a row creates it with count 1; one
      removed from such a slot changes nothing. */
  lemma MissingSlot(table: map<Slot, int>, slot: Slot)
    requires slot !in table
    ensures ApplyVote(table, slot, true) == table[slot := 1]
    ensures ApplyVote(table, slot, false) == table
  {
  }

  /** Counts never become negative. */
  lemma CountsStayNonNegative(table: map<Slot, int>, slot: Slot, increment: bool)
    requires forall s :: s in table ==> table[s] >= 0
    ensures forall s :: s in ApplyVote(table, slot, increment) ==> ApplyVote(table, slot, increment)[s] >= 0
  {
  }

  /** Removing a vote undoes adding one: the counts come back, except that a
      slot created by the addition stays, with count 0. */
  lemma AddThenRemove(table: map<Slot, int>, slot: Slot)
    requires forall s :: s in table ==> table[s] >= 0
    ensures ApplyVote(ApplyVote(table, slot, true), slot, false) == if slot in table then table else table[slot := 0]
  {
    if slot in table {
      assert table[slot := table[slot]] == table;
    }
  }

  /** Adding a vote does not undo removing one when the slot was at zero:
      the count ends at 1. */
  lemma RemoveThenAddAtZero(table: map<Slot, int>, slot: Slot)
    requires slot in table && table[slot] == 0
    ensures ApplyVote(ApplyVote(table, slot, false), slot, true) == table[slot := 1]
  {
  }

  /** The outcome of `supabase.from('time_votes').select('*')`. */
  datatype ReadResult = ReadError | ReadOk(data: Option<seq<TimeVote>>)

  /** `getVoteCounts`: the rows read, an empty list when the read fails or
      returns no data. */
  function GetVoteCounts(read: ReadResult): (rows: seq<TimeVote>)
    ensures read.ReadError? ==> rows == []
    ensures read.ReadOk? && read.data.Some? ==> rows == read.data.value
    ensures read.ReadOk? && read.data.None? ==> rows == []
  {
    match read
    case ReadError => []
    case ReadOk(data) => if data.Some? then data.value else []
  }

  /** The table's counts, keyed by slot. */
  class VoteTable {
    var counts: map<Slot, int>

    /** No slot's count is negative. */
    ghost predicate Valid()
      reads this
    {
      forall s :: s in counts ==> counts[s] >= 0
    }

    constructor (initial: map<Slot, int>)
      ensures counts == initial
      ensures Valid() <==> forall s :: s in initial ==> initial[s] >= 0
    {
      counts := initial;
    }

    /** `updateVoteCount`: look the slot's row up; if there is one, write its
        new count; if not, insert it with count 1 on an increment. */
    method UpdateVoteCount(day: string, hour: int, increment: bool)
      modifies this
      ensures counts == ApplyVote(old(counts), Slot(day, hour), increment)
      ensures old(Valid()) ==> Valid()
    {
      var slot := Slot(day, hour);
      if slot in counts {
        var existing := counts[slot];
        var newCount := if increment then existing + 1 else (if 0 > existing - 1 then 0 else existing - 1);
        counts := counts[slot := newCount];
      } else if increment {
        counts := counts[slot := 1];
      }
    }
  }
}
