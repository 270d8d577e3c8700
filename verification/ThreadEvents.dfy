/**
 * The transcript of one chat thread (`append_thread_event` in thread_events.py): rows numbered under a unique
 * constraint, written by several writers at once.
 */
module ThreadEvents {
  import opened Common
  import opened Json

  type Event = seq<Field>

  /** `mine` marks the rows of the writer under study. */
  datatype Row = Row(mine: bool, event: Event)
  type Log = map<int, Row>

  /** What happens between choosing a number and committing it: other writers commit rows, or the database fails. */
  datatype Moment = Moment(rows: seq<Row>, broken: bool)
  type World = (nat, nat) -> Moment

  ghost predicate OthersOnly(world: World)
  {
    forall attempt: nat, tries: nat, i: nat :: i < |world(attempt, tries).rows| ==> !world(attempt, tries).rows[i].mine
  }

  const TRIES: nat := 3

  /** Numbers run from one without a gap. */
  ghost predicate Dense(log: Log)
  {
    forall n :: n in log <==> 1 <= n <= |log|
  }

  /** The rows in the order of their numbers. */
  ghost function Transcript(log: Log): (rows: seq<Row>)
    requires Dense(log)
    ensures |rows| == |log|
  {
    seq(|log|, i requires 0 <= i < |log| => log[i + 1])
  }

  /** `coalesce(max(seq), 0)` */
  function MaxSeq(log: Log): (last: nat)
    requires Dense(log)
    ensures forall n <- log :: n <= last
    ensures if log == map[] then last == 0 else last in log
  {
    |log|
  }

  lemma NextIsDense(log: Log, row: Row)
    requires Dense(log)
    ensures Dense(log[|log| + 1 := row])
    ensures Transcript(log[|log| + 1 := row]) == Transcript(log) + [row]
  {
    assert |log| + 1 !in log;
  }

  /** What other writers leave behind; each of them takes the next free number. */
  function Extend(log: Log, rows: seq<Row>): (after: Log)
    requires Dense(log)
    ensures Dense(after) && Transcript(after) == Transcript(log) + rows
    decreases |rows|
  {
    if rows == [] then log
    else
      NextIsDense(log, rows[0]);
      var after := Extend(log[MaxSeq(log) + 1 := rows[0]], rows[1..]);
      assert Transcript(log) + [rows[0]] + rows[1..] == Transcript(log) + rows;
      after
  }

  function WithType(event: Event): Event
  {
    var kind := Get(event, "type");
    if kind.Some? && kind.value.Str? && kind.value.text != "" then event else Put(event, "type", Str("event"))
  }

  /** Appending one row, from its `tries`-th try on: a number another writer took costs a try, a failure ends it. */
  function Appended(rows: seq<Row>, row: Row, hint: Option<int>, world: World, attempt: nat, tries: nat)
    : (seq<Row>, bool)
    decreases TRIES - tries
  {
    if tries >= TRIES then (rows, false)
    else
      var number := if hint.Some? then hint.value + 1 else |rows| + 1;
      var later := rows + world(attempt, tries).rows;
      if world(attempt, tries).broken then (later, false)
      else if number == |later| + 1 then (later + [row], true)
      else Appended(later, row, None, world, attempt, tries + 1)
  }

  // Appending, by the try that decides.

  /** The rows other writers committed during the first `n` tries. */
  function Meanwhile(world: World, attempt: nat, n: nat): seq<Row>
  {
    if n == 0 then [] else Meanwhile(world, attempt, n - 1) + world(attempt, n - 1).rows
  }

  /** Whether the number chosen for a try is still free when it commits: a hint is trusted on the first try only. */
  predicate StillFree(rows: nat, hint: Option<int>, world: World, attempt: nat, tries: nat)
  {
    if tries == 0 && hint.Some? then hint.value == rows + |world(attempt, 0).rows| else world(attempt, tries).rows == []
  }

  /** The try is reached: every earlier one lost its number to another writer. */
  ghost predicate Reached(rows: nat, hint: Option<int>, world: World, attempt: nat, tries: nat)
  {
    forall t :: 0 <= t < tries ==> !world(attempt, t).broken && !StillFree(rows, hint, world, attempt, t)
  }

  /**
   * The row is stored by the try that is reached, does not break and finds its number free, right behind what others
   * committed until then; it is lost when the try that is reached breaks, or when all three lost their number.
   */
  lemma AppendedExactly(rows: seq<Row>, row: Row, hint: Option<int>, world: World, attempt: nat)
    ensures forall k: nat :: k < 3 && Reached(|rows|, hint, world, attempt, k) ==>
              && (world(attempt, k).broken ==>
                    Appended(rows, row, hint, world, attempt, 0) == (rows + Meanwhile(world, attempt, k + 1), false))
              && (!world(attempt, k).broken && StillFree(|rows|, hint, world, attempt, k) ==>
                    Appended(rows, row, hint, world, attempt, 0)
                    == (rows + Meanwhile(world, attempt, k + 1) + [row], true))
    ensures Reached(|rows|, hint, world, attempt, 3) ==>
              Appended(rows, row, hint, world, attempt, 0) == (rows + Meanwhile(world, attempt, 3), false)
  {
    AppendedFrom(rows, row, hint, world, attempt, 0);
    NothingAdded(rows);
    assert Meanwhile(world, attempt, 0) == [];
  }

  lemma {:induction false} AppendedFrom(rows: seq<Row>, row: Row, hint: Option<int>, world: World, attempt: nat,
                                        tries: nat)
    requires tries <= 3 && Reached(|rows|, hint, world, attempt, tries)
    ensures var now, left := rows + Meanwhile(world, attempt, tries), if tries == 0 then hint else None;
            var result := Appended(now, row, left, world, attempt, tries);
            && (forall k: nat :: tries <= k < 3 && Reached(|rows|, hint, world, attempt, k) ==>
                  && (world(attempt, k).broken ==> result == (rows + Meanwhile(world, attempt, k + 1), false))
                  && (!world(attempt, k).broken && StillFree(|rows|, hint, world, attempt, k) ==>
                        result == (rows + Meanwhile(world, attempt, k + 1) + [row], true)))
            && (Reached(|rows|, hint, world, attempt, 3) ==> result == (rows + Meanwhile(world, attempt, 3), false))
    decreases 3 - tries
  {
    if tries == 0 { NothingAdded(rows); }
    if tries < 3 {
      Assoc(rows, Meanwhile(world, attempt, tries), world(attempt, tries).rows);
      if !world(attempt, tries).broken && !StillFree(|rows|, hint, world, attempt, tries) {
        AppendedFrom(rows, row, hint, world, attempt, tries + 1);
      }
    }
  }

  /** Every stored event has a type that is not empty: its own, or `event`; nothing else of it changes. */
  lemma TypedExactly(event: Event, key: string)
    ensures var own := Get(event, "type");
            Get(WithType(event), key) ==
            if key == "type" && !(own.Some? && own.value.Str? && own.value.text != "") then Some(Str("event"))
            else Get(event, key)
  {
    GetAfterPut(event, "type", Str("event"), key);
    hide Get, Put;
  }

  class Thread {
    var log: Log

    ghost predicate Valid()
      reads this
    {
      Dense(log)
    }

    ghost function Rows(): seq<Row>
      requires Valid()
      reads this
    {
      Transcript(log)
    }

    /** One insert under the unique constraint on (thread, seq). */
    method Insert(number: int, row: Row) returns (ok: bool)
      requires Valid() && 1 <= number <= |log| + 1
      modifies this
      ensures Valid() && ok == (number == old(|log|) + 1)
      ensures Rows() == if ok then old(Rows()) + [row] else old(Rows())
    {
      ok := number !in log;
      if ok {
        NextIsDense(log, row);
        log := log[number := row];
      }
    }

    /** `append_thread_event`; the number of the new row, or nothing when the error reaches the caller. */
    method Append(event: Event, hint: Option<int>, world: World, attempt: nat) returns (number: Option<int>)
      requires Valid() && (hint.Some? ==> 0 <= hint.value <= |log|)
      modifies this
      ensures Valid()
      ensures (Rows(), number.Some?) == Appended(old(Rows()), Row(true, WithType(event)), hint, world, attempt, 0)
      ensures number.Some? ==> number.value == |Rows()|
    {
      var row := Row(true, WithType(event));
      var seqHint := hint;
      for tries := 0 to TRIES
        invariant Valid()
        invariant seqHint.Some? ==> 0 <= seqHint.value <= |log|
        invariant Appended(Rows(), row, seqHint, world, attempt, tries)
                  == Appended(old(Rows()), row, hint, world, attempt, 0)
      {
        var candidate;
        if seqHint.Some? {
          candidate := seqHint.value + 1;
          seqHint := None;
        } else {
          candidate := MaxSeq(log) + 1;
        }
        var moment := world(attempt, tries);
        log := Extend(log, moment.rows);
        if moment.broken {
          return None;
        }
        var ok := Insert(candidate, row);
        if ok {
          return Some(candidate);
        }
      }
      return None;
    }
  }

  /** A writer's view: the transcript and the number of its own last row, when it knows it. */
  datatype Writer = Writer(rows: seq<Row>, last: Option<int>)

  function AppendOne(w: Writer, event: Event, world: World, attempt: nat): Writer
  {
    var (rows, ok) := Appended(w.rows, Row(true, WithType(event)), w.last, world, attempt, 0);
    Writer(rows, if ok then Some(|rows|) else None)
  }

  lemma {:induction false} AppendedEnds(rows: seq<Row>, row: Row, hint: Option<int>, world: World, attempt: nat,
                                        tries: nat)
    ensures var (after, ok) := Appended(rows, row, hint, world, attempt, tries);
            ok ==> |after| > 0 && after[|after| - 1] == row
    decreases TRIES - tries
  {
    if tries < TRIES {
      AppendedEnds(rows + world(attempt, tries).rows, row, None, world, attempt, tries + 1);
    }
  }

  /** The number remembered after an append is that of the writer's own new row; after a failure there is none. */
  lemma HintIsOwnNumber(w: Writer, event: Event, world: World, attempt: nat)
    requires OthersOnly(world)
    ensures var next := AppendOne(w, event, world, attempt);
            if next.last.Some? then
              && |next.rows| > 0 && next.last.value == |next.rows|
              && next.rows[|next.rows| - 1] == Row(true, WithType(event))
            else Mine(next.rows) == Mine(w.rows)
  {
    AppendedEnds(w.rows, Row(true, WithType(event)), w.last, world, attempt, 0);
    AppendedIsMine(w.rows, Row(true, WithType(event)), w.last, world, attempt, 0);
    hide Appended, Mine, WithType;
    NothingAdded(Mine(w.rows));
  }

  function AppendAll(w: Writer, events: seq<Event>, world: World, attempt: nat): Writer
    decreases |events|
  {
    if events == [] then w else AppendAll(AppendOne(w, events[0], world, attempt), events[1..], world, attempt + 1)
  }

  lemma {:induction false} AppendAllSplit(w: Writer, first: seq<Event>, second: seq<Event>, world: World, attempt: nat)
    ensures AppendAll(w, first + second, world, attempt)
         == AppendAll(AppendAll(w, first, world, attempt), second, world, attempt + |first|)
    decreases |first|
  {
    hide AppendOne;
    if first == [] {
      assert first + second == second;
    } else {
      assert (first + second)[1..] == first[1..] + second;
      AppendAllSplit(AppendOne(w, first[0], world, attempt), first[1..], second, world, attempt + 1);
    }
  }

  /** The writer's own events, in the order of their numbers. */
  function Mine(rows: seq<Row>): seq<Event>
  {
    if rows == [] then []
    else if rows[0].mine then [rows[0].event] + Mine(rows[1..])
    else Mine(rows[1..])
  }

  lemma {:induction false} MineAppend(a: seq<Row>, b: seq<Row>)
    ensures Mine(a + b) == Mine(a) + Mine(b)
  {
    if a == [] {
      assert a + b == b;
    } else {
      assert (a + b)[1..] == a[1..] + b;
      MineAppend(a[1..], b);
    }
  }

  lemma {:induction false} NoneMine(rows: seq<Row>)
    requires forall r <- rows :: !r.mine
    ensures Mine(rows) == []
  {
    if rows != [] {
      NoneMine(rows[1..]);
    }
  }

  /** One append adds the writer's row at the very end or not at all; other writers add nothing of the writer's. */
  lemma {:induction false} AppendedIsMine(rows: seq<Row>, row: Row, hint: Option<int>, world: World, attempt: nat,
                                          tries: nat)
    requires OthersOnly(world) && row.mine
    ensures var (after, ok) := Appended(rows, row, hint, world, attempt, tries);
            Mine(after) == Mine(rows) + if ok then [row.event] else []
    decreases TRIES - tries
  {
    if tries < TRIES {
      var moment := world(attempt, tries);
      var later := rows + moment.rows;
      NoneMine(moment.rows);
      MineAppend(rows, moment.rows);
      MineAppend(later, [row]);
      assert Mine([row]) == [row.event] + Mine([]);
      AppendedIsMine(later, row, None, world, attempt, tries + 1);
    }
  }

  /** Which attempts went through. */
  function Stored(w: Writer, events: seq<Event>, world: World, attempt: nat): seq<Event>
    decreases |events|
  {
    if events == [] then []
    else
      var next := AppendOne(w, events[0], world, attempt);
      (if next.last.Some? then [WithType(events[0])] else []) + Stored(next, events[1..], world, attempt + 1)
  }

  lemma OneIsMine(w: Writer, event: Event, world: World, attempt: nat)
    requires OthersOnly(world)
    ensures var next := AppendOne(w, event, world, attempt);
            Mine(next.rows) == Mine(w.rows) + if next.last.Some? then [WithType(event)] else []
  {
    hide Appended, Mine;
    AppendedIsMine(w.rows, Row(true, WithType(event)), w.last, world, attempt, 0);
  }

  /**
   * Read in number order, a writer's part of the transcript grows by the attempts that went through, in their order.
   */
  lemma {:induction false} OrderIsKept(w: Writer, events: seq<Event>, world: World, attempt: nat)
    requires OthersOnly(world)
    ensures Mine(AppendAll(w, events, world, attempt).rows) == Mine(w.rows) + Stored(w, events, world, attempt)
    decreases |events|
  {
    hide AppendOne, Mine;
    if events == [] {
      assert Mine(w.rows) + [] == Mine(w.rows);
    } else {
      var next := AppendOne(w, events[0], world, attempt);
      OneIsMine(w, events[0], world, attempt);
      OrderIsKept(next, events[1..], world, attempt + 1);
      var now := if next.last.Some? then [WithType(events[0])] else [];
      var later := Stored(next, events[1..], world, attempt + 1);
      assert Mine(w.rows) + now + later == Mine(w.rows) + (now + later);
    }
  }

  /** No failure, and another writer gets in at most between the first two tries of an attempt. */
  ghost predicate Calm(world: World)
  {
    && (forall attempt: nat, tries: nat :: !world(attempt, tries).broken)
    && (forall attempt: nat :: world(attempt, 2).rows == [])
  }

  function AllTyped(events: seq<Event>): seq<Event>
  {
    if events == [] then [] else [WithType(events[0])] + AllTyped(events[1..])
  }

  /** In a calm world every event is stored, even when the number kept from the last append is stale. */
  lemma {:induction false} CalmLosesNothing(w: Writer, events: seq<Event>, world: World, attempt: nat)
    requires Calm(world)
    ensures Stored(w, events, world, attempt) == AllTyped(events)
    decreases |events|
  {
    if events != [] {
      var row := Row(true, WithType(events[0]));
      var first := w.rows + world(attempt, 0).rows;
      var second := first + world(attempt, 1).rows;
      assert Appended(second, row, None, world, attempt, 2) == (second + [] + [row], true);
      assert Appended(w.rows, row, w.last, world, attempt, 0).1;
      CalmLosesNothing(AppendOne(w, events[0], world, attempt), events[1..], world, attempt + 1);
    }
  }
}
