/**
 * Claiming due schedules (`claim_due_schedules` in agent_schedules.py): any number of schedulers, each with its own
 * clock, read rows and then update them one by one under a condition.
 */
module Schedules {
  import opened Common
  import opened Cron

  type ScheduleId = string

  /** A successful conditional update: it covers the ticks from `from` up to the claimer's `dueAt`. */
  datatype Claim = Claim(from: int, dueAt: int, to: int)

  /** `claims` records the history of the row, oldest first; `createdFor` is its first `next_run_at`. */
  datatype Row = Row(enabled: bool, nextRunAt: int, spec: CronSpec, offset: int, createdFor: int, claims: seq<Claim>)

  type Table = map<ScheduleId, Row>

  predicate Due(t: Table, id: ScheduleId, dueAt: int)
  {
    id in t && t[id].enabled && t[id].nextRunAt <= dueAt
  }

  /** The conditional UPDATE of one row, with the `next_run_at` computed from the claimer's clock. */
  function ClaimRow(t: Table, id: ScheduleId, dueAt: int, next: int): Table
  {
    if Due(t, id, dueAt)
    then t[id := t[id].(nextRunAt := next, claims := t[id].claims + [Claim(t[id].nextRunAt, dueAt, next)])]
    else t
  }

  // ---------------------------------------------------------------- all interleavings

  /** One atomic step of some scheduler, or of a user switching a schedule on or off. */
  datatype Step = TryClaim(id: ScheduleId, dueAt: int) | Switch(id: ScheduleId, on: bool)

  function Do(t: Table, step: Step): Table
  {
    if step.id !in t then t
    else
      match step
      case TryClaim(id, dueAt) =>
        var next := FireAfter(t[id].spec, dueAt, t[id].offset);
        if next.None? then t else ClaimRow(t, id, dueAt, next.value)
      case Switch(id, on) => t[id := t[id].(enabled := on)]
  }

  function Run(t: Table, steps: seq<Step>): Table
    decreases |steps|
  {
    if steps == [] then t else Run(Do(t, steps[0]), steps[1..])
  }

  lemma {:induction false} RunSnoc(t: Table, steps: seq<Step>, last: Step)
    ensures Run(t, steps + [last]) == Do(Run(t, steps), last)
    decreases |steps|
  {
    hide Do;
    if steps == [] {
      assert steps + [last] == [last] && [last][1..] == [];
    } else {
      assert (steps + [last])[1..] == steps[1..] + [last];
      RunSnoc(Do(t, steps[0]), steps[1..], last);
    }
  }

  // ---------------------------------------------------------------- one scheduler's batch

  /** A row the query returns, at a time `datetime` can represent. */
  predicate Selectable(t: Table, id: ScheduleId, dueAt: int)
  {
    Due(t, id, dueAt) && FirstMinute(dueAt, t[id].offset) >= MINUTES_PER_DAY
  }

  /** The expression of a row has a next time. */
  ghost predicate Fires(t: Table, id: ScheduleId, dueAt: int)
  {
    id in t && FiresFrom(t[id].spec, FirstMinute(dueAt, t[id].offset))
  }

  /** The steps of one batch: a try at each row in turn. */
  function Tries(selected: seq<ScheduleId>, dueAt: int): (steps: seq<Step>)
    ensures |steps| == |selected| && forall i :: 0 <= i < |steps| ==> steps[i] == TryClaim(selected[i], dueAt)
  {
    seq(|selected|, i requires 0 <= i < |selected| => TryClaim(selected[i], dueAt))
  }

  lemma TriesSnoc(selected: seq<ScheduleId>, dueAt: int, i: nat)
    requires i < |selected|
    ensures Tries(selected[..i + 1], dueAt) == Tries(selected[..i], dueAt) + [TryClaim(selected[i], dueAt)]
  {}

  lemma TriesAll(t: Table, selected: seq<ScheduleId>, dueAt: int)
    ensures Run(t, Tries(selected[..0], dueAt)) == t && selected[..|selected|] == selected
  {}

  /**
   * What a claim does to a row: `next_run_at` becomes the first tick after the claimer's clock, the claim is recorded,
   * and nothing else changes.
   */
  ghost predicate ClaimedAt(before: Row, after: Row, dueAt: int)
  {
    && Tick(before.spec, before.offset, after.nextRunAt) && dueAt < after.nextRunAt
    && (forall u :: dueAt < u < after.nextRunAt ==> !Tick(before.spec, before.offset, u))
    && after.claims == before.claims + [Claim(before.nextRunAt, dueAt, after.nextRunAt)]
    && after.enabled == before.enabled && after.spec == before.spec && after.offset == before.offset
    && after.createdFor == before.createdFor
  }

  lemma DueRowIsClaimed(t: Table, id: ScheduleId, dueAt: int)
    requires Selectable(t, id, dueAt) && FireAfter(t[id].spec, dueAt, t[id].offset).Some?
    ensures var after := Do(t, TryClaim(id, dueAt));
            && after.Keys == t.Keys && ClaimedAt(t[id], after[id], dueAt)
            && after == ClaimRow(t, id, dueAt, FireAfter(t[id].spec, dueAt, t[id].offset).value)
            && forall x <- t :: x != id ==> after[x] == t[x]
  {
    FireAfterIsNextTick(t[id].spec, dueAt, t[id].offset);
    hide Tick, FireAfter;
  }

  lemma DueRowFires(t: Table, id: ScheduleId, dueAt: int)
    requires Due(t, id, dueAt)
    ensures Fires(t, id, dueAt) <==> FiresFrom(t[id].spec, FirstMinute(dueAt, t[id].offset))
  {}

  class Database {
    var schedules: Table

    /**
     * `claim_due_schedules` on the rows its query returned. When one expression has no next time the exception leaves
     * the session uncommitted: no claim of the batch takes effect. Otherwise every row is claimed at its own next tick,
     * and the batch amounts to one try after the other.
     */
    method ClaimDueSchedules(selected: seq<ScheduleId>, dueAt: int) returns (claimed: Option<seq<ScheduleId>>)
      requires forall i :: 0 <= i < |selected| ==> Selectable(schedules, selected[i], dueAt)
      requires forall i, j :: 0 <= i < j < |selected| ==> selected[i] != selected[j]
      modifies this
      ensures claimed.Some? <==> forall id <- selected :: Fires(old(schedules), id, dueAt)
      ensures claimed.None? ==> schedules == old(schedules)
      ensures claimed.Some? ==> claimed.value == selected && schedules.Keys == old(schedules).Keys
      ensures claimed.Some? ==> forall id <- selected ::
                id in schedules && ClaimedAt(old(schedules)[id], schedules[id], dueAt)
      ensures claimed.Some? ==> forall id <- schedules :: id !in selected ==> schedules[id] == old(schedules)[id]
      ensures claimed.Some? ==> schedules == Run(old(schedules), Tries(selected, dueAt))
    {
      hide FireAfter, FirstMinute, Tick, FiresFrom, ClaimedAt, Run, Tries, Do, ClaimRow, Fires;
      var pending := schedules;
      var ids: seq<ScheduleId> := [];
      TriesAll(schedules, selected, dueAt);
      for i := 0 to |selected|
        invariant schedules == old(schedules) && pending.Keys == schedules.Keys
        invariant ids == selected[..i] && pending == Run(schedules, Tries(selected[..i], dueAt))
        invariant forall j :: 0 <= j < i ==> Fires(schedules, selected[j], dueAt)
        invariant forall j :: 0 <= j < i ==> ClaimedAt(schedules[selected[j]], pending[selected[j]], dueAt)
        invariant forall id <- schedules :: id !in selected[..i] ==> pending[id] == schedules[id]
      {
        var id := selected[i];
        assert id !in selected[..i] && id in selected;
        TriesSnoc(selected, dueAt, i);
        RunSnoc(schedules, Tries(selected[..i], dueAt), TryClaim(id, dueAt));
        var next := NextCronTime(pending[id].spec, dueAt, pending[id].offset);
        DueRowFires(schedules, id, dueAt);
        if next.None? {
          return None;
        }
        DueRowIsClaimed(pending, id, dueAt);
        if Due(pending, id, dueAt) {
          ids := ids + [id];
        }
        pending := ClaimRow(pending, id, dueAt, next.value);
      }
      schedules := pending;
      return Some(ids);
    }
  }

  /** Claims follow one another without gap or overlap, and each moves `next_run_at` past the claimer's clock. */
  ghost predicate Chained(row: Row)
  {
    && (forall k :: 0 <= k < |row.claims| ==> Advances(row, row.claims[k]))
    && (forall k :: 0 < k < |row.claims| ==> row.claims[k - 1].to == row.claims[k].from)
    && (if row.claims == [] then row.nextRunAt == row.createdFor
        else row.claims[0].from == row.createdFor && row.claims[|row.claims| - 1].to == row.nextRunAt)
  }

  ghost predicate Advances(row: Row, c: Claim)
  {
    c.from <= c.dueAt < c.to && FireAfter(row.spec, c.dueAt, row.offset) == Some(c.to)
  }

  ghost predicate AllChained(t: Table)
  {
    forall id <- t :: Chained(t[id])
  }

  lemma ClaimKeepsChain(row: Row, dueAt: int)
    requires Chained(row) && row.nextRunAt <= dueAt && FireAfter(row.spec, dueAt, row.offset).Some?
    ensures var next := FireAfter(row.spec, dueAt, row.offset).value;
            && row.nextRunAt <= dueAt < next
            && Chained(row.(nextRunAt := next, claims := row.claims + [Claim(row.nextRunAt, dueAt, next)]))
  {
    hide FireAfter, Tick, Chained;
    FireAfterIsNextTick(row.spec, dueAt, row.offset);
    ExtendChain(row, dueAt, FireAfter(row.spec, dueAt, row.offset).value);
  }

  lemma ExtendChain(row: Row, dueAt: int, next: int)
    requires Chained(row) && row.nextRunAt <= dueAt < next && FireAfter(row.spec, dueAt, row.offset) == Some(next)
    ensures Chained(row.(nextRunAt := next, claims := row.claims + [Claim(row.nextRunAt, dueAt, next)]))
  {
    hide FireAfter;
    var after := row.(nextRunAt := next, claims := row.claims + [Claim(row.nextRunAt, dueAt, next)]);
    forall k | 0 <= k < |after.claims| ensures Advances(after, after.claims[k]) {
      if k < |row.claims| {
        assert Advances(row, row.claims[k]);
      }
    }
  }

  lemma StepKeepsChains(t: Table, step: Step)
    requires AllChained(t)
    ensures AllChained(Do(t, step))
    ensures Do(t, step).Keys == t.Keys
    ensures forall id <- t :: t[id].nextRunAt <= Do(t, step)[id].nextRunAt
    ensures forall id <- t :: |Do(t, step)[id].claims| > |t[id].claims| ==>
              step.TryClaim? && t[id].enabled && t[id].nextRunAt <= step.dueAt < Do(t, step)[id].nextRunAt
  {
    hide FireAfter;
    if step.id in t {
      assert Chained(t[step.id]);
      match step
      case TryClaim(id, dueAt) =>
        if Due(t, id, dueAt) && FireAfter(t[id].spec, dueAt, t[id].offset).Some? {
          ClaimKeepsChain(t[id], dueAt);
        }
      case Switch(id, on) =>
        SwitchKeepsChain(t[id], on);
    }
  }

  /**
   * A row is claimed, at the first tick after the claimer's clock, exactly when a try at it finds it enabled and due
   * and its expression has a next time; otherwise only a switch changes it, and only its flag.
   */
  lemma StepClaimsExactlyWhen(t: Table, step: Step, id: ScheduleId)
    requires id in t
    ensures id in Do(t, step)
    ensures var before, after := t[id], Do(t, step)[id];
            if step.TryClaim? && step.id == id && before.enabled && before.nextRunAt <= step.dueAt
               && FireAfter(before.spec, step.dueAt, before.offset).Some?
            then ClaimedAt(before, after, step.dueAt)
            else after == before.(enabled := if step.Switch? && step.id == id then step.on else before.enabled)
  {
    if step.TryClaim? && step.id == id && FireAfter(t[id].spec, step.dueAt, t[id].offset).Some? {
      FireAfterIsNextTick(t[id].spec, step.dueAt, t[id].offset);
    }
    hide Tick, FireAfter;
  }

  lemma SwitchKeepsChain(row: Row, on: bool)
    requires Chained(row)
    ensures Chained(row.(enabled := on))
  {
    hide FireAfter;
    forall k | 0 <= k < |row.claims| ensures Advances(row.(enabled := on), row.claims[k]) {
      assert Advances(row, row.claims[k]);
    }
  }

  /** Over every interleaving: claims stay chained, and `next_run_at` never goes back. */
  lemma {:induction false} RunsKeepChains(t: Table, steps: seq<Step>)
    requires AllChained(t)
    ensures AllChained(Run(t, steps)) && Run(t, steps).Keys == t.Keys
    ensures forall id <- t :: t[id].nextRunAt <= Run(t, steps)[id].nextRunAt
    decreases |steps|
  {
    if steps != [] {
      StepKeepsChains(t, steps[0]);
      RunsKeepChains(Do(t, steps[0]), steps[1..]);
    }
  }

  predicate Covers(c: Claim, tick: int)
  {
    c.from <= tick <= c.dueAt
  }

  lemma {:induction false} LaterClaimsStartLater(row: Row, j: nat, k: nat)
    requires Chained(row) && j < k < |row.claims|
    ensures row.claims[j].to <= row.claims[k].from
    decreases k
  {
    assert row.claims[k - 1].to == row.claims[k].from;
    if j < k - 1 {
      LaterClaimsStartLater(row, j, k - 1);
      assert Advances(row, row.claims[k - 1]);
    }
  }

  /** No instant is covered by two claims. */
  lemma CoveredAtMostOnce(row: Row, j: nat, k: nat, t: int)
    requires Chained(row) && j < |row.claims| && k < |row.claims|
    requires Covers(row.claims[j], t) && Covers(row.claims[k], t)
    ensures j == k
  {
    assert Advances(row, row.claims[j]) && Advances(row, row.claims[k]);
    if j < k { LaterClaimsStartLater(row, j, k); }
    if k < j { LaterClaimsStartLater(row, k, j); }
  }

  lemma {:induction false} SomeClaimSpans(row: Row, t: int, n: nat) returns (k: nat)
    requires Chained(row) && 0 < n <= |row.claims| && row.createdFor <= t < row.claims[n - 1].to
    ensures k < n && row.claims[k].from <= t < row.claims[k].to
    decreases n
  {
    if row.claims[n - 1].from <= t {
      k := n - 1;
    } else {
      assert row.claims[n - 2].to == row.claims[n - 1].from;
      k := SomeClaimSpans(row, t, n - 1);
    }
  }

  /**
   * Every cron tick since the schedule was created and before its current `next_run_at` is covered by exactly one
   * claim: none is lost, none is run twice, and ticks missed while nobody claimed collapse into one.
   */
  lemma EveryTickClaimedOnce(row: Row, tick: int)
    requires Chained(row) && Tick(row.spec, row.offset, tick) && row.createdFor <= tick < row.nextRunAt
    ensures exists k: nat :: k < |row.claims| && Covers(row.claims[k], tick)
                             && forall j: nat :: j < |row.claims| && Covers(row.claims[j], tick) ==> j == k
  {
    var k := SomeClaimSpans(row, tick, |row.claims|);
    var c := row.claims[k];
    assert Advances(row, c);
    FireAfterIsNextTick(row.spec, c.dueAt, row.offset);
    assert Covers(c, tick);
    forall j: nat | j < |row.claims| && Covers(row.claims[j], tick) ensures j == k {
      CoveredAtMostOnce(row, j, k, tick);
    }
  }
}
