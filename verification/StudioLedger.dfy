/**
 * The rows the Studio worker moves (agent_studio_worker.py): build jobs and the runs they belong to. Each function is
 * one transaction; the class carries them out on its tables step by step.
 */
module StudioLedger {
  import opened Common

  type JobId = string
  type RunId = string

  datatype JobStatus = Queued | Running | Complete | Failed | Canceled
  datatype RunStatus = RunQueued | Building | Evaluating | Reviewing | Improving | Deploying | Live | RunFailed

  /** ACTIVE_STUDIO_STATUSES */
  predicate Active(status: RunStatus)
  {
    status != Live && status != RunFailed
  }

  /** `run` is the run named in the job's payload; there may be no such run. */
  datatype Job = Job(status: JobStatus, attempt: nat, maxAttempts: nat, leasedUntil: Option<int>, queuedAt: int,
                     run: RunId)

  datatype Tables = Tables(jobs: map<JobId, Job>, runs: map<RunId, RunStatus>)

  predicate Terminal(status: JobStatus)
  {
    status == Complete || status == Failed || status == Canceled
  }

  predicate IsLive(t: Tables, run: RunId)
  {
    run in t.runs && t.runs[run] == Live
  }

  /** `complete_job`; a canceled job ignores it. */
  function CompleteJob(t: Tables, id: JobId): Tables
    requires id in t.jobs
  {
    if t.jobs[id].status == Canceled then t else t.(jobs := t.jobs[id := t.jobs[id].(status := Complete)])
  }

  /** `_fail_job_and_run`: the run fails unless it is live, the job fails unless it was canceled. */
  function FailJobAndRun(t: Tables, id: JobId): Tables
    requires id in t.jobs
  {
    var job := t.jobs[id];
    var runs := if job.run in t.runs && t.runs[job.run] != Live then t.runs[job.run := RunFailed] else t.runs;
    var jobs := if job.status == Canceled then t.jobs else t.jobs[id := job.(status := Failed)];
    Tables(jobs, runs)
  }

  predicate Expired(t: Tables, id: JobId, now: int)
  {
    && id in t.jobs && t.jobs[id].status == Running
    && t.jobs[id].leasedUntil.Some? && t.jobs[id].leasedUntil.value <= now
  }

  function AtLeastOne(n: nat): nat
  {
    if n == 0 then 1 else n
  }

  /** One row of `_release_expired_leases`: finish it, requeue it, or give up on it. */
  function ReleaseOne(t: Tables, id: JobId, now: int): Tables
    requires id in t.jobs
  {
    var job := t.jobs[id];
    if IsLive(t, job.run) then CompleteJob(t, id)
    else if job.attempt < AtLeastOne(job.maxAttempts) then
      var runs := if job.run in t.runs && Active(t.runs[job.run]) then t.runs[job.run := RunQueued] else t.runs;
      Tables(t.jobs[id := job.(status := Queued, queuedAt := now, leasedUntil := None)], runs)
    else FailJobAndRun(t, id)
  }

  /** The rows of one query, released one after the other. */
  function ReleaseAll(t: Tables, rows: seq<JobId>, now: int): Tables
    requires forall id <- rows :: id in t.jobs
    decreases |rows|
  {
    if rows == [] then t else ReleaseAll(ReleaseOne(t, rows[0], now), rows[1..], now)
  }

  predicate Leasable(t: Tables, id: JobId, now: int)
  {
    && id in t.jobs && t.jobs[id].status == Queued
    && t.jobs[id].attempt < t.jobs[id].maxAttempts && t.jobs[id].queuedAt <= now
  }

  /** The row `_next_job` picked. */
  function LeaseJob(t: Tables, id: JobId, now: int, leaseSeconds: nat): Tables
    requires id in t.jobs
  {
    var job := t.jobs[id];
    t.(jobs := t.jobs[id :=
                      job.(status := Running, attempt := job.attempt + 1, leasedUntil := Some(now + leaseSeconds))])
  }

  /** The conditional UPDATE of `_heartbeat_lease`. */
  function Heartbeat(t: Tables, id: JobId, now: int, leaseSeconds: nat): Tables
  {
    if id in t.jobs && t.jobs[id].status == Running
    then t.(jobs := t.jobs[id := t.jobs[id].(leasedUntil := Some(now + leaseSeconds))])
    else t
  }

  const STUDIO_MAX_ATTEMPTS: nat := 2

  predicate Adoptable(t: Tables, run: RunId, newId: JobId)
  {
    && run in t.runs && Active(t.runs[run]) && newId !in t.jobs
    && forall id <- t.jobs :: t.jobs[id].run != run
  }

  /** One row of `_adopt_stale_legacy_runs`; without a builder account the run fails instead. */
  function AdoptOne(t: Tables, run: RunId, newId: JobId, builderKnown: bool, now: int): Tables
  {
    if !builderKnown then t.(runs := t.runs[run := RunFailed])
    else Tables(t.jobs[newId := Job(Queued, 0, STUDIO_MAX_ATTEMPTS, None, now, run)], t.runs[run := RunQueued])
  }

  /** A row of that query: a stale run, the id its job gets, and whether its builder account is known. */
  datatype StaleRun = StaleRun(run: RunId, newId: JobId, builderKnown: bool)

  function AdoptAll(t: Tables, rows: seq<StaleRun>, now: int): Tables
    decreases |rows|
  {
    if rows == [] then t
    else AdoptAll(AdoptOne(t, rows[0].run, rows[0].newId, rows[0].builderKnown, now), rows[1..], now)
  }

  // What the two sweeps do to each row, whatever the order of the rows.

  /** No attempt is left, where a job without a maximum has one. */
  predicate UsedUp(job: Job)
  {
    job.attempt >= 1 && job.attempt >= job.maxAttempts
  }

  /** A job whose run is live is complete, one without attempts failed, any other queued again; no other job changes. */
  ghost predicate JobsReleased(before: Tables, after: map<JobId, Job>, rows: seq<JobId>, now: int)
  {
    && after.Keys == before.jobs.Keys
    && forall id <- before.jobs ::
         var job := before.jobs[id];
         after[id] == if id !in rows then job
                      else if job.run in before.runs && before.runs[job.run] == Live then job.(status := Complete)
                      else if UsedUp(job) then job.(status := Failed)
                      else job.(status := Queued, queuedAt := now, leasedUntil := None)
  }

  /** Some released job belongs to the run. */
  predicate Touched(jobs: map<JobId, Job>, rows: seq<JobId>, run: RunId)
  {
    exists id <- rows :: id in jobs && jobs[id].run == run
  }

  /** Some released job of the run has no attempt left. */
  predicate GivenUp(jobs: map<JobId, Job>, rows: seq<JobId>, run: RunId)
  {
    exists id <- rows :: id in jobs && jobs[id].run == run && UsedUp(jobs[id])
  }

  /**
   * A live run stays live; a run with a given-up job failed; an active one whose jobs are all queued again is queued.
   */
  ghost predicate RunsReleased(before: Tables, after: map<RunId, RunStatus>, rows: seq<JobId>)
  {
    && after.Keys == before.runs.Keys
    && forall run <- before.runs ::
         after[run] == if before.runs[run] == Live then Live
                       else if GivenUp(before.jobs, rows, run) then RunFailed
                       else if Touched(before.jobs, rows, run) && Active(before.runs[run]) then RunQueued
                       else before.runs[run]
  }

  /** Expired rows, each once. */
  ghost predicate ExpiredRows(t: Tables, rows: seq<JobId>, now: int)
  {
    && (forall id <- rows :: Expired(t, id, now))
    && (forall i, j :: 0 <= i < j < |rows| ==> rows[i] != rows[j])
  }

  lemma ReleaseOneOutcome(t: Tables, id: JobId, now: int)
    requires Expired(t, id, now)
    ensures JobsReleased(t, ReleaseOne(t, id, now).jobs, [id], now)
    ensures RunsReleased(t, ReleaseOne(t, id, now).runs, [id])
  {
    assert [id][0] == id;
  }

  lemma NothingReleased(t: Tables, now: int)
    ensures JobsReleased(t, t.jobs, [], now) && RunsReleased(t, t.runs, [])
  {}

  /** Releasing a row and then the rest gives the outcome of all of them. */
  lemma JobsReleasedCons(t: Tables, next: Tables, after: map<JobId, Job>, rows: seq<JobId>, now: int)
    requires rows != [] && rows[0] !in rows[1..]
    requires JobsReleased(t, next.jobs, [rows[0]], now) && RunsReleased(t, next.runs, [rows[0]])
    requires JobsReleased(next, after, rows[1..], now)
    ensures JobsReleased(t, after, rows, now)
  {
    hide GivenUp, Touched;
    assert rows == [rows[0]] + rows[1..];
    forall id <- t.jobs ensures id in next.jobs && (t.jobs[id].run in t.runs <==> t.jobs[id].run in next.runs) {}
    assert forall run <- t.runs :: next.runs[run] == Live <==> t.runs[run] == Live;
  }

  lemma TouchedCons(t: Tables, next: Tables, rows: seq<JobId>, run: RunId, now: int)
    requires rows != [] && rows[0] !in rows[1..] && forall id <- rows :: id in t.jobs
    requires JobsReleased(t, next.jobs, [rows[0]], now)
    ensures Touched(t.jobs, rows, run) <==> Touched(t.jobs, [rows[0]], run) || Touched(next.jobs, rows[1..], run)
    ensures GivenUp(t.jobs, rows, run) <==> GivenUp(t.jobs, [rows[0]], run) || GivenUp(next.jobs, rows[1..], run)
  {
    assert rows == [rows[0]] + rows[1..] && [rows[0]][0] == rows[0];
    assert forall id <- rows[1..] :: id in rows && id !in [rows[0]] && next.jobs[id] == t.jobs[id];
    assert forall id :: id in rows <==> id in [rows[0]] || id in rows[1..];
  }

  lemma RunsReleasedCons(t: Tables, next: Tables, after: map<RunId, RunStatus>, rows: seq<JobId>, now: int)
    requires rows != [] && rows[0] !in rows[1..] && forall id <- rows :: id in t.jobs
    requires JobsReleased(t, next.jobs, [rows[0]], now) && RunsReleased(t, next.runs, [rows[0]])
    requires RunsReleased(next, after, rows[1..])
    ensures RunsReleased(t, after, rows)
  {
    forall run <- t.runs ensures true { TouchedCons(t, next, rows, run, now); }
    hide GivenUp, Touched, JobsReleased;
  }

  /** The outcome of a whole release, by rows and not by steps. */
  lemma {:induction false} ReleaseAllOutcome(t: Tables, rows: seq<JobId>, now: int)
    requires ExpiredRows(t, rows, now)
    ensures JobsReleased(t, ReleaseAll(t, rows, now).jobs, rows, now)
    ensures RunsReleased(t, ReleaseAll(t, rows, now).runs, rows)
    decreases |rows|
  {
    NothingReleased(t, now);
    if rows != [] {
      assert rows[0] in rows;
      var next := ReleaseOne(t, rows[0], now);
      ReleaseOneOutcome(t, rows[0], now);
      RestExpired(t, next, rows, now);
      hide ReleaseOne, JobsReleased, RunsReleased, ExpiredRows;
      ReleaseAllOutcome(next, rows[1..], now);
      JobsReleasedCons(t, next, ReleaseAll(next, rows[1..], now).jobs, rows, now);
      RunsReleasedCons(t, next, ReleaseAll(next, rows[1..], now).runs, rows, now);
    }
  }

  lemma RestExpired(t: Tables, next: Tables, rows: seq<JobId>, now: int)
    requires rows != [] && ExpiredRows(t, rows, now) && JobsReleased(t, next.jobs, [rows[0]], now)
    ensures rows[0] !in rows[1..] && ExpiredRows(next, rows[1..], now)
  {
    assert forall i :: 0 <= i < |rows[1..]| ==> rows[1..][i] == rows[i + 1] != rows[0];
    assert forall id <- rows[1..] :: id in rows && id !in [rows[0]];
  }

  /** Rows of the adoption query, each run and each new id once. */
  ghost predicate AdoptableRows(t: Tables, rows: seq<StaleRun>)
  {
    && (forall row <- rows :: Adoptable(t, row.run, row.newId))
    && (forall i, j :: 0 <= i < j < |rows| ==> rows[i].run != rows[j].run && rows[i].newId != rows[j].newId)
  }

  /**
   * A run with a builder gets a fresh queued job and is queued, a run without one failed; every other job and run is as
   * it was.
   */
  ghost predicate Adopted(before: Tables, after: Tables, rows: seq<StaleRun>, now: int)
  {
    RunsAdopted(before, after, rows) && JobsAdopted(before, after, rows, now)
  }

  ghost predicate RunsAdopted(before: Tables, after: Tables, rows: seq<StaleRun>)
  {
    && after.runs.Keys == before.runs.Keys
    && (forall row <- rows :: row.run in after.runs
                              && after.runs[row.run] == if row.builderKnown then RunQueued else RunFailed)
    && (forall run <- before.runs :: (forall row <- rows :: row.run != run) ==> after.runs[run] == before.runs[run])
  }

  ghost predicate JobsAdopted(before: Tables, after: Tables, rows: seq<StaleRun>, now: int)
  {
    && (forall id <- after.jobs :: id in before.jobs || exists row <- rows :: row.builderKnown && row.newId == id)
    && (forall id <- before.jobs :: id in after.jobs && after.jobs[id] == before.jobs[id])
    && (forall row <- rows :: row.builderKnown ==>
          row.newId in after.jobs && after.jobs[row.newId] == Job(Queued, 0, 2, None, now, row.run))
  }

  lemma {:induction false} AdoptAllOutcome(t: Tables, rows: seq<StaleRun>, now: int)
    requires AdoptableRows(t, rows)
    ensures Adopted(t, AdoptAll(t, rows, now), rows, now)
    decreases |rows|
  {
    if rows != [] {
      var next := AdoptOne(t, rows[0].run, rows[0].newId, rows[0].builderKnown, now);
      RestAdoptable(t, next, rows, now);
      AdoptAllOutcome(next, rows[1..], now);
      RunsAdoptedCons(t, next, AdoptAll(next, rows[1..], now), rows, now);
      JobsAdoptedCons(t, next, AdoptAll(next, rows[1..], now), rows, now);
      hide RunsAdopted, JobsAdopted, AdoptOne, AdoptableRows;
    }
  }

  lemma RestAdoptable(t: Tables, next: Tables, rows: seq<StaleRun>, now: int)
    requires rows != [] && AdoptableRows(t, rows)
    requires next == AdoptOne(t, rows[0].run, rows[0].newId, rows[0].builderKnown, now)
    ensures AdoptableRows(next, rows[1..])
  {
    assert forall i :: 0 <= i < |rows[1..]| ==> rows[1..][i] == rows[i + 1];
    forall row <- rows[1..] ensures Adoptable(next, row.run, row.newId) {
      var i :| 0 <= i < |rows[1..]| && rows[1..][i] == row;
      assert rows[0].run != rows[i + 1].run && rows[0].newId != rows[i + 1].newId;
      assert row in rows && Adoptable(t, row.run, row.newId);
    }
  }

  lemma RestDiffers(t: Tables, rows: seq<StaleRun>)
    requires rows != [] && AdoptableRows(t, rows)
    ensures Adoptable(t, rows[0].run, rows[0].newId)
    ensures forall row :: row in rows <==> row == rows[0] || row in rows[1..]
    ensures forall row <- rows[1..] :: row.run != rows[0].run && row.newId != rows[0].newId
  {
    assert rows == [rows[0]] + rows[1..];
    forall row <- rows[1..] ensures row.run != rows[0].run && row.newId != rows[0].newId {
      var i :| 0 <= i < |rows[1..]| && rows[1..][i] == row;
      assert rows[i + 1] == row;
    }
    assert rows[0] in rows;
  }

  lemma RunsAdoptedCons(t: Tables, next: Tables, after: Tables, rows: seq<StaleRun>, now: int)
    requires rows != [] && AdoptableRows(t, rows)
    requires next == AdoptOne(t, rows[0].run, rows[0].newId, rows[0].builderKnown, now)
    requires RunsAdopted(next, after, rows[1..])
    ensures RunsAdopted(t, after, rows)
  {
    RestDiffers(t, rows);
  }

  lemma JobsAdoptedCons(t: Tables, next: Tables, after: Tables, rows: seq<StaleRun>, now: int)
    requires rows != [] && AdoptableRows(t, rows)
    requires next == AdoptOne(t, rows[0].run, rows[0].newId, rows[0].builderKnown, now)
    requires JobsAdopted(next, after, rows[1..], now)
    ensures JobsAdopted(t, after, rows, now)
  {
    RestDiffers(t, rows);
  }

  /** Nobody can lease the job any more, and no lease of it is ever seen as expired. */
  ghost predicate OutOfPlay(t: Tables, id: JobId)
  {
    forall t0: int :: !Leasable(t, id, t0) && !Expired(t, id, t0)
  }

  /** Every job but one is as it was. */
  predicate OthersKept(before: map<JobId, Job>, after: map<JobId, Job>, id: JobId)
  {
    after.Keys == before.Keys && forall x <- before :: x != id ==> after[x] == before[x]
  }

  /** The tables as the worker's session sees them. */
  class Session {
    var jobs: map<JobId, Job>
    var runs: map<RunId, RunStatus>

    function View(): Tables
      reads this
    {
      Tables(jobs, runs)
    }

    /**
     * `_fail_job_and_run`. The job is out of play and keeps its attempts; its run, if there is one, is live as before
     * or over, and no other row changes. Failing it again changes nothing.
     */
    method FailRow(id: JobId)
      requires id in jobs
      modifies this
      ensures View() == FailJobAndRun(old(View()), id) == FailJobAndRun(View(), id)
      ensures OutOfPlay(View(), id) && OthersKept(old(jobs), jobs, id)
      ensures jobs[id].status == (if old(jobs)[id].status == Canceled then Canceled else Failed)
      ensures jobs[id].attempt == old(jobs)[id].attempt && jobs[id].run == old(jobs)[id].run
      ensures runs.Keys == old(runs).Keys
      ensures forall r <- runs :: runs[r] == if r == jobs[id].run && old(runs)[r] != Live then RunFailed
              else old(runs)[r]
    {
      var run := jobs[id].run;
      if run in runs && runs[run] != Live {
        runs := runs[run := RunFailed];
      }
      if jobs[id].status != Canceled {
        jobs := jobs[id := jobs[id].(status := Failed)];
      }
    }

    /** `_complete_live_job`. The job is out of play and keeps its attempts; no other job and no run changes. */
    method CompleteRow(id: JobId)
      requires id in jobs
      modifies this
      ensures View() == CompleteJob(old(View()), id) == CompleteJob(View(), id)
      ensures OutOfPlay(View(), id) && OthersKept(old(jobs), jobs, id) && runs == old(runs)
      ensures jobs[id].status == (if old(jobs)[id].status == Canceled then Canceled else Complete)
      ensures jobs[id].attempt == old(jobs)[id].attempt && jobs[id].run == old(jobs)[id].run
    {
      if jobs[id].status != Canceled {
        jobs := jobs[id := jobs[id].(status := Complete)];
      }
    }

    /**
     * `_release_expired_leases` over the rows its query locked, in the query's order. The jobs of live runs are
     * complete, those with attempts left are queued again, the others failed with their run.
     */
    method ReleaseExpiredLeases(rows: seq<JobId>, now: int)
      requires forall id <- rows :: id in jobs
      modifies this
      ensures View() == ReleaseAll(old(View()), rows, now)
      ensures ExpiredRows(old(View()), rows, now) ==> JobsReleased(old(View()), jobs, rows, now)
      ensures ExpiredRows(old(View()), rows, now) ==> RunsReleased(old(View()), runs, rows)
    {
      if ExpiredRows(View(), rows, now) { ReleaseAllOutcome(View(), rows, now); }
      hide JobsReleased, RunsReleased, ExpiredRows;
      assert rows[0..] == rows;
      for i := 0 to |rows|
        invariant forall id <- rows :: id in jobs
        invariant ReleaseAll(View(), rows[i..], now) == ReleaseAll(old(View()), rows, now)
      {
        var id := rows[i];
        var job := jobs[id];
        assert rows[i..][1..] == rows[i + 1..];
        if job.run in runs && runs[job.run] == Live {
          CompleteRow(id);
          continue;
        }
        if job.attempt < AtLeastOne(job.maxAttempts) {
          jobs := jobs[id := job.(status := Queued, queuedAt := now, leasedUntil := None)];
          if job.run in runs && Active(runs[job.run]) {
            runs := runs[job.run := RunQueued];
          }
        } else {
          FailRow(id);
        }
      }
    }

    /**
     * The rest of `_next_job`, for the row its query locked. One attempt within the maximum is used up. From then on
     * nobody else can lease the job, at any time, and its lease is seen as expired from `now + leaseSeconds` on and not
     * before. No other job and no run changes.
     */
    method LeaseNextJob(id: JobId, now: int, leaseSeconds: nat)
      requires Leasable(View(), id, now)
      modifies this
      ensures View() == LeaseJob(old(View()), id, now, leaseSeconds)
      ensures jobs.Keys == old(jobs).Keys && jobs[id].attempt == old(jobs)[id].attempt + 1 <= jobs[id].maxAttempts
      ensures jobs[id].maxAttempts == old(jobs)[id].maxAttempts && jobs[id].run == old(jobs)[id].run
      ensures forall t0: int :: !Leasable(View(), id, t0) && (Expired(View(), id, t0) <==> now + leaseSeconds <= t0)
      ensures OthersKept(old(jobs), jobs, id) && runs == old(runs)
    {
      var job := jobs[id];
      job := job.(status := Running);
      job := job.(attempt := job.attempt + 1);
      job := job.(leasedUntil := Some(now + leaseSeconds));
      jobs := jobs[id := job];
    }

    /** `_adopt_stale_legacy_runs` over the rows its query locked. */
    method AdoptStaleLegacyRuns(rows: seq<StaleRun>, now: int)
      modifies this
      ensures View() == AdoptAll(old(View()), rows, now)
      ensures AdoptableRows(old(View()), rows) ==> Adopted(old(View()), View(), rows, now)
    {
      if AdoptableRows(View(), rows) { AdoptAllOutcome(View(), rows, now); }
      hide Adopted, AdoptableRows;
      assert rows[0..] == rows;
      for i := 0 to |rows|
        invariant AdoptAll(View(), rows[i..], now) == AdoptAll(old(View()), rows, now)
      {
        var row := rows[i];
        assert rows[i..][1..] == rows[i + 1..];
        if !row.builderKnown {
          runs := runs[row.run := RunFailed];
          continue;
        }
        jobs := jobs[row.newId := Job(Queued, 0, STUDIO_MAX_ATTEMPTS, None, now, row.run)];
        runs := runs[row.run := RunQueued];
      }
    }

    /**
     * One write of `_heartbeat_lease`. A job still running is seen as expired from `now + leaseSeconds` on and not
     * before, whoever holds it; a job that is not running is as it was. Nobody can lease a job because of it.
     */
    method HeartbeatLease(id: JobId, now: int, leaseSeconds: nat)
      modifies this
      ensures View() == Heartbeat(old(View()), id, now, leaseSeconds)
      ensures OthersKept(old(jobs), jobs, id) && runs == old(runs)
      ensures id in jobs ==> jobs[id].status == old(jobs)[id].status && jobs[id].attempt == old(jobs)[id].attempt
      ensures id in jobs && jobs[id].status != Running ==> jobs[id] == old(jobs)[id]
      ensures id in jobs && jobs[id].status == Running ==>
                forall t0: int :: Expired(View(), id, t0) <==> now + leaseSeconds <= t0
      ensures forall t0: int :: Leasable(View(), id, t0) <==> Leasable(old(View()), id, t0)
    {
      if id in jobs && jobs[id].status == Running {
        jobs := jobs[id := jobs[id].(leasedUntil := Some(now + leaseSeconds))];
      }
    }
  }
}
