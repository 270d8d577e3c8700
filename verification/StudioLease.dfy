/**
 * The Studio lease protocol (agent_studio_worker.py) as a transition system: any number of workers, each between the
 * transactions of `run_once`, over the shared tables. A run of the system is any sequence of steps.
 */
module StudioLease {
  import opened Common
  import opened StudioLedger

  type WorkerId = nat

  /** Where a worker stands with the job it leased as attempt number `attempt`. */
  datatype Phase =
    | Idle
    | Leased(job: JobId, attempt: nat)
    | Executing(job: JobId, attempt: nat)
    | Completing(job: JobId, attempt: nat)
    | Failing(job: JobId, attempt: nat)

  /** `starts` counts, per job, how often the runner was started. */
  datatype System = System(tables: Tables, now: int, workers: map<WorkerId, Phase>, starts: map<JobId, nat>)

  datatype Step =
    | Tick(seconds: nat)
    | Submit(run: RunId, newJob: JobId, maxAttempts: nat)
    | Cancel(canceled: JobId)
    | Adopt(run: RunId, newJob: JobId, builderKnown: bool)
    | Release(rows: seq<JobId>)
    | Lease(worker: WorkerId, leased: JobId, leaseSeconds: nat)
    | Check(worker: WorkerId, payloadOk: bool)
    | RunnerWrites(worker: WorkerId, status: RunStatus)
    | RunnerEnds(worker: WorkerId, raised: bool)
    | Finish(worker: WorkerId)
    | Beat(worker: WorkerId, leaseSeconds: nat)
    | Crash(worker: WorkerId)

  function PhaseOf(s: System, w: WorkerId): Phase
  {
    if w in s.workers then s.workers[w] else Idle
  }

  function SetPhase(s: System, w: WorkerId, p: Phase): System
  {
    s.(workers := s.workers[w := p])
  }

  function Starts(s: System, id: JobId): nat
  {
    if id in s.starts then s.starts[id] else 0
  }

  predicate NewJob(s: System, id: JobId)
  {
    id !in s.tables.jobs && id !in s.starts && forall w <- s.workers :: s.workers[w] == Idle || s.workers[w].job != id
  }

  /** Whether a step can happen; a step that cannot leaves the system as it is. */
  predicate Enabled(s: System, step: Step)
  {
    match step
    case Submit(run, newJob, maxAttempts) =>
      run !in s.tables.runs && NewJob(s, newJob) && maxAttempts >= 1
      && forall id <- s.tables.jobs :: s.tables.jobs[id].run != run
    case Cancel(id) => id in s.tables.jobs && !Terminal(s.tables.jobs[id].status)
    case Adopt(run, newJob, _) => Adoptable(s.tables, run, newJob) && NewJob(s, newJob)
    case Release(rows) =>
      && (forall id <- rows :: Expired(s.tables, id, s.now))
      && forall i, j :: 0 <= i < j < |rows| ==> rows[i] != rows[j]
    case Lease(w, id, _) => PhaseOf(s, w).Idle? && Leasable(s.tables, id, s.now)
    case Check(w, _) => PhaseOf(s, w).Leased? && PhaseOf(s, w).job in s.tables.jobs
    case RunnerWrites(w, _) =>
      PhaseOf(s, w).Executing? && PhaseOf(s, w).job in s.tables.jobs
      && s.tables.jobs[PhaseOf(s, w).job].run in s.tables.runs
    case RunnerEnds(w, _) => PhaseOf(s, w).Executing? && PhaseOf(s, w).job in s.tables.jobs
    case Finish(w) => (PhaseOf(s, w).Completing? || PhaseOf(s, w).Failing?) && PhaseOf(s, w).job in s.tables.jobs
    case Beat(w, _) => PhaseOf(s, w).Executing? && PhaseOf(s, w).job in s.tables.jobs
    case _ => true
  }

  function Take(s: System, step: Step): System
    requires Enabled(s, step)
  {
    var t := s.tables;
    match step
    case Tick(seconds) => s.(now := s.now + seconds)
    case Submit(run, newJob, maxAttempts) =>
      s.(tables := Tables(t.jobs[newJob := Job(Queued, 0, maxAttempts, None, s.now, run)], t.runs[run := RunQueued]))
    case Cancel(id) => s.(tables := t.(jobs := t.jobs[id := t.jobs[id].(status := Canceled)]))
    case Adopt(run, newJob, builderKnown) => s.(tables := AdoptOne(t, run, newJob, builderKnown, s.now))
    case Release(rows) => s.(tables := ReleaseAll(t, rows, s.now))
    case Lease(w, id, leaseSeconds) =>
      SetPhase(s, w, Leased(id, t.jobs[id].attempt + 1)).(tables := LeaseJob(t, id, s.now, leaseSeconds))
    case Check(w, payloadOk) =>
      var p := PhaseOf(s, w);
      var run := t.jobs[p.job].run;
      if IsLive(t, run) then SetPhase(s, w, Completing(p.job, p.attempt))
      else if (run in t.runs && t.runs[run] == RunFailed) || !payloadOk then SetPhase(s, w, Failing(p.job, p.attempt))
      else SetPhase(s, w, Executing(p.job, p.attempt)).(starts := s.starts[p.job := Starts(s, p.job) + 1])
    case RunnerWrites(w, status) => s.(tables := t.(runs := t.runs[t.jobs[PhaseOf(s, w).job].run := status]))
    case RunnerEnds(w, raised) =>
      var p := PhaseOf(s, w);
      SetPhase(s, w, if !raised && IsLive(t, t.jobs[p.job].run) then Completing(p.job, p.attempt)
                     else Failing(p.job, p.attempt))
    case Finish(w) =>
      var p := PhaseOf(s, w);
      SetPhase(s, w, Idle).(tables := if p.Completing? then CompleteJob(t, p.job) else FailJobAndRun(t, p.job))
    case Beat(w, leaseSeconds) => s.(tables := Heartbeat(t, PhaseOf(s, w).job, s.now, leaseSeconds))
    case Crash(w) => SetPhase(s, w, Idle)
  }

  function Do(s: System, step: Step): System
  {
    if Enabled(s, step) then Take(s, step) else s
  }

  function Run(s: System, steps: seq<Step>): System
    decreases |steps|
  {
    if steps == [] then s else Run(Do(s, steps[0]), steps[1..])
  }

  const INITIAL := System(Tables(map[], map[]), 0, map[], map[])

  // ---------------------------------------------------------------- how often the runner is started

  /** Workers that hold a lease of the job and have not yet looked at its run. */
  function Holders(s: System, id: JobId): set<WorkerId>
  {
    set w | w in s.workers && s.workers[w].Leased? && s.workers[w].job == id
  }

  predicate JobBounded(job: Job)
  {
    && job.attempt <= job.maxAttempts
    && (job.status == Queued ==> job.attempt < job.maxAttempts)
    && (job.status == Running ==> job.attempt >= 1)
  }

  ghost predicate JobsBounded(t: Tables)
  {
    forall id <- t.jobs :: JobBounded(t.jobs[id])
  }

  /** Every attempt of a job is a lease, and every lease leads to at most one start. */
  ghost predicate StartsBounded(s: System)
  {
    && (forall id <- s.tables.jobs :: Starts(s, id) + |Holders(s, id)| <= s.tables.jobs[id].attempt)
    && (forall id <- s.starts :: id in s.tables.jobs)
    && (forall w <- s.workers :: s.workers[w].Idle? || s.workers[w].job in s.tables.jobs)
  }

  ghost predicate Bounded(s: System)
  {
    JobsBounded(s.tables) && StartsBounded(s)
  }

  /** Releasing a row leaves attempts alone; a requeued job can be leased again. */
  lemma ReleaseOneKeepsAttempts(t: Tables, id: JobId, now: int)
    requires id in t.jobs
    ensures var after := ReleaseOne(t, id, now);
            && after.jobs.Keys == t.jobs.Keys && after.runs.Keys == t.runs.Keys
            && (forall x <- t.jobs :: x != id ==> after.jobs[x] == t.jobs[x])
            && after.jobs[id].attempt == t.jobs[id].attempt && after.jobs[id].maxAttempts == t.jobs[id].maxAttempts
            && after.jobs[id].run == t.jobs[id].run
            && (after.jobs[id].status == Queued ==>
                  t.jobs[id].status == Queued || t.jobs[id].attempt < AtLeastOne(t.jobs[id].maxAttempts))
  {}

  lemma {:induction false} ReleaseAllKeepsAttempts(t: Tables, rows: seq<JobId>, now: int)
    requires forall id <- rows :: id in t.jobs
    ensures var after := ReleaseAll(t, rows, now);
            && after.jobs.Keys == t.jobs.Keys && after.runs.Keys == t.runs.Keys
            && (forall x <- t.jobs :: x !in rows ==> after.jobs[x] == t.jobs[x])
            && (forall x <- t.jobs :: after.jobs[x].attempt == t.jobs[x].attempt
                                      && after.jobs[x].maxAttempts == t.jobs[x].maxAttempts
                                      && after.jobs[x].run == t.jobs[x].run
                                      && (after.jobs[x].status == Queued ==>
                                            t.jobs[x].status == Queued
                                            || t.jobs[x].attempt < AtLeastOne(t.jobs[x].maxAttempts)))
    decreases |rows|
  {
    if rows != [] {
      ReleaseOneKeepsAttempts(t, rows[0], now);
      ReleaseAllKeepsAttempts(ReleaseOne(t, rows[0], now), rows[1..], now);
    }
  }

  lemma HoldersAfterPhase(s: System, w: WorkerId, p: Phase, id: JobId)
    ensures var after := Holders(SetPhase(s, w, p), id);
            after == if p.Leased? && p.job == id then Holders(s, id) + {w} else Holders(s, id) - {w}
  {}

  lemma SubsetSize(a: set<WorkerId>, b: set<WorkerId>)
    requires a <= b
    ensures |a| <= |b|
  {
    assert b == a + (b - a);
  }

  lemma StepKeepsJobsBounded(s: System, step: Step)
    requires JobsBounded(s.tables)
    ensures JobsBounded(Do(s, step).tables)
  {
    if Enabled(s, step) && step.Release? {
      ReleaseAllKeepsAttempts(s.tables, step.rows, s.now);
    }
  }

  /** No job disappears and no attempt is taken back. */
  lemma StepKeepsAttempts(s: System, step: Step)
    ensures forall id <- s.tables.jobs :: id in Do(s, step).tables.jobs
    ensures forall id <- s.tables.jobs :: s.tables.jobs[id].attempt <= Do(s, step).tables.jobs[id].attempt
  {
    if Enabled(s, step) && step.Release? {
      ReleaseAllKeepsAttempts(s.tables, step.rows, s.now);
    }
  }

  /** Steps that move no worker into or out of a fresh lease. */
  lemma SameHoldersKeepBound(s: System, after: System)
    requires StartsBounded(s) && after.starts == s.starts
    requires forall id <- s.tables.jobs ::
             id in after.tables.jobs && s.tables.jobs[id].attempt <= after.tables.jobs[id].attempt
    requires forall w <- after.workers :: (w in s.workers && after.workers[w] == s.workers[w])
                                          || (!after.workers[w].Leased?
                                              && (after.workers[w].Idle? || after.workers[w].job in s.tables.jobs))
    ensures StartsBounded(after)
  {
    forall id <- after.tables.jobs
      ensures Starts(after, id) + |Holders(after, id)| <= after.tables.jobs[id].attempt
    {
      SubsetSize(Holders(after, id), Holders(s, id));
      if id !in s.tables.jobs {
        assert Holders(s, id) == {};
      }
    }
  }

  /** What a lease does: one worker turns from idle to holding the job, whose attempts grow by one. */
  lemma LeaseEffect(s: System, step: Step)
    requires step.Lease? && Enabled(s, step)
    ensures var after := Take(s, step);
            && PhaseOf(s, step.worker).Idle? && step.leased in s.tables.jobs && after.starts == s.starts
            && after.workers == s.workers[step.worker := Leased(step.leased, s.tables.jobs[step.leased].attempt + 1)]
            && after.tables.jobs.Keys == s.tables.jobs.Keys
            && (forall x <- s.tables.jobs ::
                  after.tables.jobs[x].attempt == s.tables.jobs[x].attempt + if x == step.leased then 1 else 0)
  {
    hide ReleaseAll, AdoptOne, CompleteJob, FailJobAndRun, Heartbeat;
  }

  lemma HoldersSame(s: System, after: System, id: JobId)
    requires s.workers == after.workers
    ensures Holders(s, id) == Holders(after, id)
  {}

  lemma NotHolding(s: System, w: WorkerId, id: JobId)
    requires PhaseOf(s, w).Idle?
    ensures w !in Holders(s, id)
  {}

  lemma OneMore(a: set<WorkerId>, w: WorkerId)
    requires w !in a
    ensures a - {w} == a && |a + {w}| == |a| + 1
  {}

  lemma OneMoreHolder(s: System, after: System, w: WorkerId, job: JobId, attempt: nat, id: JobId)
    requires PhaseOf(s, w).Idle? && after.workers == s.workers[w := Leased(job, attempt)]
    ensures |Holders(after, id)| == |Holders(s, id)| + if id == job then 1 else 0
  {
    hide Holders, PhaseOf;
    NotHolding(s, w, id);
    OneMore(Holders(s, id), w);
    HoldersAfterPhase(s, w, Leased(job, attempt), id);
    HoldersSame(SetPhase(s, w, Leased(job, attempt)), after, id);
  }

  lemma LeaseKeepsBound(s: System, step: Step)
    requires StartsBounded(s) && step.Lease? && Enabled(s, step)
    ensures StartsBounded(Take(s, step))
  {
    LeaseEffect(s, step);
    hide Take, Enabled, Holders, PhaseOf;
    var after := Take(s, step);
    forall x <- after.tables.jobs
      ensures Starts(after, x) + |Holders(after, x)| <= after.tables.jobs[x].attempt
    {
      OneMoreHolder(s, after, step.worker, step.leased, s.tables.jobs[step.leased].attempt + 1, x);
    }
  }

  lemma CheckKeepsBound(s: System, step: Step)
    requires StartsBounded(s) && step.Check? && Enabled(s, step)
    ensures StartsBounded(Take(s, step))
  {
    var after, w := Take(s, step), step.worker;
    forall x <- after.tables.jobs
      ensures Starts(after, x) + |Holders(after, x)| <= after.tables.jobs[x].attempt
    {
      HoldersAfterPhase(s, w, after.workers[w], x);
      assert Holders(after, x) == Holders(SetPhase(s, w, after.workers[w]), x) == Holders(s, x) - {w};
      if x == s.workers[w].job {
        assert w in Holders(s, x);
      }
    }
  }

  lemma StepKeepsBound(s: System, step: Step)
    requires Bounded(s)
    ensures Bounded(Do(s, step))
  {
    StepKeepsJobsBounded(s, step);
    if Enabled(s, step) {
      if step.Lease? {
        LeaseKeepsBound(s, step);
      } else if step.Check? {
        CheckKeepsBound(s, step);
      } else {
        StepKeepsAttempts(s, step);
        SameHoldersKeepBound(s, Take(s, step));
      }
    }
  }

  /**
   * However workers interleave, stall, crash and lose leases: the runner is started at most `maxAttempts` times per
   * job, and every queued job still has an attempt left, so it can be leased.
   */
  lemma {:induction false} RunnerStartsAreBounded(s: System, steps: seq<Step>)
    requires Bounded(s)
    ensures Bounded(Run(s, steps))
    ensures forall id <- Run(s, steps).tables.jobs ::
              var job := Run(s, steps).tables.jobs[id];
              && Starts(Run(s, steps), id) <= job.attempt <= job.maxAttempts
              && (job.status == Queued ==> job.attempt < job.maxAttempts)
    decreases |steps|
  {
    if steps != [] {
      StepKeepsBound(s, steps[0]);
      RunnerStartsAreBounded(Do(s, steps[0]), steps[1..]);
    }
  }

  lemma InitiallyBounded()
    ensures Bounded(INITIAL)
  {}

  /**
   * A runner is started for a job exactly by a check that finds its run neither live nor failed and its payload good.
   */
  lemma StepStartsExactlyWhen(s: System, step: Step, id: JobId)
    ensures Starts(Do(s, step), id) == Starts(s, id) +
            if step.Check? && step.payloadOk && step.worker in s.workers && s.workers[step.worker].Leased?
               && s.workers[step.worker].job == id && id in s.tables.jobs
               && (s.tables.jobs[id].run in s.tables.runs ==>
                     s.tables.runs[s.tables.jobs[id].run] != Live && s.tables.runs[s.tables.jobs[id].run] != RunFailed)
            then 1 else 0
  {
    hide ReleaseAll, AdoptOne;
  }

  // One worker left alone, from its lease to its last write.

  function Alone(w: WorkerId, id: JobId, leaseSeconds: nat, ending: RunStatus, raised: bool): seq<Step>
  {
    [Lease(w, id, leaseSeconds), Check(w, true), RunnerWrites(w, ending), RunnerEnds(w, raised), Finish(w)]
  }

  lemma LeasedAlone(s: System, w: WorkerId, id: JobId, leaseSeconds: nat)
    requires PhaseOf(s, w).Idle? && Leasable(s.tables, id, s.now)
    ensures var after := Do(s, Lease(w, id, leaseSeconds));
            && PhaseOf(after, w) == Leased(id, s.tables.jobs[id].attempt + 1) && after.tables.runs == s.tables.runs
            && id in after.tables.jobs
            && after.tables.jobs[id] == s.tables.jobs[id].(status := Running, attempt := s.tables.jobs[id].attempt + 1,
                                                           leasedUntil := Some(s.now + leaseSeconds))
  {
    hide ReleaseAll, AdoptOne;
  }

  lemma CheckedAlone(s: System, w: WorkerId, id: JobId, attempt: nat)
    requires PhaseOf(s, w) == Leased(id, attempt) && id in s.tables.jobs
    requires s.tables.jobs[id].run in s.tables.runs && Active(s.tables.runs[s.tables.jobs[id].run])
    ensures var after := Do(s, Check(w, true));
            PhaseOf(after, w) == Executing(id, attempt) && after.tables == s.tables
  {
    hide ReleaseAll, AdoptOne;
  }

  lemma BuiltAlone(s: System, w: WorkerId, id: JobId, attempt: nat, ending: RunStatus, raised: bool)
    requires PhaseOf(s, w) == Executing(id, attempt) && id in s.tables.jobs && s.tables.jobs[id].run in s.tables.runs
    ensures var after := Do(Do(s, RunnerWrites(w, ending)), RunnerEnds(w, raised));
            && PhaseOf(after, w)
                 == (if !raised && ending == Live then Completing(id, attempt) else Failing(id, attempt))
            && after.tables.jobs == s.tables.jobs && after.tables.runs == s.tables.runs[s.tables.jobs[id].run := ending]
  {
    hide ReleaseAll, AdoptOne;
  }

  lemma FinishedAlone(s: System, w: WorkerId, id: JobId, attempt: nat)
    requires PhaseOf(s, w) in {Completing(id, attempt), Failing(id, attempt)}
    requires id in s.tables.jobs && s.tables.jobs[id].status == Running && s.tables.jobs[id].run in s.tables.runs
    ensures var after, run := Do(s, Finish(w)).tables, s.tables.jobs[id].run;
            && id in after.jobs && run in after.runs
            && after.jobs[id] == s.tables.jobs[id].(status := if PhaseOf(s, w).Completing? then Complete else Failed)
            && after.runs[run] == if PhaseOf(s, w).Failing? && s.tables.runs[run] != Live then RunFailed
                                  else s.tables.runs[run]
  {
    hide ReleaseAll, AdoptOne;
  }

  /**
   * Undisturbed, a leased job ends with its build: complete when the build returned with its run live, otherwise
   * failed, and then so is its run, unless it had turned live before the build raised. One attempt is counted in any
   * case.
   */
  lemma AloneItEnds(s: System, w: WorkerId, id: JobId, leaseSeconds: nat, ending: RunStatus, raised: bool)
    requires PhaseOf(s, w).Idle? && Leasable(s.tables, id, s.now)
    requires s.tables.jobs[id].run in s.tables.runs && Active(s.tables.runs[s.tables.jobs[id].run])
    ensures var before, after := s.tables.jobs[id], Run(s, Alone(w, id, leaseSeconds, ending, raised)).tables;
            && id in after.jobs && before.run in after.runs && after.jobs[id].attempt == before.attempt + 1
            && after.jobs[id].status == (if !raised && ending == Live then Complete else Failed)
            && after.runs[before.run] == (if ending == Live then Live else RunFailed)
  {
    hide *;
    LeasableIsThere(s.tables, id, s.now);
    var attempt := s.tables.jobs[id].attempt + 1;
    LeasedAlone(s, w, id, leaseSeconds);
    var s1 := Do(s, Lease(w, id, leaseSeconds));
    CheckedAlone(s1, w, id, attempt);
    var s2 := Do(s1, Check(w, true));
    BuiltAlone(s2, w, id, attempt, ending, raised);
    var s3 := Do(s2, RunnerWrites(w, ending));
    var s4 := Do(s3, RunnerEnds(w, raised));
    FinishedAlone(s4, w, id, attempt);
    AloneRun(s, w, id, leaseSeconds, ending, raised);
  }

  lemma LeasableIsThere(t: Tables, id: JobId, now: int)
    ensures Leasable(t, id, now) ==> id in t.jobs
  {}

  lemma AloneRun(s: System, w: WorkerId, id: JobId, leaseSeconds: nat, ending: RunStatus, raised: bool)
    ensures Run(s, Alone(w, id, leaseSeconds, ending, raised))
         == Do(Do(Do(Do(Do(s, Lease(w, id, leaseSeconds)), Check(w, true)), RunnerWrites(w, ending)),
                  RunnerEnds(w, raised)),
               Finish(w))
  {
    hide Do;
    var a, b, c, d, e :=
        Lease(w, id, leaseSeconds), Check(w, true), RunnerWrites(w, ending), RunnerEnds(w, raised), Finish(w);
    assert Alone(w, id, leaseSeconds, ending, raised) == [a] + ([b] + ([c] + ([d] + ([e] + []))));
    RunStep(s, a, [b] + ([c] + ([d] + ([e] + []))));
    RunStep(Do(s, a), b, [c] + ([d] + ([e] + [])));
    RunStep(Do(Do(s, a), b), c, [d] + ([e] + []));
    RunStep(Do(Do(Do(s, a), b), c), d, [e] + []);
    RunStep(Do(Do(Do(Do(s, a), b), c), d), e, []);
  }

  // ---------------------------------------------------------------- every job comes to an end

  /** What a job can still go through: two moves per unused attempt, one more while it runs. */
  function Remaining(job: Job): int
  {
    if Terminal(job.status) then 0 else 2 * (job.maxAttempts - job.attempt) + if job.status == Running then 1 else 0
  }

  predicate Moved(before: Job, after: Job)
  {
    !Terminal(before.status) && (before.status != after.status || before.attempt != after.attempt)
  }

  lemma {:induction false} ReleaseMovesRows(t: Tables, rows: seq<JobId>, now: int, id: JobId)
    requires forall x <- rows :: x in t.jobs && t.jobs[x].status == Running && JobBounded(t.jobs[x])
    requires forall i, j :: 0 <= i < j < |rows| ==> rows[i] != rows[j]
    requires id in t.jobs
    ensures id in ReleaseAll(t, rows, now).jobs
    ensures id !in rows ==> ReleaseAll(t, rows, now).jobs[id] == t.jobs[id]
    ensures id in rows ==>
              var after := ReleaseAll(t, rows, now).jobs[id];
              && after.attempt == t.jobs[id].attempt && after.maxAttempts == t.jobs[id].maxAttempts
              && (after.status == Queued || Terminal(after.status))
    decreases |rows|
  {
    if rows != [] {
      ReleaseOneKeepsAttempts(t, rows[0], now);
      assert forall i :: 0 <= i < |rows[1..]| ==> rows[1..][i] == rows[i + 1] != rows[0];
      ReleaseMovesRows(ReleaseOne(t, rows[0], now), rows[1..], now, id);
    }
  }

  /**
   * Each lease, requeue and final step uses up some of what remains, no step adds to it, and what is final stays final.
   */
  lemma StepUsesUp(s: System, step: Step, id: JobId)
    requires Bounded(s) && id in s.tables.jobs
    ensures id in Do(s, step).tables.jobs
    ensures var before, after := s.tables.jobs[id], Do(s, step).tables.jobs[id];
            && 0 <= Remaining(after) <= Remaining(before) - (if Moved(before, after) then 1 else 0)
            && (Terminal(before.status) ==> Terminal(after.status))
  {
    StepKeepsBound(s, step);
    StepKeepsAttempts(s, step);
    assert JobsBounded(s.tables);
    BoundedJob(s, id);
    BoundedJob(Do(s, step), id);
    hide Bounded;
    if !Enabled(s, step) {
    } else if step.Release? {
      ReleaseUsesUp(s, step, id);
    } else {
      OtherStepUsesUp(s, step, id);
    }
  }

  lemma BoundedJob(s: System, id: JobId)
    requires Bounded(s) && id in s.tables.jobs
    ensures JobBounded(s.tables.jobs[id])
  {}

  lemma ReleaseUsesUp(s: System, step: Step, id: JobId)
    requires JobsBounded(s.tables) && id in s.tables.jobs && Enabled(s, step) && step.Release?
    ensures id in Take(s, step).tables.jobs
    ensures var before, after := s.tables.jobs[id], Take(s, step).tables.jobs[id];
            && 0 <= Remaining(after) <= Remaining(before) - (if Moved(before, after) then 1 else 0)
            && (Terminal(before.status) ==> Terminal(after.status))
  {
    ReleaseMovesRows(s.tables, step.rows, s.now, id);
    hide ReleaseAll;
    assert JobBounded(s.tables.jobs[id]);
  }

  lemma OtherStepUsesUp(s: System, step: Step, id: JobId)
    requires id in s.tables.jobs && Enabled(s, step) && !step.Release? && id in Take(s, step).tables.jobs
    requires JobBounded(s.tables.jobs[id]) && JobBounded(Take(s, step).tables.jobs[id])
    ensures var before, after := s.tables.jobs[id], Take(s, step).tables.jobs[id];
            && 0 <= Remaining(after) <= Remaining(before) - (if Moved(before, after) then 1 else 0)
            && (Terminal(before.status) ==> Terminal(after.status))
  {
    hide ReleaseAll;
  }

  function Moves(s: System, steps: seq<Step>, id: JobId): nat
    decreases |steps|
  {
    if steps == [] then 0
    else
      var after := Do(s, steps[0]);
      Moves(after, steps[1..], id)
      + if id in s.tables.jobs && id in after.tables.jobs && Moved(s.tables.jobs[id], after.tables.jobs[id]) then 1
           else 0
  }

  /** Over any run, the leases, requeues and final steps of a job are paid for by what remained at the start. */
  lemma {:induction false} MovesAreBounded(s: System, steps: seq<Step>, id: JobId)
    requires Bounded(s) && id in s.tables.jobs
    ensures id in Run(s, steps).tables.jobs
    ensures Moves(s, steps, id) + Remaining(Run(s, steps).tables.jobs[id]) <= Remaining(s.tables.jobs[id])
    ensures 0 <= Remaining(Run(s, steps).tables.jobs[id])
    decreases |steps|
  {
    StepUsesUp(s, Tick(0), id);
    if steps != [] {
      StepUsesUp(s, steps[0], id);
      StepKeepsBound(s, steps[0]);
      MovesAreBounded(Do(s, steps[0]), steps[1..], id);
    }
  }

  // ---------------------------------------------------------------- jobs and runs end together

  predicate HoldsLease(s: System, w: WorkerId)
  {
    var p := PhaseOf(s, w);
    && !p.Idle? && p.job in s.tables.jobs
    && var job := s.tables.jobs[p.job];
       job.status == Running && job.attempt == p.attempt && job.leasedUntil.Some? && s.now < job.leasedUntil.value
  }

  /** Crash-stop workers: nobody acts on a lease it has lost. */
  predicate CrashStop(s: System, step: Step)
  {
    match step
    case Check(w, _) => HoldsLease(s, w)
    case RunnerEnds(w, _) => HoldsLease(s, w)
    case Finish(w) => HoldsLease(s, w)
    case Beat(w, _) => HoldsLease(s, w)
    case RunnerWrites(w, _) => HoldsLease(s, w)
    case _ => true
  }

  /** A failed job's run is over, a complete job's run is live, and no two jobs share a run. */
  ghost predicate JobsMatchRuns(t: Tables)
  {
    && (forall id <- t.jobs ::
        t.jobs[id].status == Failed && t.jobs[id].run in t.runs ==> !Active(t.runs[t.jobs[id].run]))
    && (forall id <- t.jobs :: t.jobs[id].status == Complete ==> IsLive(t, t.jobs[id].run))
    && (forall x, y :: x in t.jobs && y in t.jobs && x != y ==> t.jobs[x].run != t.jobs[y].run)
  }

  /** No two workers stand for the same attempt of a job. */
  ghost predicate AttemptsDistinct(s: System)
  {
    && (forall w <- s.workers :: !s.workers[w].Idle? ==>
          s.workers[w].job in s.tables.jobs && s.workers[w].attempt <= s.tables.jobs[s.workers[w].job].attempt)
    && (forall v, w :: v in s.workers && w in s.workers && v != w ==> !SameAttempt(s.workers[v], s.workers[w]))
  }

  predicate SameAttempt(p: Phase, q: Phase)
  {
    !p.Idle? && !q.Idle? && p.job == q.job && p.attempt == q.attempt
  }

  /** A worker about to complete its job, with its lease still good, has a live run. */
  ghost predicate CompletionsWitnessed(s: System)
  {
    forall w <- s.workers :: s.workers[w].Completing? && HoldsLease(s, w) ==>
      IsLive(s.tables, s.tables.jobs[s.workers[w].job].run)
  }

  ghost predicate Coupled(s: System)
  {
    JobsMatchRuns(s.tables) && AttemptsDistinct(s) && CompletionsWitnessed(s)
  }

  /** Changing one job and its own run keeps the match when the two fit each other. */
  lemma OneRowMatches(t: Tables, after: Tables, id: JobId, job: Job)
    requires JobsMatchRuns(t) && id in t.jobs && job.run == t.jobs[id].run
    requires after.jobs == t.jobs[id := job]
    requires forall r <- t.runs :: r in after.runs && (r != job.run ==> after.runs[r] == t.runs[r])
    requires forall r <- after.runs :: r != job.run ==> r in t.runs
    requires job.status == Failed && job.run in after.runs ==> !Active(after.runs[job.run])
    requires job.status == Complete ==> IsLive(after, job.run)
    requires IsLive(t, job.run) ==> IsLive(after, job.run)
    ensures JobsMatchRuns(after)
    ensures forall run <- t.runs :: IsLive(t, run) ==> IsLive(after, run)
  {}

  lemma ReleaseOneMatches(t: Tables, id: JobId, now: int)
    requires JobsMatchRuns(t) && id in t.jobs && t.jobs[id].status == Running
    ensures JobsMatchRuns(ReleaseOne(t, id, now))
    ensures forall run <- t.runs :: IsLive(t, run) ==> IsLive(ReleaseOne(t, id, now), run)
  {
    hide JobsMatchRuns;
    OneRowMatches(t, ReleaseOne(t, id, now), id, ReleaseOne(t, id, now).jobs[id]);
  }

  lemma {:induction false} ReleaseAllMatches(t: Tables, rows: seq<JobId>, now: int)
    requires JobsMatchRuns(t)
    requires forall id <- rows :: id in t.jobs && t.jobs[id].status == Running
    requires forall i, j :: 0 <= i < j < |rows| ==> rows[i] != rows[j]
    ensures JobsMatchRuns(ReleaseAll(t, rows, now))
    decreases |rows|
  {
    if rows != [] {
      var next := ReleaseOne(t, rows[0], now);
      ReleaseOneMatches(t, rows[0], now);
      ReleaseOneKeepsAttempts(t, rows[0], now);
      assert forall i :: 0 <= i < |rows[1..]| ==> rows[1..][i] == rows[i + 1] != rows[0];
      ReleaseAllMatches(next, rows[1..], now);
    }
  }

  lemma {:induction false} ReleasedRowsStop(t: Tables, rows: seq<JobId>, now: int)
    requires forall id <- rows :: id in t.jobs && t.jobs[id].status == Running
    requires forall i, j :: 0 <= i < j < |rows| ==> rows[i] != rows[j]
    ensures ReleaseAll(t, rows, now).jobs.Keys == t.jobs.Keys
    ensures forall id <- t.jobs :: id in rows ==> ReleaseAll(t, rows, now).jobs[id].status != Running
    ensures forall id <- t.jobs :: id !in rows ==> ReleaseAll(t, rows, now).jobs[id] == t.jobs[id]
    decreases |rows|
  {
    if rows != [] {
      ReleaseOneKeepsAttempts(t, rows[0], now);
      assert forall i :: 0 <= i < |rows[1..]| ==> rows[1..][i] == rows[i + 1] != rows[0];
      ReleasedRowsStop(ReleaseOne(t, rows[0], now), rows[1..], now);
    }
  }

  lemma {:induction false} ReleaseKeepsLive(t: Tables, rows: seq<JobId>, now: int)
    requires forall id <- rows :: id in t.jobs
    ensures forall run <- t.runs :: IsLive(t, run) ==> IsLive(ReleaseAll(t, rows, now), run)
    decreases |rows|
  {
    if rows != [] {
      ReleaseOneKeepsAttempts(t, rows[0], now);
      ReleaseKeepsLive(ReleaseOne(t, rows[0], now), rows[1..], now);
    }
  }

  /** The builder itself takes back a live result: the one step no worker makes. */
  predicate UndoesLive(s: System, step: Step)
  {
    && step.RunnerWrites? && Enabled(s, step) && step.status != Live
    && IsLive(s.tables, s.tables.jobs[PhaseOf(s, step.worker).job].run)
  }

  predicate LiveKept(before: Tables, after: Tables)
  {
    forall run <- before.runs :: IsLive(before, run) ==> IsLive(after, run)
  }

  /**
   * A step, stale workers included, moves a live run out of live exactly when the builder itself takes its result back.
   */
  lemma LiveStaysLive(s: System, step: Step)
    ensures LiveKept(s.tables, Do(s, step).tables) <==> !UndoesLive(s, step)
  {
    if Enabled(s, step) {
      if step.Release? {
        ReleaseKeepsLive(s.tables, step.rows, s.now);
        hide ReleaseAll;
      } else if step.RunnerWrites? {
        var run := s.tables.jobs[PhaseOf(s, step.worker).job].run;
        assert UndoesLive(s, step) ==> run in s.tables.runs && !IsLive(Do(s, step).tables, run);
      } else {
        hide ReleaseAll;
      }
    }
  }

  lemma FinishMatches(s: System, w: WorkerId)
    requires Coupled(s) && HoldsLease(s, w)
    ensures PhaseOf(s, w).Completing? ==> JobsMatchRuns(CompleteJob(s.tables, PhaseOf(s, w).job))
    ensures JobsMatchRuns(FailJobAndRun(s.tables, PhaseOf(s, w).job))
  {}

  lemma RunningJobOwnsItsRun(t: Tables, id: JobId, status: RunStatus)
    requires JobsMatchRuns(t) && id in t.jobs && t.jobs[id].status == Running
    ensures JobsMatchRuns(t.(runs := t.runs[t.jobs[id].run := status]))
  {}

  lemma AdmissionMatches(t: Tables, run: RunId, id: JobId, job: Job)
    requires JobsMatchRuns(t) && id !in t.jobs && job.status == Queued && job.run == run
    requires forall x <- t.jobs :: t.jobs[x].run != run
    ensures JobsMatchRuns(Tables(t.jobs[id := job], t.runs[run := RunQueued]))
    ensures JobsMatchRuns(t.(runs := t.runs[run := RunFailed]))
  {}

  lemma StepKeepsMatch(s: System, step: Step)
    requires Coupled(s) && CrashStop(s, step) && Enabled(s, step)
    ensures JobsMatchRuns(Take(s, step).tables)
  {
    match step
    case Submit(run, newJob, maxAttempts) =>
      AdmissionMatches(s.tables, run, newJob, Job(Queued, 0, maxAttempts, None, s.now, run));
    case Adopt(run, newJob, _) =>
      AdmissionMatches(s.tables, run, newJob, Job(Queued, 0, STUDIO_MAX_ATTEMPTS, None, s.now, run));
    case Release(rows) => ReleaseAllMatches(s.tables, rows, s.now);
    case RunnerWrites(w, status) => RunningJobOwnsItsRun(s.tables, PhaseOf(s, w).job, status);
    case Finish(w) => FinishMatches(s, w);
    case _ =>
  }

  lemma OneWorkerMoves(s: System, after: System, w: WorkerId)
    requires AttemptsDistinct(s)
    requires forall id <- s.tables.jobs ::
             id in after.tables.jobs && s.tables.jobs[id].attempt <= after.tables.jobs[id].attempt
    requires forall v <- after.workers :: v != w ==> v in s.workers && after.workers[v] == s.workers[v]
    requires w in after.workers && !after.workers[w].Idle? ==>
               || (w in s.workers && SameAttempt(after.workers[w], s.workers[w]))
               || (after.workers[w].job in s.tables.jobs
                   && after.workers[w].attempt == s.tables.jobs[after.workers[w].job].attempt + 1
                   && after.workers[w].attempt <= after.tables.jobs[after.workers[w].job].attempt)
    ensures AttemptsDistinct(after)
  {
    forall u, v | u in after.workers && v in after.workers && u != v
      ensures !SameAttempt(after.workers[u], after.workers[v])
    {
      if u in s.workers && v in s.workers {
        assert !SameAttempt(s.workers[u], s.workers[v]);
      }
    }
  }

  lemma StepKeepsAttemptsDistinct(s: System, step: Step)
    requires AttemptsDistinct(s) && Enabled(s, step)
    ensures AttemptsDistinct(Take(s, step))
  {
    StepKeepsAttempts(s, step);
    match step
    case Lease(w, _, _) => OneWorkerMoves(s, Take(s, step), w);
    case Check(w, _) => OneWorkerMoves(s, Take(s, step), w);
    case RunnerEnds(w, _) => OneWorkerMoves(s, Take(s, step), w);
    case Finish(w) => OneWorkerMoves(s, Take(s, step), w);
    case Crash(w) => OneWorkerMoves(s, Take(s, step), w);
    case _ => OneWorkerMoves(s, Take(s, step), 0);
  }

  /** A lease held after a step, by a worker the step did not move, was held before it too. */
  lemma HeldBefore(s: System, step: Step, w: WorkerId)
    requires AttemptsDistinct(s) && CrashStop(s, step) && Enabled(s, step)
    requires w in s.workers && PhaseOf(Take(s, step), w) == s.workers[w] && HoldsLease(Take(s, step), w)
    requires !(step.Lease? && step.worker == w)
    ensures HoldsLease(s, w)
  {
    if step.Release? {
      ReleasedRowsStop(s.tables, step.rows, s.now);
    } else if step.Beat? && step.worker != w {
      assert !SameAttempt(s.workers[w], PhaseOf(s, step.worker));
    }
  }

  lemma StepKeepsRunOfJob(s: System, step: Step, id: JobId)
    requires Enabled(s, step) && id in s.tables.jobs
    ensures id in Take(s, step).tables.jobs && Take(s, step).tables.jobs[id].run == s.tables.jobs[id].run
  {
    if step.Release? {
      ReleaseAllKeepsAttempts(s.tables, step.rows, s.now);
    }
  }

  lemma StepKeepsWitnesses(s: System, step: Step)
    requires Coupled(s) && CrashStop(s, step) && Enabled(s, step)
    ensures CompletionsWitnessed(Take(s, step))
  {
    LiveStaysLive(s, step);
    assert step.RunnerWrites? || !UndoesLive(s, step);
    hide Take, Enabled, CrashStop, JobsMatchRuns, AttemptsDistinct;
    var after := Take(s, step);
    forall w <- after.workers | after.workers[w].Completing? && HoldsLease(after, w)
      ensures IsLive(after.tables, after.tables.jobs[after.workers[w].job].run)
    {
      if w in s.workers && after.workers[w] == s.workers[w] {
        if step.Lease? {
          LeaseMovesWorker(s, step);
        }
        HeldBefore(s, step, w);
        StepKeepsRunOfJob(s, step, s.workers[w].job);
        if step.RunnerWrites? {
          WriteKeepsWitness(s, step, w);
        }
      } else {
        TurnedCompleting(s, step, w);
      }
    }
  }

  /** A runner that holds its lease writes no run that another lease holder is about to complete. */
  lemma WriteKeepsWitness(s: System, step: Step, w: WorkerId)
    requires JobsMatchRuns(s.tables) && AttemptsDistinct(s) && CrashStop(s, step)
    requires step.RunnerWrites? && Enabled(s, step)
    requires w in s.workers && s.workers[w].Completing? && HoldsLease(s, w)
    requires IsLive(s.tables, s.tables.jobs[s.workers[w].job].run)
    ensures IsLive(Take(s, step).tables, s.tables.jobs[s.workers[w].job].run)
  {
    var v := step.worker;
    assert !SameAttempt(s.workers[v], s.workers[w]);
    assert s.workers[v].job != s.workers[w].job;
  }

  lemma LeaseMovesWorker(s: System, step: Step)
    requires Enabled(s, step) && step.Lease?
    ensures Take(s, step).workers[step.worker].Leased?
  {}

  /** Workers turn to completing only on seeing a live run. */
  lemma TurnedCompleting(s: System, step: Step, w: WorkerId)
    requires Enabled(s, step)
    requires w in Take(s, step).workers && Take(s, step).workers[w].Completing?
    requires w !in s.workers || Take(s, step).workers[w] != s.workers[w]
    ensures var after := Take(s, step);
            after.workers[w].job in after.tables.jobs
                && IsLive(after.tables, after.tables.jobs[after.workers[w].job].run)
  {}

  /**
   * With crash-stop workers, in every reachable state a failed job's run is not active and a complete job's run is
   * live.
   */
  lemma {:induction false} JobsAndRunsEndTogether(s: System, steps: seq<Step>)
    requires Coupled(s)
    requires forall i :: 0 <= i < |steps| ==> CrashStop(Run(s, steps[..i]), steps[i])
    ensures Coupled(Run(s, steps))
    decreases |steps|
  {
    if steps != [] {
      assert steps[..0] == [] && Run(s, []) == s;
      var next := Do(s, steps[0]);
      if Enabled(s, steps[0]) {
        StepKeepsMatch(s, steps[0]);
        StepKeepsWitnesses(s, steps[0]);
        StepKeepsAttemptsDistinct(s, steps[0]);
      }
      forall i | 0 <= i < |steps[1..]| ensures CrashStop(Run(next, steps[1..][..i]), steps[1..][i]) {
        assert steps[..i + 1][1..] == steps[1..][..i];
        assert Run(s, steps[..i + 1]) == Run(next, steps[1..][..i]);
      }
      JobsAndRunsEndTogether(next, steps[1..]);
    }
  }

  /** Over every run in which no builder takes its result back, live runs stay live, stale workers included. */
  lemma {:induction false} LiveRunsStayLive(s: System, steps: seq<Step>)
    requires forall i :: 0 <= i < |steps| ==> !UndoesLive(Run(s, steps[..i]), steps[i])
    ensures LiveKept(s.tables, Run(s, steps).tables)
    decreases |steps|
  {
    if steps != [] {
      assert steps[..0] == [] && Run(s, []) == s;
      var next := Do(s, steps[0]);
      LiveStaysLive(s, steps[0]);
      forall i | 0 <= i < |steps[1..]| ensures !UndoesLive(Run(next, steps[1..][..i]), steps[1..][i]) {
        assert steps[..i + 1][1..] == steps[1..][..i];
        assert Run(s, steps[..i + 1]) == Run(next, steps[1..][..i]);
      }
      hide UndoesLive, Do;
      LiveRunsStayLive(next, steps[1..]);
    }
  }

  lemma InitiallyCoupled()
    ensures Coupled(INITIAL)
  {}

  lemma RunStep(s: System, first: Step, rest: seq<Step>)
    ensures Run(s, [first] + rest) == Run(Do(s, first), rest)
  {
    assert ([first] + rest)[1..] == rest;
  }

  /** Two attempts at one job: the first worker lost its lease after its build failed, the second is building. */
  function OverlapSteps(): seq<Step>
  {
    [Submit("r", "j", 2), Lease(0, "j", 30), Check(0, true), RunnerEnds(0, true), Tick(30), Release(["j"]),
     Lease(1, "j", 30), Check(1, true)]
  }

  function Overlap(): System
  {
    System(Tables(map["j" := Job(Running, 2, 2, Some(60), 30, "r")], map["r" := RunQueued]), 30,
           map[0 := Failing("j", 1), 1 := Executing("j", 2)], map["j" := 2])
  }

  lemma OverlapIsReached()
    ensures Run(INITIAL, OverlapSteps()) == Overlap()
  {
    var steps := OverlapSteps();
    FirstAttempt();
    SecondAttempt();
    RunAppend(INITIAL, steps[..4], steps[4..]);
    assert steps == steps[..4] + steps[4..];
  }

  lemma {:induction false} RunAppend(s: System, first: seq<Step>, more: seq<Step>)
    ensures Run(s, first + more) == Run(Run(s, first), more)
    decreases |first|
  {
    hide Do;
    if first == [] {
      assert first + more == more;
    } else {
      assert (first + more)[1..] == first[1..] + more;
      RunAppend(Do(s, first[0]), first[1..], more);
    }
  }

  function BuildFailed(): System
  {
    System(Tables(map["j" := Job(Running, 1, 2, Some(30), 0, "r")], map["r" := RunQueued]), 0,
           map[0 := Failing("j", 1)],
           map["j" := 1])
  }

  lemma FirstAttempt()
    ensures Run(INITIAL, OverlapSteps()[..4]) == BuildFailed()
  {
    var a, b, c, d := Submit("r", "j", 2), Lease(0, "j", 30), Check(0, true), RunnerEnds(0, true);
    var s1 := Do(INITIAL, a);
    assert s1 == System(Tables(map["j" := Job(Queued, 0, 2, None, 0, "r")], map["r" := RunQueued]), 0, map[], map[]);
    var s2 := Do(s1, b);
    assert s2 == System(Tables(map["j" := Job(Running, 1, 2, Some(30), 0, "r")], map["r" := RunQueued]), 0,
                        map[0 := Leased("j", 1)], map[]);
    var s3 := Do(s2, c);
    assert s3 == System(s2.tables, 0, map[0 := Executing("j", 1)], map["j" := 1]);
    assert Do(s3, d) == BuildFailed();
    hide Do;
    assert OverlapSteps()[..4] == [a] + ([b] + ([c] + ([d] + [])));
    RunStep(INITIAL, a, [b] + ([c] + ([d] + [])));
    RunStep(s1, b, [c] + ([d] + []));
    RunStep(s2, c, [d] + []);
    RunStep(s3, d, []);
  }

  function Requeued(): System
  {
    System(Tables(map["j" := Job(Queued, 1, 2, None, 30, "r")], map["r" := RunQueued]), 30, map[0 := Failing("j", 1)],
           map["j" := 1])
  }

  lemma LeaseExpires()
    ensures Do(Do(BuildFailed(), Tick(30)), Release(["j"])) == Requeued()
  {
    var s := Do(BuildFailed(), Tick(30));
    assert s == BuildFailed().(now := 30);
    ReleaseJustOne(s.tables, "j", 30);
    hide ReleaseAll;
    assert s.tables.runs["r" := RunQueued] == s.tables.runs;
  }

  lemma SecondLease()
    ensures Do(Do(Requeued(), Lease(1, "j", 30)), Check(1, true)) == Overlap()
  {
    hide ReleaseAll;
    var s := Do(Requeued(), Lease(1, "j", 30));
    assert s == System(Tables(map["j" := Job(Running, 2, 2, Some(60), 30, "r")], map["r" := RunQueued]), 30,
                       map[0 := Failing("j", 1), 1 := Leased("j", 2)], map["j" := 1]);
  }

  lemma SecondAttempt()
    ensures Run(BuildFailed(), OverlapSteps()[4..]) == Overlap()
  {
    LeaseExpires();
    SecondLease();
    var a, b, c, d := Tick(30), Release(["j"]), Lease(1, "j", 30), Check(1, true);
    assert OverlapSteps()[4..] == [a] + ([b] + ([c] + ([d] + [])));
    hide Do;
    RunStep(BuildFailed(), a, [b] + ([c] + ([d] + [])));
    RunStep(Do(BuildFailed(), a), b, [c] + ([d] + []));
    RunStep(Requeued(), c, [d] + []);
    RunStep(Do(Requeued(), c), d, []);
  }

  lemma ReleaseJustOne(t: Tables, id: JobId, now: int)
    requires id in t.jobs
    ensures ReleaseAll(t, [id], now) == ReleaseOne(t, id, now)
  {
    assert [id][1..] == [];
  }

  /**
   * Without crash-stop the coupling fails, from the empty system on: the first worker of an overlap fails the job the
   * second is building, since the lease names no owner, and the next write of that build leaves a failed job with an
   * active run.
   */
  lemma StaleWorkerBreaksCoupling()
    ensures var stale, rebuilt := Finish(0), RunnerWrites(1, Building);
            var s := Run(INITIAL, OverlapSteps());
            && Coupled(s) && !CrashStop(s, stale)
            && !JobsMatchRuns(Run(INITIAL, OverlapSteps() + [stale, rebuilt]).tables)
  {
    OverlapIsReached();
    OverlapBreaks();
    hide Do, Coupled, CrashStop, JobsMatchRuns, OverlapSteps;
    var stale, rebuilt := Finish(0), RunnerWrites(1, Building);
    RunAppend(INITIAL, OverlapSteps(), [stale, rebuilt]);
    assert [stale, rebuilt] == [stale] + ([rebuilt] + []);
    RunStep(Overlap(), stale, [rebuilt] + []);
    RunStep(Do(Overlap(), stale), rebuilt, []);
  }

  lemma OverlapBreaks()
    ensures Coupled(Overlap()) && !CrashStop(Overlap(), Finish(0))
    ensures !JobsMatchRuns(Do(Do(Overlap(), Finish(0)), RunnerWrites(1, Building)).tables)
  {
    OverlapIsCoupled();
    StaleFinish();
    LateWrite();
    hide *;
  }

  lemma OverlapIsCoupled()
    ensures Coupled(Overlap()) && !CrashStop(Overlap(), Finish(0))
  {
    OverlapMatches();
    OverlapAttempts();
    hide JobsMatchRuns, AttemptsDistinct, Run;
  }

  lemma OverlapMatches()
    ensures JobsMatchRuns(Overlap().tables)
  {}

  lemma OverlapAttempts()
    ensures AttemptsDistinct(Overlap())
  {}

  /** The stale worker fails the job whose second attempt is under way. */
  function FailedUnderneath(): System
  {
    System(Tables(map["j" := Job(Failed, 2, 2, Some(60), 30, "r")], map["r" := RunFailed]), 30,
           map[0 := Idle, 1 := Executing("j", 2)], map["j" := 2])
  }

  lemma StaleFinish()
    ensures Do(Overlap(), Finish(0)) == FailedUnderneath()
  {}

  lemma LateWrite()
    ensures !JobsMatchRuns(Do(FailedUnderneath(), RunnerWrites(1, Building)).tables)
  {
    var s := FailedUnderneath();
    assert PhaseOf(s, 1) == Executing("j", 2) && Enabled(s, RunnerWrites(1, Building));
    var after := Take(s, RunnerWrites(1, Building)).tables;
    assert after.jobs["j"].status == Failed && after.runs["r"] == Building;
  }
}
