/**
 * Lease times of a running Studio worker (`_next_job` and `_heartbeat_lease` in agent_studio_worker.py), in seconds.
 */
module StudioHeartbeat {
  /** The lease every write grants, whatever is configured. */
  function LeaseSeconds(configured: int): int
  {
    if configured < 30 then 30 else configured
  }

  /** How long the heartbeat waits between writes. */
  function Interval(configured: int): real
  {
    var third := LeaseSeconds(configured) as real / 3.0;
    var capped := if 30.0 < third then 30.0 else third;
    if 5.0 < capped then capped else 5.0
  }

  /** A write of `leased_until`: the clock reading it uses, and the moment it becomes visible to other workers. */
  datatype Write = Write(read: real, visible: real)

  /**
   * The lease itself and the heartbeats after it: each write is done within one interval, and the next begins one wait
   * later.
   */
  ghost predicate Punctual(writes: seq<Write>, interval: real)
  {
    && writes != []
    && (forall i :: 0 <= i < |writes| ==> writes[i].read <= writes[i].visible <= writes[i].read + interval)
    && (forall i :: 0 < i < |writes| ==> writes[i - 1].visible <= writes[i].read <= writes[i - 1].visible + interval)
  }

  /** The `leased_until` another worker sees at time `t`. */
  function LeasedUntil(writes: seq<Write>, lease: int, t: real): real
    requires writes != [] && writes[0].visible <= t
  {
    var last := writes[|writes| - 1];
    if last.visible <= t || |writes| == 1 then last.read + lease as real
    else LeasedUntil(writes[..|writes| - 1], lease, t)
  }

  /**
   * The lease is the configured one, but no shorter than 30 seconds; the wait is a third of it, but no longer than 30.
   */
  lemma LeaseAndInterval(configured: int)
    ensures LeaseSeconds(configured) >= 30 && LeaseSeconds(configured) >= configured
    ensures LeaseSeconds(configured) in {30, configured}
    ensures Interval(configured) == if configured <= 30 then 10.0 else if configured <= 90 then configured as real / 3.0
                                    else 30.0
  {}

  lemma ThreeIntervalsFit(configured: int)
    ensures 5.0 <= Interval(configured) <= 30.0 && 3.0 * Interval(configured) <= LeaseSeconds(configured) as real
  {}

  /**
   * As long as the worker runs, that is until its next write is overdue, no one ever sees its lease as expired
   * (`leased_until <= now` in `_release_expired_leases`), for any configured lease.
   */
  lemma {:induction false} RunningWorkerNeverExpires(writes: seq<Write>, configured: int, t: real)
    requires Punctual(writes, Interval(configured))
    requires writes[0].visible <= t < writes[|writes| - 1].visible + 2.0 * Interval(configured)
    ensures t < LeasedUntil(writes, LeaseSeconds(configured), t)
    decreases |writes|
  {
    ThreeIntervalsFit(configured);
    var last := writes[|writes| - 1];
    if t < last.visible && |writes| > 1 {
      var earlier := writes[..|writes| - 1];
      assert last.visible <= last.read + Interval(configured);
      assert last.read <= earlier[|earlier| - 1].visible + Interval(configured);
      RunningWorkerNeverExpires(earlier, configured, t);
    }
  }
}
