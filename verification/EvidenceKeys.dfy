/** The rows' keys are distinct, so no two rows of a list call for the same blind append. */
module EvidenceKeys {
  import opened Common
  import opened EvidenceRows
  import opened EvidenceProjection

  ghost predicate DistinctBy<R(!new), K(!new)>(rows: seq<R>, key: R -> K)
  {
    forall i, j :: 0 <= i < j < |rows| ==> key(rows[i]) != key(rows[j])
  }

  /** Child rows are distinct within one parent and between two. */
  ghost predicate DistinctChildren<R(!new), K(!new)>(rows: seq<R>, children: R -> seq<K>)
  {
    && (forall row <- rows :: NoRepeats(children(row)))
    && (forall i, j :: 0 <= i < j < |rows| ==> forall x <- children(rows[i]) :: x !in children(rows[j]))
  }

  function DeployKey(): DeploymentRow -> string { (d: DeploymentRow) => d.deployId }
  function DeployEvents(): DeploymentRow -> seq<int> { (d: DeploymentRow) => d.events }
  function ReviewKey(): ReviewRow -> string { (r: ReviewRow) => r.reviewId }
  function ProofKey(): ProofRow -> int { (p: ProofRow) => p.id }
  function SubagentKey(): SubagentRow -> string { (s: SubagentRow) => s.grantId }
  function SubagentEventRows(): SubagentRow -> seq<int> { (s: SubagentRow) => s.events }
  function SessionKey(): SessionRow -> string { (s: SessionRow) => s.sessionId }
  function DagNodeKey(): DagNodeRow -> (string, string) { (n: DagNodeRow) => (n.runId, n.nodeId) }
  function TrialKey(): TrialRow -> int { (t: TrialRow) => t.id }
  function JobKey(): JobRow -> string { (j: JobRow) => j.jobId }
  function JobEventIds(): JobRow -> seq<string> { (j: JobRow) => EventIds(j.events) }
  function UsageKey(): UsageRow -> int { (u: UsageRow) => u.id }

  function EventIds(events: seq<WorkEventRow>): (ids: seq<string>)
    ensures |ids| == |events| && forall i :: 0 <= i < |ids| ==> ids[i] == events[i].eventId
  {
    seq(|events|, i requires 0 <= i < |events| => events[i].eventId)
  }

  /** The primary and business keys the tables declare unique, for the tables whose rows are appended blindly. */
  ghost predicate DistinctKeys(all: Rows)
  {
    && DistinctBy(all.deployments, DeployKey()) && DistinctChildren(all.deployments, DeployEvents())
    && DistinctBy(all.reviews, ReviewKey()) && DistinctBy(all.proofs, ProofKey())
    && DistinctBy(all.subagents, SubagentKey()) && DistinctChildren(all.subagents, SubagentEventRows())
    && NoRepeats(all.receipts) && DistinctBy(all.sessions, SessionKey())
    && NoRepeats(all.dagRuns) && DistinctBy(all.dagNodes, DagNodeKey())
    && DistinctBy(all.trials, TrialKey())
    && DistinctBy(all.jobs, JobKey()) && DistinctChildren(all.jobs, JobEventIds())
    && DistinctBy(all.usages, UsageKey())
  }

  lemma EventParts(kind: EdgeKind, owner: NodeId, events: seq<NodeId>, x: Item)
    requires x in EventItems(kind, owner, events)
    ensures (x.Node? && x.id in events)
            || (x.Link? && x.edge.kind == kind && x.edge.source == owner && x.edge.target in events)
  {}

  /** A blind append of a deployment row: its node, an edge to or from it, or the node of one of its events. */
  predicate OfDeployment(d: DeploymentRow, x: Item)
  {
    match x
    case Node(id) => id == DeploymentNode(d.deployId) || (id.DeploymentEventNode? && id.eventRow in d.events)
    case Link(e) =>
      var node := DeploymentNode(d.deployId);
      if e.kind.AgentHasDeployment? then e.target == node
      else (e.kind.DeploymentDeploysVersion? || e.kind.DeploymentHasEvent?) && e.source == node
  }

  lemma DeploymentRanks(all: Rows, d: DeploymentRow, x: Item)
    requires x in DeploymentItems(all)(d) && Rank(x) > 0
    ensures Rank(x) == 1 && OfDeployment(d, x)
  {
    hide EventItems;
    var node := DeploymentNode(d.deployId);
    if x in EventItems(DeploymentHasEvent, node, DeploymentEvents(d.events)) {
      EventParts(DeploymentHasEvent, node, DeploymentEvents(d.events), x);
    }
  }

  lemma DeploymentsApart(all: Rows)
    requires DistinctBy(all.deployments, DeployKey()) && DistinctChildren(all.deployments, DeployEvents())
    ensures RankedAt(all.deployments, DeploymentItems(all), 1) && Apart(all.deployments, DeploymentItems(all))
  {
    var rows, emits := all.deployments, DeploymentItems(all);
    hide DeploymentItems, Rank;
    forall row <- rows, x <- emits(row) ensures Rank(x) == 0 || Rank(x) == 1 {
      if Rank(x) > 0 { DeploymentRanks(all, row, x); }
    }
    forall i, j | 0 <= i < j < |rows| ensures New(emits(rows[i]), emits(rows[j])) {
      assert DeployKey()(rows[i]) != DeployKey()(rows[j]);
      assert DeployEvents()(rows[i]) == rows[i].events && DeployEvents()(rows[j]) == rows[j].events;
      forall x <- emits(rows[j]) | Rank(x) > 0 ensures x !in emits(rows[i]) {
        DeploymentRanks(all, rows[j], x);
        if x in emits(rows[i]) { DeploymentRanks(all, rows[i], x); }
      }
    }
  }

  lemma ReviewsApart(all: Rows)
    requires DistinctBy(all.reviews, ReviewKey())
    ensures RankedAt(all.reviews, ReviewItems(all), 2) && Apart(all.reviews, ReviewItems(all))
  {
    var rows, emits := all.reviews, ReviewItems(all);
    forall i, j | 0 <= i < j < |rows| ensures New(emits(rows[i]), emits(rows[j])) {
      assert ReviewKey()(rows[i]) != ReviewKey()(rows[j]);
    }
  }

  lemma ProofsApart(all: Rows)
    requires DistinctBy(all.proofs, ProofKey())
    ensures RankedAt(all.proofs, ProofItems(all), 3) && Apart(all.proofs, ProofItems(all))
  {
    var rows, emits := all.proofs, ProofItems(all);
    forall i, j | 0 <= i < j < |rows| ensures New(emits(rows[i]), emits(rows[j])) {
      assert ProofKey()(rows[i]) != ProofKey()(rows[j]);
    }
  }

  lemma SubagentRanks(all: Rows, s: SubagentRow, x: Item)
    requires x in SubagentItems(all)(s) && Rank(x) > 0
    ensures Rank(x) == 5
    ensures x == Node(SubagentRunNode(s.grantId))
            || (x.Node? && x.id.SubagentEventNode? && x.id.subagentEventRow in s.events)
  {
    hide EventItems;
    var node := SubagentRunNode(s.grantId);
    if x in EventItems(SubagentRunHasEvent, node, SubagentEvents(s.events)) {
      EventParts(SubagentRunHasEvent, node, SubagentEvents(s.events), x);
    }
  }

  lemma SubagentsApart(all: Rows)
    requires DistinctBy(all.subagents, SubagentKey()) && DistinctChildren(all.subagents, SubagentEventRows())
    ensures RankedAt(all.subagents, SubagentItems(all), 5) && Apart(all.subagents, SubagentItems(all))
  {
    var rows, emits := all.subagents, SubagentItems(all);
    hide SubagentItems, Rank;
    forall row <- rows, x <- emits(row) ensures Rank(x) == 0 || Rank(x) == 5 {
      if Rank(x) > 0 { SubagentRanks(all, row, x); }
    }
    forall i, j | 0 <= i < j < |rows| ensures New(emits(rows[i]), emits(rows[j])) {
      assert SubagentKey()(rows[i]) != SubagentKey()(rows[j]);
      assert SubagentEventRows()(rows[i]) == rows[i].events && SubagentEventRows()(rows[j]) == rows[j].events;
      forall x <- emits(rows[j]) | Rank(x) > 0 ensures x !in emits(rows[i]) {
        SubagentRanks(all, rows[j], x);
        if x in emits(rows[i]) { SubagentRanks(all, rows[i], x); }
      }
    }
  }

  lemma ReceiptsApart(all: Rows)
    requires NoRepeats(all.receipts)
    ensures RankedAt(all.receipts, ReceiptItems(all), 8) && Apart(all.receipts, ReceiptItems(all))
  {}

  lemma SessionsApart(all: Rows)
    requires DistinctBy(all.sessions, SessionKey())
    ensures RankedAt(all.sessions, SessionItems(all), 9) && Apart(all.sessions, SessionItems(all))
  {
    var rows, emits := all.sessions, SessionItems(all);
    forall i, j | 0 <= i < j < |rows| ensures New(emits(rows[i]), emits(rows[j])) {
      assert SessionKey()(rows[i]) != SessionKey()(rows[j]);
    }
  }

  lemma DagRunsApart(all: Rows)
    requires NoRepeats(all.dagRuns)
    ensures RankedAt(all.dagRuns, DagRunItems(), 10) && Apart(all.dagRuns, DagRunItems())
  {}

  lemma DagNodesApart(all: Rows)
    requires DistinctBy(all.dagNodes, DagNodeKey())
    ensures RankedAt(all.dagNodes, DagNodeItems(all), 11) && Apart(all.dagNodes, DagNodeItems(all))
  {
    var rows, emits := all.dagNodes, DagNodeItems(all);
    forall i, j | 0 <= i < j < |rows| ensures New(emits(rows[i]), emits(rows[j])) {
      assert DagNodeKey()(rows[i]) != DagNodeKey()(rows[j]);
    }
  }

  lemma TrialsApart(all: Rows)
    requires DistinctBy(all.trials, TrialKey())
    ensures RankedAt(all.trials, TrialItems(all), 13) && Apart(all.trials, TrialItems(all))
  {
    var rows, emits := all.trials, TrialItems(all);
    forall i, j | 0 <= i < j < |rows| ensures New(emits(rows[i]), emits(rows[j])) {
      assert TrialKey()(rows[i]) != TrialKey()(rows[j]);
    }
  }

  lemma RefRanks(all: Rows, origin: Origin, source: NodeId, refs: MutationRefs, x: Item)
    requires x in RefItems(all, origin, source, refs)
    ensures Rank(x) == 0
  {
    hide Finding, Triggered, IsReview;
  }

  /** What a job calls for blindly: its own node and its events'. */
  predicate OfJob(j: JobRow, x: Item)
  {
    x == Node(WorkJobNode(j.jobId)) || exists e <- j.events :: x == Node(WorkEventNode(e.eventId))
  }

  lemma EventRanks(all: Rows, job: NodeId, e: WorkEventRow, x: Item)
    requires x in WorkEventItems(all, job)(e) && Rank(x) > 0
    ensures Rank(x) == 14 && x == Node(WorkEventNode(e.eventId))
  {
    hide RefItems;
    if x in RefItems(all, FromEvent, WorkEventNode(e.eventId), e.refs) {
      RefRanks(all, FromEvent, WorkEventNode(e.eventId), e.refs, x);
    }
  }

  lemma JobRanks(all: Rows, j: JobRow, x: Item)
    requires x in JobItems(all)(j) && Rank(x) > 0
    ensures Rank(x) == 14 && OfJob(j, x)
  {
    hide RefItems, WorkEventItems, Rank;
    var node := WorkJobNode(j.jobId);
    if x in Gather(j.events, WorkEventItems(all, node)) {
      var e :| e in j.events && x in WorkEventItems(all, node)(e);
      EventRanks(all, node, e, x);
    } else if x in RefItems(all, FromJob, node, j.refs) {
      RefRanks(all, FromJob, node, j.refs, x);
    } else {
      JobOwnRanks(all, j, x);
    }
  }

  lemma JobOwnRanks(all: Rows, j: JobRow, x: Item)
    requires Rank(x) > 0
    requires x in {Node(WorkJobNode(j.jobId)), Arrow(AgentHasWorkJob, Root(all), WorkJobNode(j.jobId)),
                   Arrow(WorkJobParentOf, WorkJobNode(j.parentId), WorkJobNode(j.jobId))}
    ensures Rank(x) == 14 && x == Node(WorkJobNode(j.jobId))
  {}

  lemma JobsApart(all: Rows)
    requires DistinctBy(all.jobs, JobKey()) && DistinctChildren(all.jobs, JobEventIds())
    ensures RankedAt(all.jobs, JobItems(all), 14) && Apart(all.jobs, JobItems(all))
  {
    var rows, emits := all.jobs, JobItems(all);
    hide JobItems, Rank;
    forall row <- rows, x <- emits(row) ensures Rank(x) == 0 || Rank(x) == 14 {
      if Rank(x) > 0 { JobRanks(all, row, x); }
    }
    forall i, j | 0 <= i < j < |rows| ensures New(emits(rows[i]), emits(rows[j])) {
      assert JobKey()(rows[i]) != JobKey()(rows[j]);
      assert JobEventIds()(rows[i]) == EventIds(rows[i].events) && JobEventIds()(rows[j]) == EventIds(rows[j].events);
      assert forall e <- rows[i].events :: e.eventId in EventIds(rows[i].events);
      assert forall e <- rows[j].events :: e.eventId in EventIds(rows[j].events);
      forall x <- emits(rows[j]) | Rank(x) > 0 ensures x !in emits(rows[i]) {
        JobRanks(all, rows[j], x);
        if x in emits(rows[i]) { JobRanks(all, rows[i], x); }
      }
    }
  }

  lemma UsageRanks(all: Rows, u: UsageRow, x: Item)
    requires x in UsageItems(all)(u) && Rank(x) > 0
    ensures Rank(x) == 15 && x == Node(LlmUsageNode(u.id))
  {
    hide IsGrant;
  }

  lemma UsagesApart(all: Rows)
    requires DistinctBy(all.usages, UsageKey())
    ensures RankedAt(all.usages, UsageItems(all), 15) && Apart(all.usages, UsageItems(all))
  {
    var rows, emits := all.usages, UsageItems(all);
    hide UsageItems, Rank;
    forall row <- rows, x <- emits(row) ensures Rank(x) == 0 || Rank(x) == 15 {
      if Rank(x) > 0 { UsageRanks(all, row, x); }
    }
    forall i, j | 0 <= i < j < |rows| ensures New(emits(rows[i]), emits(rows[j])) {
      assert UsageKey()(rows[i]) != UsageKey()(rows[j]);
      forall x <- emits(rows[j]) | Rank(x) > 0 ensures x !in emits(rows[i]) {
        UsageRanks(all, rows[j], x);
        if x in emits(rows[i]) { UsageRanks(all, rows[i], x); }
      }
    }
  }

  // The phases that look before they append.

  lemma LookingIsApart<R(!new)>(rows: seq<R>, emits: R -> set<Item>, phase: nat)
    requires forall row <- rows, x <- emits(row) :: Rank(x) == 0
    ensures RankedAt(rows, emits, phase) && Apart(rows, emits)
  {
    hide Rank;
    forall i, j | 0 <= i < j < |rows| ensures New(emits(rows[i]), emits(rows[j])) {
      assert rows[j] in rows;
    }
  }

  lemma GrantsApart(all: Rows)
    ensures RankedAt(all.grants, GrantItems(all), 4) && Apart(all.grants, GrantItems(all))
  {
    LookingIsApart(all.grants, GrantItems(all), 4);
  }

  lemma ProofGrantsApart(all: Rows)
    ensures RankedAt(all.proofs, ProofGrantItems(all), 6) && Apart(all.proofs, ProofGrantItems(all))
  {
    LookingIsApart(all.proofs, ProofGrantItems(all), 6);
  }

  lemma FindingRanks(r: ReviewRow, x: Item)
    requires x in FindingItems()(r)
    ensures Rank(x) == 0
  {
    EventParts(ReviewHasFinding, ReviewNode(r.reviewId), Findings(r), x);
  }

  lemma FindingsApart(all: Rows)
    ensures RankedAt(all.reviews, FindingItems(), 7) && Apart(all.reviews, FindingItems())
  {
    forall r <- all.reviews, x <- FindingItems()(r) ensures Rank(x) == 0 {
      FindingRanks(r, x);
    }
    LookingIsApart(all.reviews, FindingItems(), 7);
  }

  lemma DependenciesApart(all: Rows)
    ensures RankedAt(all.dagNodes, DependencyItems(all), 12) && Apart(all.dagNodes, DependencyItems(all))
  {
    LookingIsApart(all.dagNodes, DependencyItems(all), 12);
  }
}
