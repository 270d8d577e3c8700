/**
 * The projection read the other way round: not what each row calls for, but which rows stand behind a node and behind
 * an edge of each kind.
 */
module EvidenceKinds {
  import opened Common
  import opened EvidenceRows
  import opened EvidenceProjection
  import opened EvidenceKeys
  import opened EvidenceSelection
  import opened EvidenceIntegrity

  /** The version a deployment or a proof is of: its commit, failing that what else names it. */
  predicate VersionOf(ref: string, first: string, second: string, third: string)
  {
    ref != "" && ref == if first != "" then first else if second != "" then second else third
  }

  /** A mutation, by the job or the work event it stands in. */
  ghost predicate Mutation(all: Rows, origin: Origin, source: NodeId, refs: MutationRefs)
  {
    if origin == FromJob then exists j <- all.jobs :: source == WorkJobNode(j.jobId) && refs == j.refs
    else exists j <- all.jobs :: exists e <- j.events :: source == WorkEventNode(e.eventId) && refs == e.refs
  }

  ghost predicate NodeHasRow(all: Rows, id: NodeId)
  {
    match id
    case AgentNode(agentId) => agentId == all.agentId
    case VersionNode(ref) =>
      || (exists d <- all.deployments :: VersionOf(ref, d.headSha, d.image, ""))
      || (exists p <- all.proofs :: VersionOf(ref, p.headSha, p.cardHash, p.image))
      || (ref != "" && exists origin, source, refs :: Mutation(all, origin, source, refs) && refs.headSha == ref)
    case DeploymentNode(deployId) => exists d <- all.deployments :: d.deployId == deployId
    case DeploymentEventNode(row) => exists d <- all.deployments :: row in d.events
    case ReviewNode(reviewId) => exists r <- all.reviews :: r.reviewId == reviewId
    case ProofNode(row) => exists p <- all.proofs :: p.id == row
    case FindingNode(reviewId, hash) => exists r <- all.reviews :: r.reviewId == reviewId && hash in r.findings
    case GrantNode(grantId) => exists g <- all.grants :: g.grantId == grantId
    case SubagentRunNode(grantId) => exists s <- all.subagents :: s.grantId == grantId
    case SubagentEventNode(row) => exists s <- all.subagents :: row in s.events
    case ReceiptNode(receiptId) => receiptId in all.receipts
    case SessionNode(sessionId) => exists s <- all.sessions :: s.sessionId == sessionId
    case DagRunNode(runId) => runId in all.dagRuns
    case DagNodeNode(runId, nodeId) => exists n <- all.dagNodes :: n.runId == runId && n.nodeId == nodeId
    case TrialNode(row) => exists t <- all.trials :: t.id == row
    case TrialRoomNode(slug) => exists t <- all.trials :: t.room == slug
    case WorkJobNode(jobId) => exists j <- all.jobs :: j.jobId == jobId
    case WorkEventNode(eventId) => exists j <- all.jobs :: exists e <- j.events :: e.eventId == eventId
    case LlmUsageNode(row) => exists u <- all.usages :: u.id == row
  }

  /** The agent, at the start of an edge. */
  predicate FromAgent(all: Rows, e: Edge)
  {
    e.source == AgentNode(all.agentId)
  }

  /** The edge starts at the loaded grant a row names. */
  ghost predicate FromGrant(all: Rows, e: Edge, grantId: string)
  {
    e.source == GrantNode(grantId) && grantId != "" && exists g <- all.grants :: g.grantId == grantId
  }

  /** The edge starts at the loaded DAG run a row names. */
  predicate FromDagRun(all: Rows, e: Edge, runId: string)
  {
    e.source == DagRunNode(runId) && runId in all.dagRuns
  }

  /** None of a usage's three keys names anything. */
  ghost predicate Keyless(all: Rows, u: UsageRow)
  {
    && (u.grantId == "" || forall g <- all.grants :: g.grantId != u.grantId)
    && (u.dagRunId == "" || u.dagRunId !in all.dagRuns) && u.agentName != all.agentName
  }

  /** Edges of deployments, reviews and proofs. */
  ghost predicate VersionEdgeHasRow(all: Rows, e: Edge)
  {
    match e.kind
    case AgentHasDeployment => FromAgent(all, e) && exists d <- all.deployments ::
        e.target == DeploymentNode(d.deployId)
    case DeploymentDeploysVersion =>
      exists d <- all.deployments :: e.source == DeploymentNode(d.deployId) && e.target.VersionNode?
                                     && VersionOf(e.target.ref, d.headSha, d.image, "")
    case DeploymentHasEvent =>
      exists d <- all.deployments :: e.source == DeploymentNode(d.deployId)
                                     && e.target.DeploymentEventNode? && e.target.eventRow in d.events
    case DeploymentReviewedBy =>
      exists r <- all.reviews :: exists d <- all.deployments ::
        && e.source == DeploymentNode(d.deployId) && e.target == ReviewNode(r.reviewId)
        && d.deployId != "" && r.deployId == Some(d.deployId)
    case AgentHasProof => FromAgent(all, e) && exists p <- all.proofs :: e.target == ProofNode(p.id)
    case ProofTestsVersion =>
      exists p <- all.proofs :: e.source == ProofNode(p.id) && e.target.VersionNode?
                                && VersionOf(e.target.ref, p.headSha, p.cardHash, p.image)
    case _ => false
  }

  /** Edges of grants, handoff runs, findings, receipts and sessions. */
  ghost predicate AuthorityEdgeHasRow(all: Rows, e: Edge)
  {
    match e.kind
    case AgentHasGrant =>
      FromAgent(all, e) && exists g <- all.grants :: g.audience == all.agentName && e.target == GrantNode(g.grantId)
    case GrantParentOf => exists g <- all.grants :: FromGrant(all, e, g.parentId) && e.target == GrantNode(g.grantId)
    case AgentHasSubagentRun =>
      FromAgent(all, e) && exists s <- all.subagents :: e.target == SubagentRunNode(s.grantId)
    case GrantAuthorizesSubagentRun =>
      exists s <- all.subagents :: e.source == GrantNode(s.grantId) && e.target == SubagentRunNode(s.grantId)
                                   && exists g <- all.grants :: g.grantId == s.grantId
    case SubagentRunHasEvent =>
      exists s <- all.subagents :: e.source == SubagentRunNode(s.grantId)
                                   && e.target.SubagentEventNode? && e.target.subagentEventRow in s.events
    case GrantAuthorizesProof => exists p <- all.proofs :: FromGrant(all, e, p.grantId) && e.target == ProofNode(p.id)
    case ReviewHasFinding =>
      exists r <- all.reviews :: && e.source == ReviewNode(r.reviewId) && e.target.FindingNode?
                                 && e.target.findingReview == r.reviewId && e.target.hash in r.findings
    case AgentHasReceipt => FromAgent(all, e) && e.target.ReceiptNode? && e.target.receiptId in all.receipts
    case AgentHasSession => FromAgent(all, e) && exists s <- all.sessions :: e.target == SessionNode(s.sessionId)
    case ReceiptHasSession =>
      exists s <- all.sessions :: && e.source == ReceiptNode(s.receiptId) && e.target == SessionNode(s.sessionId)
                                  && s.receiptId != "" && s.receiptId in all.receipts
    case _ => false
  }

  /** Edges of DAG nodes and trials. */
  ghost predicate DagEdgeHasRow(all: Rows, e: Edge)
  {
    match e.kind
    case AgentExecutedDagNode =>
      FromAgent(all, e) && exists n <- all.dagNodes :: e.target == DagNodeNode(n.runId, n.nodeId)
    case DagRunHasNode =>
      exists n <- all.dagNodes :: FromDagRun(all, e, n.runId) && e.target == DagNodeNode(n.runId, n.nodeId)
    case GrantAuthorizesDagNode =>
      exists n <- all.dagNodes :: FromGrant(all, e, n.grantId) && e.target == DagNodeNode(n.runId, n.nodeId)
    case DagNodeDependsOn =>
      exists n <- all.dagNodes :: exists m <- all.dagNodes ::
        && e.source == DagNodeNode(n.runId, n.nodeId) && e.target == DagNodeNode(m.runId, m.nodeId)
        && m.runId == n.runId && m.nodeId in n.deps
    case AgentHasTrial => FromAgent(all, e) && exists t <- all.trials :: e.target == TrialNode(t.id)
    case TrialRoomHasRun => exists t <- all.trials :: e.source == TrialRoomNode(t.room) && e.target == TrialNode(t.id)
    case GrantAuthorizesTrial => exists t <- all.trials :: FromGrant(all, e, t.grantId) && e.target == TrialNode(t.id)
    case _ => false
  }

  /** Edges of work jobs and their events. */
  ghost predicate JobEdgeHasRow(all: Rows, e: Edge)
  {
    match e.kind
    case AgentHasWorkJob => FromAgent(all, e) && exists j <- all.jobs :: e.target == WorkJobNode(j.jobId)
    case WorkJobParentOf =>
      exists j <- all.jobs :: && e.source == WorkJobNode(j.parentId) && e.target == WorkJobNode(j.jobId)
                              && j.parentId != "" && exists parent <- all.jobs :: parent.jobId == j.parentId
    case WorkJobHasEvent =>
      exists j <- all.jobs :: e.source == WorkJobNode(j.jobId) && exists w <- j.events ::
          e.target == WorkEventNode(w.eventId)
    case _ => false
  }

  /** Edges of mutations. */
  ghost predicate RefEdgeHasRow(all: Rows, e: Edge)
  {
    match e.kind
    case FindingTargetedBy(origin) =>
      exists refs, i: nat :: && Mutation(all, origin, e.target, refs)
                             && LastReviewWithFinding(all, refs.findingHash, Some(i))
                             && e.source == FindingNode(all.reviews[i].reviewId, refs.findingHash)
    case ReferencesReview(origin) =>
      exists refs :: && Mutation(all, origin, e.source, refs) && e.target == ReviewNode(refs.reviewId)
                     && refs.reviewId != "" && exists r <- all.reviews :: r.reviewId == refs.reviewId
    case ProducedVersion(origin) =>
      exists refs ::
          Mutation(all, origin, e.source, refs) && refs.headSha != "" && e.target == VersionNode(refs.headSha)
    case TriggeredDeployment(origin) =>
      exists refs, i: nat :: && Mutation(all, origin, e.source, refs) && LedTo(all, refs, Some(i))
                             && e.target == DeploymentNode(all.deployments[i].deployId)
    case _ => false
  }

  /** Edges of LLM usage. */
  ghost predicate UsageEdgeHasRow(all: Rows, e: Edge)
  {
    match e.kind
    case GrantHasLlmUsage => exists u <- all.usages :: FromGrant(all, e, u.grantId) && e.target == LlmUsageNode(u.id)
    case DagRunHasLlmUsage =>
      exists u <- all.usages :: u.dagRunId != "" && FromDagRun(all, e, u.dagRunId) && e.target == LlmUsageNode(u.id)
    case AgentHasLlmUsage =>
      FromAgent(all, e) && exists u <- all.usages :: u.agentName == all.agentName && e.target == LlmUsageNode(u.id)
    case AgentHasInferredLlmUsage =>
      FromAgent(all, e) && exists u <- all.usages :: Keyless(all, u) && e.target == LlmUsageNode(u.id)
    case _ => false
  }

  ghost predicate EdgeHasRow(all: Rows, e: Edge)
  {
    || VersionEdgeHasRow(all, e) || AuthorityEdgeHasRow(all, e) || DagEdgeHasRow(all, e)
    || JobEdgeHasRow(all, e) || RefEdgeHasRow(all, e) || UsageEdgeHasRow(all, e)
  }

  ghost predicate HasRow(all: Rows, x: Item)
  {
    match x
    case Node(id) => NodeHasRow(all, id)
    case Link(e) => EdgeHasRow(all, e)
  }

  // Every projected item has its row.

  lemma GatherHasRows<R(!new)>(all: Rows, rows: seq<R>, emits: R -> set<Item>)
    requires forall row <- rows, x <- emits(row) :: HasRow(all, x)
    ensures forall x <- Gather(rows, emits) :: HasRow(all, x)
  {
    hide HasRow;
  }

  lemma DeploymentHasRow(all: Rows, d: DeploymentRow, x: Item)
    requires d in all.deployments && x in DeploymentItems(all)(d)
    ensures HasRow(all, x)
  {
    hide AuthorityEdgeHasRow, DagEdgeHasRow, JobEdgeHasRow, RefEdgeHasRow, UsageEdgeHasRow;
    var node, events := DeploymentNode(d.deployId), DeploymentEvents(d.events);
    if x in EventItems(DeploymentHasEvent, node, events) {
      EventParts(DeploymentHasEvent, node, events, x);
      hide EventItems;
      var event := if x.Node? then x.id else x.edge.target;
      var i :| 0 <= i < |events| && events[i] == event;
      assert d.events[i] in d.events;
    } else {
      hide EventItems;
      assert FirstOf(d.headSha, d.image) != "" ==> VersionOf(FirstOf(d.headSha, d.image), d.headSha, d.image, "");
    }
  }

  lemma ReviewHasRow(all: Rows, r: ReviewRow, x: Item)
    requires r in all.reviews && x in ReviewItems(all)(r)
    ensures HasRow(all, x)
  {
    hide AuthorityEdgeHasRow, DagEdgeHasRow, JobEdgeHasRow, RefEdgeHasRow, UsageEdgeHasRow;
    if Linked(all, r) {
      var d :| d in all.deployments && d.deployId == r.deployId.value;
    }
  }

  lemma ProofHasRow(all: Rows, p: ProofRow, x: Item)
    requires p in all.proofs && x in ProofItems(all)(p)
    ensures HasRow(all, x)
  {
    hide AuthorityEdgeHasRow, DagEdgeHasRow, JobEdgeHasRow, RefEdgeHasRow, UsageEdgeHasRow;
    var ref := FirstOf(FirstOf(p.headSha, p.cardHash), p.image);
    assert ref != "" ==> VersionOf(ref, p.headSha, p.cardHash, p.image);
  }

  lemma GrantHasRow(all: Rows, g: GrantRow, x: Item)
    requires g in all.grants && x in GrantItems(all)(g)
    ensures HasRow(all, x)
  {
    hide VersionEdgeHasRow, DagEdgeHasRow, JobEdgeHasRow, RefEdgeHasRow, UsageEdgeHasRow;
  }

  lemma SubagentHasRow(all: Rows, s: SubagentRow, x: Item)
    requires s in all.subagents && x in SubagentItems(all)(s)
    ensures HasRow(all, x)
  {
    hide VersionEdgeHasRow, DagEdgeHasRow, JobEdgeHasRow, RefEdgeHasRow, UsageEdgeHasRow;
    var node, events := SubagentRunNode(s.grantId), SubagentEvents(s.events);
    if x in EventItems(SubagentRunHasEvent, node, events) {
      EventParts(SubagentRunHasEvent, node, events, x);
      hide EventItems;
      var event := if x.Node? then x.id else x.edge.target;
      var i :| 0 <= i < |events| && events[i] == event;
      assert s.events[i] in s.events;
    }
    hide EventItems;
  }

  lemma ProofGrantHasRow(all: Rows, p: ProofRow, x: Item)
    requires p in all.proofs && x in ProofGrantItems(all)(p)
    ensures HasRow(all, x)
  {
    hide VersionEdgeHasRow, DagEdgeHasRow, JobEdgeHasRow, RefEdgeHasRow, UsageEdgeHasRow;
  }

  lemma FindingHasRow(all: Rows, r: ReviewRow, x: Item)
    requires r in all.reviews && x in FindingItems()(r)
    ensures HasRow(all, x)
  {
    hide VersionEdgeHasRow, DagEdgeHasRow, JobEdgeHasRow, RefEdgeHasRow, UsageEdgeHasRow;
    EventParts(ReviewHasFinding, ReviewNode(r.reviewId), Findings(r), x);
    hide EventItems;
    var event := if x.Node? then x.id else x.edge.target;
    var i :| 0 <= i < |Findings(r)| && Findings(r)[i] == event;
    assert r.findings[i] in r.findings;
  }

  lemma ReceiptHasRow(all: Rows, receiptId: string, x: Item)
    requires receiptId in all.receipts && x in ReceiptItems(all)(receiptId)
    ensures HasRow(all, x)
  {
    hide VersionEdgeHasRow, DagEdgeHasRow, JobEdgeHasRow, RefEdgeHasRow, UsageEdgeHasRow;
  }

  lemma SessionHasRow(all: Rows, s: SessionRow, x: Item)
    requires s in all.sessions && x in SessionItems(all)(s)
    ensures HasRow(all, x)
  {
    hide VersionEdgeHasRow, DagEdgeHasRow, JobEdgeHasRow, RefEdgeHasRow, UsageEdgeHasRow;
  }

  lemma DagRunHasRow(all: Rows, runId: string, x: Item)
    requires runId in all.dagRuns && x in DagRunItems()(runId)
    ensures HasRow(all, x)
  {
    hide VersionEdgeHasRow, AuthorityEdgeHasRow, JobEdgeHasRow, RefEdgeHasRow, UsageEdgeHasRow;
  }

  lemma DagNodeHasRow(all: Rows, n: DagNodeRow, x: Item)
    requires n in all.dagNodes && x in DagNodeItems(all)(n)
    ensures HasRow(all, x)
  {
    hide VersionEdgeHasRow, AuthorityEdgeHasRow, JobEdgeHasRow, RefEdgeHasRow, UsageEdgeHasRow;
  }

  lemma DependencyHasRow(all: Rows, n: DagNodeRow, x: Item)
    requires n in all.dagNodes && x in DependencyItems(all)(n)
    ensures HasRow(all, x)
  {
    hide VersionEdgeHasRow, AuthorityEdgeHasRow, JobEdgeHasRow, RefEdgeHasRow, UsageEdgeHasRow;
    var dep :| dep in n.deps && IsDagNode(all, n.runId, dep)
               && x == Arrow(DagNodeDependsOn, DagNodeNode(n.runId, n.nodeId), DagNodeNode(n.runId, dep));
    var m :| m in all.dagNodes && m.runId == n.runId && m.nodeId == dep;
  }

  lemma TrialHasRow(all: Rows, t: TrialRow, x: Item)
    requires t in all.trials && x in TrialItems(all)(t)
    ensures HasRow(all, x)
  {
    hide VersionEdgeHasRow, AuthorityEdgeHasRow, JobEdgeHasRow, RefEdgeHasRow, UsageEdgeHasRow;
  }

  /** What a mutation calls for, one by one. */
  lemma RefCases(all: Rows, origin: Origin, source: NodeId, refs: MutationRefs, x: Item)
    requires x in RefItems(all, origin, source, refs)
    ensures
      || (Finding(all, refs).Some? && x == Link(Edge(FindingTargetedBy(origin), Finding(all, refs).value, source)))
      || (refs.reviewId != "" && IsReview(all, refs.reviewId)
          && x == Link(Edge(ReferencesReview(origin), source, ReviewNode(refs.reviewId))))
      || (refs.headSha != "" && x == Node(VersionNode(refs.headSha)))
      || (refs.headSha != "" && x == Link(Edge(ProducedVersion(origin), source, VersionNode(refs.headSha))))
      || (Triggered(all, refs).Some?
          && x == Link(Edge(TriggeredDeployment(origin), source, DeploymentNode(Triggered(all, refs).value))))
  {
    hide Finding, Triggered, IsReview;
  }

  lemma TargetedHasRow(all: Rows, origin: Origin, source: NodeId, refs: MutationRefs)
    requires Mutation(all, origin, source, refs) && Finding(all, refs).Some?
    ensures HasRow(all, Link(Edge(FindingTargetedBy(origin), Finding(all, refs).value, source)))
  {
    hide Mutation, Finding, Triggered, LastReviewWithFinding, LedTo,
         VersionEdgeHasRow, AuthorityEdgeHasRow, DagEdgeHasRow, JobEdgeHasRow, UsageEdgeHasRow;
    var f := FindingIsLast(all, refs);
    var d := TriggeredIsLast(all, refs);
    RemediationInRange(all, refs, f, d);
    assert LastReviewWithFinding(all, refs.findingHash, Some(f.value));
  }

  lemma ReferencedHasRow(all: Rows, origin: Origin, source: NodeId, refs: MutationRefs)
    requires Mutation(all, origin, source, refs) && refs.reviewId != "" && IsReview(all, refs.reviewId)
    ensures HasRow(all, Link(Edge(ReferencesReview(origin), source, ReviewNode(refs.reviewId))))
  {
    hide Mutation, Finding, Triggered, LastReviewWithFinding, LedTo,
         VersionEdgeHasRow, AuthorityEdgeHasRow, DagEdgeHasRow, JobEdgeHasRow, UsageEdgeHasRow;
  }

  lemma ProducedHasRow(all: Rows, origin: Origin, source: NodeId, refs: MutationRefs)
    requires Mutation(all, origin, source, refs) && refs.headSha != ""
    ensures HasRow(all, Node(VersionNode(refs.headSha)))
    ensures HasRow(all, Link(Edge(ProducedVersion(origin), source, VersionNode(refs.headSha))))
  {
    hide Mutation, Finding, Triggered, LastReviewWithFinding, LedTo,
         VersionEdgeHasRow, AuthorityEdgeHasRow, DagEdgeHasRow, JobEdgeHasRow, UsageEdgeHasRow;
  }

  lemma TriggeredHasRow(all: Rows, origin: Origin, source: NodeId, refs: MutationRefs)
    requires Mutation(all, origin, source, refs) && Triggered(all, refs).Some?
    ensures HasRow(all, Link(Edge(TriggeredDeployment(origin), source, DeploymentNode(Triggered(all, refs).value))))
  {
    hide Mutation, Finding, Triggered, LastReviewWithFinding, LedTo,
         VersionEdgeHasRow, AuthorityEdgeHasRow, DagEdgeHasRow, JobEdgeHasRow, UsageEdgeHasRow;
    var d := TriggeredIsLast(all, refs);
    var f := FindingIsLast(all, refs);
    RemediationInRange(all, refs, f, d);
    assert LedTo(all, refs, Some(d.value));
  }

  lemma RefHasRow(all: Rows, origin: Origin, source: NodeId, refs: MutationRefs, x: Item)
    requires Mutation(all, origin, source, refs) && x in RefItems(all, origin, source, refs)
    ensures HasRow(all, x)
  {
    hide *;
    RefCases(all, origin, source, refs, x);
    if Finding(all, refs).Some? { TargetedHasRow(all, origin, source, refs); }
    if refs.reviewId != "" && IsReview(all, refs.reviewId) { ReferencedHasRow(all, origin, source, refs); }
    if refs.headSha != "" { ProducedHasRow(all, origin, source, refs); }
    if Triggered(all, refs).Some? { TriggeredHasRow(all, origin, source, refs); }
  }

  lemma WorkEventHasRow(all: Rows, j: JobRow, e: WorkEventRow, x: Item)
    requires j in all.jobs && e in j.events && x in WorkEventItems(all, WorkJobNode(j.jobId))(e)
    ensures HasRow(all, x)
  {
    hide VersionEdgeHasRow, AuthorityEdgeHasRow, DagEdgeHasRow, RefEdgeHasRow, UsageEdgeHasRow;
    var source := WorkEventNode(e.eventId);
    assert Mutation(all, FromEvent, source, e.refs);
    if x in RefItems(all, FromEvent, source, e.refs) {
      hide RefItems, WorkEventItems, Mutation, HasRow;
      RefHasRow(all, FromEvent, source, e.refs, x);
    } else {
      hide RefItems, Mutation;
    }
  }

  lemma JobOwnHasRow(all: Rows, j: JobRow, x: Item)
    requires j in all.jobs && x in JobItems(all)(j)
    requires x !in RefItems(all, FromJob, WorkJobNode(j.jobId), j.refs)
    requires x !in Gather(j.events, WorkEventItems(all, WorkJobNode(j.jobId)))
    ensures HasRow(all, x)
  {
    hide VersionEdgeHasRow, AuthorityEdgeHasRow, DagEdgeHasRow, RefEdgeHasRow, UsageEdgeHasRow, RefItems, Gather;
  }

  lemma JobIsMutation(all: Rows, j: JobRow)
    requires j in all.jobs
    ensures Mutation(all, FromJob, WorkJobNode(j.jobId), j.refs)
  {}

  lemma JobHasRow(all: Rows, j: JobRow, x: Item)
    requires j in all.jobs && x in JobItems(all)(j)
    ensures HasRow(all, x)
  {
    hide *;
    var source := WorkJobNode(j.jobId);
    if x in RefItems(all, FromJob, source, j.refs) {
      JobIsMutation(all, j);
      RefHasRow(all, FromJob, source, j.refs, x);
    } else if x in Gather(j.events, WorkEventItems(all, source)) {
      var e := RowOf(j.events, WorkEventItems(all, source), x);
      WorkEventHasRow(all, j, e, x);
    } else {
      JobOwnHasRow(all, j, x);
    }
  }

  lemma UsageHasRow(all: Rows, u: UsageRow, x: Item)
    requires u in all.usages && x in UsageItems(all)(u)
    ensures HasRow(all, x)
  {
    hide VersionEdgeHasRow, AuthorityEdgeHasRow, DagEdgeHasRow, JobEdgeHasRow, RefEdgeHasRow;
  }

  lemma ProjectedHasRow(all: Rows, x: Item)
    requires x in Projection(all)
    ensures HasRow(all, x)
  {
    assert HasRow(all, Node(Root(all)));
    hide HasRow, Gather, DeploymentItems, ReviewItems, ProofItems, GrantItems, SubagentItems, ProofGrantItems,
         FindingItems,
         ReceiptItems, SessionItems, DagRunItems, DagNodeItems, DependencyItems, TrialItems, JobItems, UsageItems;
    forall d <- all.deployments, y <- DeploymentItems(all)(d) ensures HasRow(all, y) { DeploymentHasRow(all, d, y); }
    GatherHasRows(all, all.deployments, DeploymentItems(all));
    forall r <- all.reviews, y <- ReviewItems(all)(r) ensures HasRow(all, y) { ReviewHasRow(all, r, y); }
    GatherHasRows(all, all.reviews, ReviewItems(all));
    forall p <- all.proofs, y <- ProofItems(all)(p) ensures HasRow(all, y) { ProofHasRow(all, p, y); }
    GatherHasRows(all, all.proofs, ProofItems(all));
    forall g <- all.grants, y <- GrantItems(all)(g) ensures HasRow(all, y) { GrantHasRow(all, g, y); }
    GatherHasRows(all, all.grants, GrantItems(all));
    forall s <- all.subagents, y <- SubagentItems(all)(s) ensures HasRow(all, y) { SubagentHasRow(all, s, y); }
    GatherHasRows(all, all.subagents, SubagentItems(all));
    forall p <- all.proofs, y <- ProofGrantItems(all)(p) ensures HasRow(all, y) { ProofGrantHasRow(all, p, y); }
    GatherHasRows(all, all.proofs, ProofGrantItems(all));
    forall r <- all.reviews, y <- FindingItems()(r) ensures HasRow(all, y) { FindingHasRow(all, r, y); }
    GatherHasRows(all, all.reviews, FindingItems());
    forall id <- all.receipts, y <- ReceiptItems(all)(id) ensures HasRow(all, y) { ReceiptHasRow(all, id, y); }
    GatherHasRows(all, all.receipts, ReceiptItems(all));
    forall s <- all.sessions, y <- SessionItems(all)(s) ensures HasRow(all, y) { SessionHasRow(all, s, y); }
    GatherHasRows(all, all.sessions, SessionItems(all));
    WorkPartHasRows(all);
  }

  lemma WorkPartHasRows(all: Rows)
    ensures forall x <- WorkPart(all) :: HasRow(all, x)
  {
    hide HasRow, Gather, DagRunItems, DagNodeItems, DependencyItems, TrialItems, JobItems, UsageItems;
    forall id <- all.dagRuns, y <- DagRunItems()(id) ensures HasRow(all, y) { DagRunHasRow(all, id, y); }
    GatherHasRows(all, all.dagRuns, DagRunItems());
    forall n <- all.dagNodes, y <- DagNodeItems(all)(n) ensures HasRow(all, y) { DagNodeHasRow(all, n, y); }
    GatherHasRows(all, all.dagNodes, DagNodeItems(all));
    forall n <- all.dagNodes, y <- DependencyItems(all)(n) ensures HasRow(all, y) { DependencyHasRow(all, n, y); }
    GatherHasRows(all, all.dagNodes, DependencyItems(all));
    forall t <- all.trials, y <- TrialItems(all)(t) ensures HasRow(all, y) { TrialHasRow(all, t, y); }
    GatherHasRows(all, all.trials, TrialItems(all));
    forall j <- all.jobs, y <- JobItems(all)(j) ensures HasRow(all, y) { JobHasRow(all, j, y); }
    GatherHasRows(all, all.jobs, JobItems(all));
    forall u <- all.usages, y <- UsageItems(all)(u) ensures HasRow(all, y) { UsageHasRow(all, u, y); }
    GatherHasRows(all, all.usages, UsageItems(all));
  }

  // And everything that has a row is projected.

  lemma DeploymentProjects(all: Rows, row: DeploymentRow, x: Item)
    requires row in all.deployments && x in DeploymentItems(all)(row)
    ensures x in Projection(all)
  {
    CoversVersions(all);
    PartsCover(all);
    hide Projection, VersionPart, ExecutionPart, WorkPart, DeploymentItems;
  }

  lemma ReviewProjects(all: Rows, row: ReviewRow, x: Item)
    requires row in all.reviews && x in ReviewItems(all)(row)
    ensures x in Projection(all)
  {
    CoversVersions(all);
    PartsCover(all);
    hide Projection, VersionPart, ExecutionPart, WorkPart, ReviewItems;
  }

  lemma ProofProjects(all: Rows, row: ProofRow, x: Item)
    requires row in all.proofs && x in ProofItems(all)(row)
    ensures x in Projection(all)
  {
    CoversVersions(all);
    PartsCover(all);
    hide Projection, VersionPart, ExecutionPart, WorkPart, ProofItems;
  }

  lemma GrantProjects(all: Rows, row: GrantRow, x: Item)
    requires row in all.grants && x in GrantItems(all)(row)
    ensures x in Projection(all)
  {
    CoversExecution(all);
    PartsCover(all);
    hide Projection, VersionPart, ExecutionPart, WorkPart, GrantItems;
  }

  lemma SubagentProjects(all: Rows, row: SubagentRow, x: Item)
    requires row in all.subagents && x in SubagentItems(all)(row)
    ensures x in Projection(all)
  {
    CoversExecution(all);
    PartsCover(all);
    hide Projection, VersionPart, ExecutionPart, WorkPart, SubagentItems;
  }

  lemma ProofGrantProjects(all: Rows, row: ProofRow, x: Item)
    requires row in all.proofs && x in ProofGrantItems(all)(row)
    ensures x in Projection(all)
  {
    CoversExecution(all);
    PartsCover(all);
    hide Projection, VersionPart, ExecutionPart, WorkPart, ProofGrantItems;
  }

  lemma FindingProjects(all: Rows, row: ReviewRow, x: Item)
    requires row in all.reviews && x in FindingItems()(row)
    ensures x in Projection(all)
  {
    CoversExecution(all);
    PartsCover(all);
    hide Projection, VersionPart, ExecutionPart, WorkPart, FindingItems;
  }

  lemma ReceiptProjects(all: Rows, row: string, x: Item)
    requires row in all.receipts && x in ReceiptItems(all)(row)
    ensures x in Projection(all)
  {
    CoversExecution(all);
    PartsCover(all);
    hide Projection, VersionPart, ExecutionPart, WorkPart, ReceiptItems;
  }

  lemma SessionProjects(all: Rows, row: SessionRow, x: Item)
    requires row in all.sessions && x in SessionItems(all)(row)
    ensures x in Projection(all)
  {
    CoversExecution(all);
    PartsCover(all);
    hide Projection, VersionPart, ExecutionPart, WorkPart, SessionItems;
  }

  lemma DagRunProjects(all: Rows, row: string, x: Item)
    requires row in all.dagRuns && x in DagRunItems()(row)
    ensures x in Projection(all)
  {
    CoversWork(all);
    PartsCover(all);
    hide Projection, VersionPart, ExecutionPart, WorkPart, DagRunItems;
  }

  lemma DagNodeProjects(all: Rows, row: DagNodeRow, x: Item)
    requires row in all.dagNodes && x in DagNodeItems(all)(row)
    ensures x in Projection(all)
  {
    CoversWork(all);
    PartsCover(all);
    hide Projection, VersionPart, ExecutionPart, WorkPart, DagNodeItems;
  }

  lemma DependencyProjects(all: Rows, row: DagNodeRow, x: Item)
    requires row in all.dagNodes && x in DependencyItems(all)(row)
    ensures x in Projection(all)
  {
    CoversWork(all);
    PartsCover(all);
    hide Projection, VersionPart, ExecutionPart, WorkPart, DependencyItems;
  }

  lemma TrialProjects(all: Rows, row: TrialRow, x: Item)
    requires row in all.trials && x in TrialItems(all)(row)
    ensures x in Projection(all)
  {
    CoversWork(all);
    PartsCover(all);
    hide Projection, VersionPart, ExecutionPart, WorkPart, TrialItems;
  }

  lemma JobProjects(all: Rows, row: JobRow, x: Item)
    requires row in all.jobs && x in JobItems(all)(row)
    ensures x in Projection(all)
  {
    CoversWork(all);
    PartsCover(all);
    hide Projection, VersionPart, ExecutionPart, WorkPart, JobItems;
  }

  lemma UsageProjects(all: Rows, row: UsageRow, x: Item)
    requires row in all.usages && x in UsageItems(all)(row)
    ensures x in Projection(all)
  {
    CoversWork(all);
    PartsCover(all);
    hide Projection, VersionPart, ExecutionPart, WorkPart, UsageItems;
  }

  lemma MutationProjects(all: Rows, origin: Origin, source: NodeId, refs: MutationRefs, x: Item)
    requires Mutation(all, origin, source, refs) && x in RefItems(all, origin, source, refs)
    ensures x in Projection(all)
  {
    hide Projection;
    if origin == FromJob {
      var j :| j in all.jobs && source == WorkJobNode(j.jobId) && refs == j.refs;
      assert x in JobItems(all)(j) by { hide RefItems, Gather; }
      JobProjects(all, j, x);
    } else {
      var j :| j in all.jobs && exists e <- j.events :: source == WorkEventNode(e.eventId) && refs == e.refs;
      var e :| e in j.events && source == WorkEventNode(e.eventId) && refs == e.refs;
      assert x in WorkEventItems(all, WorkJobNode(j.jobId))(e) by { hide RefItems; }
      WorkEventProjects(all, j, e, x);
    }
  }

  lemma WorkEventProjects(all: Rows, j: JobRow, e: WorkEventRow, x: Item)
    requires j in all.jobs && e in j.events && x in WorkEventItems(all, WorkJobNode(j.jobId))(e)
    ensures x in Projection(all)
  {
    hide Projection, WorkEventItems;
    GatherHas(j.events, e, WorkEventItems(all, WorkJobNode(j.jobId)));
    assert x in JobItems(all)(j) by { hide RefItems, Gather; }
    hide JobItems;
    JobProjects(all, j, x);
  }

  lemma DeploymentEventIsItem(all: Rows, d: DeploymentRow, row: int)
    requires row in d.events
    ensures Node(DeploymentEventNode(row)) in DeploymentItems(all)(d)
    ensures Arrow(DeploymentHasEvent, DeploymentNode(d.deployId), DeploymentEventNode(row)) in DeploymentItems(all)(d)
  {
    var i :| 0 <= i < |d.events| && d.events[i] == row;
    assert DeploymentEvents(d.events)[i] == DeploymentEventNode(row);
  }

  lemma SubagentEventIsItem(all: Rows, s: SubagentRow, row: int)
    requires row in s.events
    ensures Node(SubagentEventNode(row)) in SubagentItems(all)(s)
    ensures Arrow(SubagentRunHasEvent, SubagentRunNode(s.grantId), SubagentEventNode(row)) in SubagentItems(all)(s)
  {
    hide IsGrant;
    var i :| 0 <= i < |s.events| && s.events[i] == row;
    assert SubagentEvents(s.events)[i] == SubagentEventNode(row);
  }

  lemma FindingIsItem(r: ReviewRow, hash: string)
    requires hash in r.findings
    ensures Node(FindingNode(r.reviewId, hash)) in FindingItems()(r)
    ensures Arrow(ReviewHasFinding, ReviewNode(r.reviewId), FindingNode(r.reviewId, hash)) in FindingItems()(r)
  {
    var i :| 0 <= i < |r.findings| && r.findings[i] == hash;
    assert Findings(r)[i] == FindingNode(r.reviewId, hash);
  }

  lemma DeploymentVersionIsItem(all: Rows, d: DeploymentRow, ref: string)
    requires VersionOf(ref, d.headSha, d.image, "")
    ensures Node(VersionNode(ref)) in DeploymentItems(all)(d)
    ensures Arrow(DeploymentDeploysVersion, DeploymentNode(d.deployId), VersionNode(ref)) in DeploymentItems(all)(d)
  {
    hide EventItems;
  }

  lemma ProofVersionIsItem(all: Rows, p: ProofRow, ref: string)
    requires VersionOf(ref, p.headSha, p.cardHash, p.image)
    ensures Node(VersionNode(ref)) in ProofItems(all)(p)
    ensures Arrow(ProofTestsVersion, ProofNode(p.id), VersionNode(ref)) in ProofItems(all)(p)
  {}

  lemma NodeProjects(all: Rows, id: NodeId)
    requires NodeHasRow(all, id)
    ensures Node(id) in Projection(all)
  {
    hide Projection;
    match id
    case AgentNode(_) => HasRoot(all);
    case VersionNode(ref) => VersionProjects(all, ref);
    case DeploymentNode(deployId) => HasDeployment(all, deployId);
    case DeploymentEventNode(row) =>
      var d :| d in all.deployments && row in d.events;
      DeploymentEventIsItem(all, d, row);
      hide DeploymentItems;
      DeploymentProjects(all, d, Node(id));
    case ReviewNode(reviewId) =>
      var r :| r in all.reviews && r.reviewId == reviewId;
      HasReview(all, r);
    case ProofNode(row) =>
      var p :| p in all.proofs && p.id == row;
      HasProof(all, p);
    case FindingNode(reviewId, hash) =>
      var r :| r in all.reviews && r.reviewId == reviewId && hash in r.findings;
      FindingIsItem(r, hash);
      hide FindingItems;
      FindingProjects(all, r, Node(id));
    case GrantNode(grantId) => HasGrant(all, grantId);
    case ReceiptNode(receiptId) => HasReceipt(all, receiptId);
    case DagRunNode(runId) => HasDagRun(all, runId);
    case DagNodeNode(runId, nodeId) => HasDagNode(all, runId, nodeId);
    case WorkJobNode(jobId) => HasJob(all, jobId);
    case _ => OtherNodeProjects(all, id);
  }

  lemma VersionProjects(all: Rows, ref: string)
    requires NodeHasRow(all, VersionNode(ref))
    ensures Node(VersionNode(ref)) in Projection(all)
  {
    hide Projection, VersionOf, Mutation;
    if d :| d in all.deployments && VersionOf(ref, d.headSha, d.image, "") {
      DeploymentVersionIsItem(all, d, ref);
      hide DeploymentItems;
      DeploymentProjects(all, d, Node(VersionNode(ref)));
    } else if p :| p in all.proofs && VersionOf(ref, p.headSha, p.cardHash, p.image) {
      ProofVersionIsItem(all, p, ref);
      hide ProofItems;
      ProofProjects(all, p, Node(VersionNode(ref)));
    } else {
      var origin, source, refs :| Mutation(all, origin, source, refs) && refs.headSha == ref;
      assert Node(VersionNode(ref)) in RefItems(all, origin, source, refs) by { hide Finding, Triggered, IsReview; }
      hide RefItems;
      MutationProjects(all, origin, source, refs, Node(VersionNode(ref)));
    }
  }

  lemma OtherNodeProjects(all: Rows, id: NodeId)
    requires id.SubagentRunNode? || id.SubagentEventNode? || id.SessionNode? || id.TrialNode? || id.TrialRoomNode?
             || id.WorkEventNode? || id.LlmUsageNode?
    requires NodeHasRow(all, id)
    ensures Node(id) in Projection(all)
  {
    hide Projection, IsGrant, EventItems;
    match id
    case SubagentRunNode(grantId) =>
      var s :| s in all.subagents && s.grantId == grantId;
      SubagentProjects(all, s, Node(id));
    case SubagentEventNode(row) =>
      var s :| s in all.subagents && row in s.events;
      SubagentEventIsItem(all, s, row);
      hide SubagentItems;
      SubagentProjects(all, s, Node(id));
    case SessionNode(sessionId) =>
      var s :| s in all.sessions && s.sessionId == sessionId;
      SessionProjects(all, s, Node(id));
    case TrialNode(row) =>
      var t :| t in all.trials && t.id == row;
      TrialProjects(all, t, Node(id));
    case TrialRoomNode(slug) =>
      var t :| t in all.trials && t.room == slug;
      TrialProjects(all, t, Node(id));
    case WorkEventNode(eventId) =>
      var j :| j in all.jobs && exists e <- j.events :: e.eventId == eventId;
      var e :| e in j.events && e.eventId == eventId;
      assert Node(id) in WorkEventItems(all, WorkJobNode(j.jobId))(e) by { hide RefItems; }
      hide WorkEventItems;
      WorkEventProjects(all, j, e, Node(id));
    case LlmUsageNode(row) =>
      var u :| u in all.usages && u.id == row;
      UsageProjects(all, u, Node(id));
  }

  lemma VersionEdgeProjects(all: Rows, e: Edge)
    requires VersionEdgeHasRow(all, e)
    ensures Link(e) in Projection(all)
  {
    hide Projection, EventItems, VersionOf;
    match e.kind
    case AgentHasDeployment =>
      var d :| d in all.deployments && e.target == DeploymentNode(d.deployId);
      DeploymentProjects(all, d, Link(e));
    case DeploymentDeploysVersion =>
      var d :| d in all.deployments && e.source == DeploymentNode(d.deployId)
               && VersionOf(e.target.ref, d.headSha, d.image, "");
      DeploymentVersionIsItem(all, d, e.target.ref);
      hide DeploymentItems;
      DeploymentProjects(all, d, Link(e));
    case DeploymentHasEvent =>
      var d :| d in all.deployments && e.source == DeploymentNode(d.deployId) && e.target.eventRow in d.events;
      DeploymentEventIsItem(all, d, e.target.eventRow);
      hide DeploymentItems;
      DeploymentProjects(all, d, Link(e));
    case DeploymentReviewedBy =>
      var r :| r in all.reviews && exists d <- all.deployments ::
                 && e.source == DeploymentNode(d.deployId) && e.target == ReviewNode(r.reviewId)
                 && d.deployId != "" && r.deployId == Some(d.deployId);
      ReviewProjects(all, r, Link(e));
    case AgentHasProof =>
      var p :| p in all.proofs && e.target == ProofNode(p.id);
      ProofProjects(all, p, Link(e));
    case ProofTestsVersion =>
      var p :| p in all.proofs && e.source == ProofNode(p.id)
          && VersionOf(e.target.ref, p.headSha, p.cardHash, p.image);
      ProofVersionIsItem(all, p, e.target.ref);
      hide ProofItems;
      ProofProjects(all, p, Link(e));
  }

  lemma AuthorityEdgeProjects(all: Rows, e: Edge)
    requires AuthorityEdgeHasRow(all, e)
    ensures Link(e) in Projection(all)
  {
    hide Projection, EventItems;
    match e.kind
    case AgentHasGrant =>
      var g :| g in all.grants && g.audience == all.agentName && e.target == GrantNode(g.grantId);
      hide ByGrant;
      GrantProjects(all, g, Link(e));
    case GrantParentOf =>
      var g :| g in all.grants && FromGrant(all, e, g.parentId) && e.target == GrantNode(g.grantId);
      GrantProjects(all, g, Link(e));
    case AgentHasSubagentRun =>
      var s :| s in all.subagents && e.target == SubagentRunNode(s.grantId);
      hide IsGrant;
      SubagentProjects(all, s, Link(e));
    case GrantAuthorizesSubagentRun =>
      var s :| s in all.subagents && e.source == GrantNode(s.grantId) && e.target == SubagentRunNode(s.grantId);
      SubagentProjects(all, s, Link(e));
    case SubagentRunHasEvent =>
      var s :| s in all.subagents && e.source == SubagentRunNode(s.grantId) && e.target.subagentEventRow in s.events;
      SubagentEventIsItem(all, s, e.target.subagentEventRow);
      hide SubagentItems;
      SubagentProjects(all, s, Link(e));
    case _ => OtherAuthorityEdgeProjects(all, e);
  }

  lemma OtherAuthorityEdgeProjects(all: Rows, e: Edge)
    requires AuthorityEdgeHasRow(all, e) && !e.kind.AgentHasGrant? && !e.kind.GrantParentOf?
    requires !e.kind.AgentHasSubagentRun? && !e.kind.GrantAuthorizesSubagentRun? && !e.kind.SubagentRunHasEvent?
    ensures Link(e) in Projection(all)
  {
    hide Projection, EventItems;
    match e.kind
    case GrantAuthorizesProof =>
      var p :| p in all.proofs && FromGrant(all, e, p.grantId) && e.target == ProofNode(p.id);
      ProofGrantProjects(all, p, Link(e));
    case ReviewHasFinding =>
      var r :| r in all.reviews && e.source == ReviewNode(r.reviewId) && e.target.findingReview == r.reviewId
               && e.target.hash in r.findings;
      FindingIsItem(r, e.target.hash);
      hide FindingItems;
      FindingProjects(all, r, Link(e));
    case AgentHasReceipt => ReceiptProjects(all, e.target.receiptId, Link(e));
    case AgentHasSession =>
      var s :| s in all.sessions && e.target == SessionNode(s.sessionId);
      SessionProjects(all, s, Link(e));
    case ReceiptHasSession =>
      var s :| s in all.sessions && e.source == ReceiptNode(s.receiptId) && e.target == SessionNode(s.sessionId)
               && s.receiptId != "" && s.receiptId in all.receipts;
      SessionProjects(all, s, Link(e));
  }

  lemma DagEdgeProjects(all: Rows, e: Edge)
    requires DagEdgeHasRow(all, e)
    ensures Link(e) in Projection(all)
  {
    hide Projection;
    match e.kind
    case AgentExecutedDagNode =>
      var n :| n in all.dagNodes && e.target == DagNodeNode(n.runId, n.nodeId);
      hide ByGrant;
      DagNodeProjects(all, n, Link(e));
    case DagRunHasNode =>
      var n :| n in all.dagNodes && FromDagRun(all, e, n.runId) && e.target == DagNodeNode(n.runId, n.nodeId);
      hide ByGrant;
      DagNodeProjects(all, n, Link(e));
    case GrantAuthorizesDagNode =>
      var n :| n in all.dagNodes && FromGrant(all, e, n.grantId) && e.target == DagNodeNode(n.runId, n.nodeId);
      DagNodeProjects(all, n, Link(e));
    case DagNodeDependsOn =>
      var n :| n in all.dagNodes && exists m <- all.dagNodes ::
                 && e.source == DagNodeNode(n.runId, n.nodeId) && e.target == DagNodeNode(m.runId, m.nodeId)
                 && m.runId == n.runId && m.nodeId in n.deps;
      DependencyProjects(all, n, Link(e));
    case AgentHasTrial =>
      var t :| t in all.trials && e.target == TrialNode(t.id);
      hide ByGrant;
      TrialProjects(all, t, Link(e));
    case TrialRoomHasRun =>
      var t :| t in all.trials && e.source == TrialRoomNode(t.room) && e.target == TrialNode(t.id);
      hide ByGrant;
      TrialProjects(all, t, Link(e));
    case GrantAuthorizesTrial =>
      var t :| t in all.trials && FromGrant(all, e, t.grantId) && e.target == TrialNode(t.id);
      TrialProjects(all, t, Link(e));
  }

  lemma JobEdgeProjects(all: Rows, e: Edge)
    requires JobEdgeHasRow(all, e)
    ensures Link(e) in Projection(all)
  {
    hide Projection, RefItems, Gather;
    match e.kind
    case AgentHasWorkJob =>
      var j :| j in all.jobs && e.target == WorkJobNode(j.jobId);
      JobProjects(all, j, Link(e));
    case WorkJobParentOf =>
      var j :| j in all.jobs && e.source == WorkJobNode(j.parentId) && e.target == WorkJobNode(j.jobId)
               && j.parentId != "" && exists parent <- all.jobs :: parent.jobId == j.parentId;
      JobProjects(all, j, Link(e));
    case WorkJobHasEvent =>
      var j :| j in all.jobs && e.source == WorkJobNode(j.jobId)
               && exists w <- j.events :: e.target == WorkEventNode(w.eventId);
      var w :| w in j.events && e.target == WorkEventNode(w.eventId);
      WorkEventProjects(all, j, w, Link(e));
  }

  lemma RefEdgeProjects(all: Rows, e: Edge)
    requires RefEdgeHasRow(all, e)
    ensures Link(e) in Projection(all)
  {
    hide Projection, Mutation, Finding, Triggered;
    match e.kind
    case FindingTargetedBy(origin) =>
      var refs, i: nat :| && Mutation(all, origin, e.target, refs)
                          && LastReviewWithFinding(all, refs.findingHash, Some(i))
                          && e.source == FindingNode(all.reviews[i].reviewId, refs.findingHash);
      FindingIsThatOne(all, refs, i);
      MutationProjects(all, origin, e.target, refs, Link(e));
    case ReferencesReview(origin) =>
      var refs :| && Mutation(all, origin, e.source, refs) && e.target == ReviewNode(refs.reviewId)
                  && refs.reviewId != "" && exists r <- all.reviews :: r.reviewId == refs.reviewId;
      MutationProjects(all, origin, e.source, refs, Link(e));
    case ProducedVersion(origin) =>
      var refs :| Mutation(all, origin, e.source, refs) && refs.headSha != "" && e.target == VersionNode(refs.headSha);
      MutationProjects(all, origin, e.source, refs, Link(e));
    case TriggeredDeployment(origin) =>
      var refs, i: nat :| && Mutation(all, origin, e.source, refs) && LedTo(all, refs, Some(i))
                          && e.target == DeploymentNode(all.deployments[i].deployId);
      DeploymentIsThatOne(all, refs, i);
      MutationProjects(all, origin, e.source, refs, Link(e));
  }

  /** Only one position is the last. */
  lemma FindingIsThatOne(all: Rows, refs: MutationRefs, i: nat)
    requires LastReviewWithFinding(all, refs.findingHash, Some(i))
    ensures Finding(all, refs) == Some(FindingNode(all.reviews[i].reviewId, refs.findingHash))
  {
    var at := FindingIsLast(all, refs);
    assert all.reviews[i] in all.reviews;
    hide Finding;
  }

  lemma DeploymentIsThatOne(all: Rows, refs: MutationRefs, i: nat)
    requires LedTo(all, refs, Some(i))
    ensures Triggered(all, refs) == Some(all.deployments[i].deployId)
  {
    var at := TriggeredIsLast(all, refs);
    assert all.deployments[i] in all.deployments;
    hide Triggered;
  }

  lemma UsageEdgeProjects(all: Rows, e: Edge)
    requires UsageEdgeHasRow(all, e)
    ensures Link(e) in Projection(all)
  {
    hide Projection;
    match e.kind
    case GrantHasLlmUsage =>
      var u :| u in all.usages && FromGrant(all, e, u.grantId) && e.target == LlmUsageNode(u.id);
      UsageProjects(all, u, Link(e));
    case DagRunHasLlmUsage =>
      var u :| u in all.usages && u.dagRunId != "" && FromDagRun(all, e, u.dagRunId) && e.target == LlmUsageNode(u.id);
      UsageProjects(all, u, Link(e));
    case AgentHasLlmUsage =>
      var u :| u in all.usages && u.agentName == all.agentName && e.target == LlmUsageNode(u.id);
      UsageProjects(all, u, Link(e));
    case AgentHasInferredLlmUsage =>
      var u :| u in all.usages && Keyless(all, u) && e.target == LlmUsageNode(u.id);
      UsageProjects(all, u, Link(e));
  }

  /** An item is projected exactly when it has its row, whatever the rows. */
  lemma ProjectedExactlyWhen(all: Rows, x: Item)
    ensures x in Projection(all) <==> HasRow(all, x)
  {
    if x in Projection(all) {
      hide Projection, HasRow;
      ProjectedHasRow(all, x);
    }
    if HasRow(all, x) {
      hide Projection, NodeHasRow, VersionEdgeHasRow, AuthorityEdgeHasRow, DagEdgeHasRow, JobEdgeHasRow, RefEdgeHasRow,
           UsageEdgeHasRow;
      match x
      case Node(id) => NodeProjects(all, id);
      case Link(e) =>
        if VersionEdgeHasRow(all, e) { VersionEdgeProjects(all, e); }
        if AuthorityEdgeHasRow(all, e) { AuthorityEdgeProjects(all, e); }
        if DagEdgeHasRow(all, e) { DagEdgeProjects(all, e); }
        if JobEdgeHasRow(all, e) { JobEdgeProjects(all, e); }
        if RefEdgeHasRow(all, e) { RefEdgeProjects(all, e); }
        if UsageEdgeHasRow(all, e) { UsageEdgeProjects(all, e); }
    }
  }
}
