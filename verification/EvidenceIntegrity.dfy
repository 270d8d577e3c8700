/** Referential integrity of the projected graph: every edge has both its ends. */
module EvidenceIntegrity {
  import opened Common
  import opened EvidenceRows
  import opened EvidenceProjection
  import opened EvidenceKeys

  /** Where each list's items end up. */
  lemma Covers(all: Rows)
    ensures Node(Root(all)) in Projection(all)
    ensures forall d <- all.deployments :: DeploymentItems(all)(d) <= Projection(all)
    ensures forall r <- all.reviews :: ReviewItems(all)(r) <= Projection(all)
    ensures forall p <- all.proofs :: ProofItems(all)(p) <= Projection(all)
    ensures forall r <- all.reviews :: FindingItems()(r) <= Projection(all)
  {
    CoversVersions(all);
    CoversExecution(all);
    hide VersionPart, ExecutionPart, WorkPart, Gather, DeploymentItems, ReviewItems, ProofItems, FindingItems;
  }

  lemma PartsCover(all: Rows)
    ensures VersionPart(all) <= Projection(all) && ExecutionPart(all) <= Projection(all)
            && WorkPart(all) <= Projection(all)
  {
    hide VersionPart, ExecutionPart, WorkPart;
  }

  lemma CoversVersions(all: Rows)
    ensures Node(Root(all)) in VersionPart(all)
    ensures forall d <- all.deployments :: DeploymentItems(all)(d) <= VersionPart(all)
    ensures forall r <- all.reviews :: ReviewItems(all)(r) <= VersionPart(all)
    ensures forall p <- all.proofs :: ProofItems(all)(p) <= VersionPart(all)
  {
    hide Gather, DeploymentItems, ReviewItems, ProofItems;
    forall d <- all.deployments
        ensures DeploymentItems(all)(d) <= VersionPart(all) { GatherHas(all.deployments, d, DeploymentItems(all)); }
    forall r <- all.reviews
        ensures ReviewItems(all)(r) <= VersionPart(all) { GatherHas(all.reviews, r, ReviewItems(all)); }
    forall p <- all.proofs ensures ProofItems(all)(p) <= VersionPart(all) { GatherHas(all.proofs, p, ProofItems(all)); }
  }

  lemma CoversExecution(all: Rows)
    ensures forall g <- all.grants :: GrantItems(all)(g) <= ExecutionPart(all)
    ensures forall s <- all.subagents :: SubagentItems(all)(s) <= ExecutionPart(all)
    ensures forall p <- all.proofs :: ProofGrantItems(all)(p) <= ExecutionPart(all)
    ensures forall r <- all.reviews :: FindingItems()(r) <= ExecutionPart(all)
    ensures forall id <- all.receipts :: ReceiptItems(all)(id) <= ExecutionPart(all)
    ensures forall s <- all.sessions :: SessionItems(all)(s) <= ExecutionPart(all)
  {
    hide Gather, GrantItems, SubagentItems, ProofGrantItems, FindingItems, ReceiptItems, SessionItems;
    forall g <- all.grants
        ensures GrantItems(all)(g) <= ExecutionPart(all) { GatherHas(all.grants, g, GrantItems(all)); }
    forall s <- all.subagents
        ensures SubagentItems(all)(s) <= ExecutionPart(all) { GatherHas(all.subagents, s, SubagentItems(all)); }
    forall p <- all.proofs
        ensures ProofGrantItems(all)(p) <= ExecutionPart(all) { GatherHas(all.proofs, p, ProofGrantItems(all)); }
    forall r <- all.reviews
        ensures FindingItems()(r) <= ExecutionPart(all) { GatherHas(all.reviews, r, FindingItems()); }
    forall id <- all.receipts
        ensures ReceiptItems(all)(id) <= ExecutionPart(all) { GatherHas(all.receipts, id, ReceiptItems(all)); }
    forall s <- all.sessions
        ensures SessionItems(all)(s) <= ExecutionPart(all) { GatherHas(all.sessions, s, SessionItems(all)); }
  }

  lemma CoversWork(all: Rows)
    ensures forall id <- all.dagRuns :: DagRunItems()(id) <= WorkPart(all)
    ensures forall n <- all.dagNodes :: DagNodeItems(all)(n) <= WorkPart(all)
    ensures forall n <- all.dagNodes :: DependencyItems(all)(n) <= WorkPart(all)
    ensures forall t <- all.trials :: TrialItems(all)(t) <= WorkPart(all)
    ensures forall j <- all.jobs :: JobItems(all)(j) <= WorkPart(all)
    ensures forall u <- all.usages :: UsageItems(all)(u) <= WorkPart(all)
  {
    hide Gather, DagRunItems, DagNodeItems, DependencyItems, TrialItems, JobItems, UsageItems;
    forall id <- all.dagRuns ensures DagRunItems()(id) <= WorkPart(all) { GatherHas(all.dagRuns, id, DagRunItems()); }
    forall n <- all.dagNodes
        ensures DagNodeItems(all)(n) <= WorkPart(all) { GatherHas(all.dagNodes, n, DagNodeItems(all)); }
    forall n <- all.dagNodes
        ensures DependencyItems(all)(n) <= WorkPart(all) { GatherHas(all.dagNodes, n, DependencyItems(all)); }
    forall t <- all.trials ensures TrialItems(all)(t) <= WorkPart(all) { GatherHas(all.trials, t, TrialItems(all)); }
    forall j <- all.jobs ensures JobItems(all)(j) <= WorkPart(all) { GatherHas(all.jobs, j, JobItems(all)); }
    forall u <- all.usages ensures UsageItems(all)(u) <= WorkPart(all) { GatherHas(all.usages, u, UsageItems(all)); }
  }

  // The nodes other rows point to.

  ghost predicate Has(all: Rows, id: NodeId)
  {
    Node(id) in Projection(all)
  }

  lemma HasRoot(all: Rows)
    ensures Has(all, Root(all))
  {
    Covers(all);
  }

  lemma HasDeployment(all: Rows, deployId: string)
    requires IsDeployment(all, deployId)
    ensures Has(all, DeploymentNode(deployId))
  {
    var d :| d in all.deployments && d.deployId == deployId;
    CoversVersions(all);
    assert Node(DeploymentNode(deployId)) in DeploymentItems(all)(d);
    hide VersionPart, ExecutionPart, WorkPart, DeploymentItems;
  }

  lemma HasReview(all: Rows, r: ReviewRow)
    requires r in all.reviews
    ensures Has(all, ReviewNode(r.reviewId))
  {
    CoversVersions(all);
    assert Node(ReviewNode(r.reviewId)) in ReviewItems(all)(r);
    hide VersionPart, ExecutionPart, WorkPart, ReviewItems;
  }

  lemma HasProof(all: Rows, p: ProofRow)
    requires p in all.proofs
    ensures Has(all, ProofNode(p.id))
  {
    CoversVersions(all);
    assert Node(ProofNode(p.id)) in ProofItems(all)(p);
    hide VersionPart, ExecutionPart, WorkPart, ProofItems;
  }

  lemma HasGrant(all: Rows, grantId: string)
    requires IsGrant(all, grantId)
    ensures Has(all, GrantNode(grantId))
  {
    var g :| g in all.grants && g.grantId == grantId;
    CoversExecution(all);
    assert Node(GrantNode(grantId)) in GrantItems(all)(g);
    hide VersionPart, ExecutionPart, WorkPart, GrantItems;
  }

  lemma HasFinding(all: Rows, hash: string)
    requires FindingByHash(all.reviews, hash).Some?
    ensures Has(all, FindingByHash(all.reviews, hash).value)
  {
    var r :| r in all.reviews && hash in r.findings
        && FindingByHash(all.reviews, hash).value == FindingNode(r.reviewId, hash);
    CoversExecution(all);
    var i :| 0 <= i < |r.findings| && r.findings[i] == hash;
    assert Findings(r)[i] == FindingNode(r.reviewId, hash);
    assert Node(FindingNode(r.reviewId, hash)) in FindingItems()(r);
    hide VersionPart, ExecutionPart, WorkPart, FindingItems;
  }

  lemma HasReceipt(all: Rows, receiptId: string)
    requires receiptId in all.receipts
    ensures Has(all, ReceiptNode(receiptId))
  {
    CoversExecution(all);
    assert Node(ReceiptNode(receiptId)) in ReceiptItems(all)(receiptId);
    hide VersionPart, ExecutionPart, WorkPart, ReceiptItems;
  }

  lemma HasDagRun(all: Rows, runId: string)
    requires runId in all.dagRuns
    ensures Has(all, DagRunNode(runId))
  {
    CoversWork(all);
    assert Node(DagRunNode(runId)) in DagRunItems()(runId);
    hide VersionPart, ExecutionPart, WorkPart, DagRunItems;
  }

  lemma HasDagNode(all: Rows, runId: string, nodeId: string)
    requires IsDagNode(all, runId, nodeId)
    ensures Has(all, DagNodeNode(runId, nodeId))
  {
    var n :| n in all.dagNodes && n.runId == runId && n.nodeId == nodeId;
    CoversWork(all);
    assert Node(DagNodeNode(runId, nodeId)) in DagNodeItems(all)(n);
    hide VersionPart, ExecutionPart, WorkPart, DagNodeItems;
  }

  lemma HasJob(all: Rows, jobId: string)
    requires IsJob(all, jobId)
    ensures Has(all, WorkJobNode(jobId))
  {
    var j :| j in all.jobs && j.jobId == jobId;
    CoversWork(all);
    assert Node(WorkJobNode(jobId)) in JobItems(all)(j);
    hide VersionPart, ExecutionPart, WorkPart, JobItems;
  }

  /** Both ends of every edge among the items are projected. */
  ghost predicate Ended(all: Rows, items: set<Item>)
  {
    forall x <- items :: x.Link? ==> Has(all, x.edge.source) && Has(all, x.edge.target)
  }

  ghost predicate Own(all: Rows, items: set<Item>)
  {
    forall x <- items :: x.Node? ==> Has(all, x.id)
  }

  lemma OwnPart(all: Rows, part: set<Item>, items: set<Item>)
    requires part <= items <= Projection(all)
    ensures Own(all, part)
  {
    hide Projection;
  }

  lemma OwnNode(all: Rows, id: NodeId, items: set<Item>)
    requires Node(id) in items && items <= Projection(all)
    ensures Has(all, id)
  {
    hide Projection;
  }

  lemma UnionEnds(all: Rows, a: set<Item>, b: set<Item>)
    requires Ended(all, a) && Ended(all, b)
    ensures Ended(all, a + b)
  {
    hide Has;
  }

  /** A node and an edge to it, and an edge alone. */
  lemma ArrowEnds(all: Rows, kind: EdgeKind, source: NodeId, target: NodeId)
    requires Has(all, source) && Has(all, target)
    ensures Ended(all, {Node(target), Arrow(kind, source, target)}) && Ended(all, {Arrow(kind, source, target)})
    ensures Ended(all, {Node(target)}) && Ended(all, {})
  {
    hide Has;
  }

  lemma VersionEnds(all: Rows, kind: EdgeKind, source: NodeId, ref: string)
    requires Has(all, source) && Own(all, VersionItems(kind, source, ref))
    ensures Ended(all, VersionItems(kind, source, ref))
  {
    hide Has;
  }

  lemma GrantEnds(all: Rows, kind: EdgeKind, grantId: string, target: NodeId)
    requires Has(all, target)
    ensures Ended(all, ByGrant(all, kind, grantId, target))
  {
    hide Projection;
    if IsGrant(all, grantId) { HasGrant(all, grantId); }
  }

  lemma EventsEnd(all: Rows, kind: EdgeKind, owner: NodeId, events: seq<NodeId>)
    requires Has(all, owner) && Own(all, EventItems(kind, owner, events))
    ensures Ended(all, EventItems(kind, owner, events))
  {
    hide Has;
    forall x <- EventItems(kind, owner, events) | x.Link? ensures Has(all, x.edge.source) && Has(all, x.edge.target) {
      assert Node(x.edge.target) in EventItems(kind, owner, events);
    }
  }

  lemma DeploymentEnds(all: Rows, d: DeploymentRow)
    requires DeploymentItems(all)(d) <= Projection(all)
    ensures Ended(all, DeploymentItems(all)(d))
  {
    var node, items := DeploymentNode(d.deployId), DeploymentItems(all)(d);
    var ref := FirstOf(d.headSha, d.image);
    var events := DeploymentEvents(d.events);
    var first := {Node(node), Arrow(AgentHasDeployment, Root(all), node)};
    var version, rest :=
        VersionItems(DeploymentDeploysVersion, node, ref), EventItems(DeploymentHasEvent, node, events);
    assert items == first + version + rest;
    hide Has, EventItems, VersionItems, FirstOf, DeploymentItems, Projection, Ended, Own;
    HasRoot(all);
    OwnNode(all, node, items);
    OwnPart(all, version, items);
    OwnPart(all, rest, items);
    ArrowEnds(all, AgentHasDeployment, Root(all), node);
    VersionEnds(all, DeploymentDeploysVersion, node, ref);
    EventsEnd(all, DeploymentHasEvent, node, events);
    UnionEnds(all, first, version);
    UnionEnds(all, first + version, rest);
  }

  lemma ReviewEnds(all: Rows, r: ReviewRow)
    requires r in all.reviews
    ensures Ended(all, ReviewItems(all)(r))
  {
    hide Has, Projection;
    HasReview(all, r);
    if Linked(all, r) { HasDeployment(all, r.deployId.value); }
    hide Linked;
  }

  lemma ProofEnds(all: Rows, p: ProofRow)
    requires ProofItems(all)(p) <= Projection(all)
    ensures Ended(all, ProofItems(all)(p))
  {
    var node, items := ProofNode(p.id), ProofItems(all)(p);
    var ref := FirstOf(FirstOf(p.headSha, p.cardHash), p.image);
    var version := VersionItems(ProofTestsVersion, node, ref);
    assert items == {Node(node), Arrow(AgentHasProof, Root(all), node)} + version;
    hide Has, VersionItems, FirstOf, ProofItems, Projection, Ended, Own;
    HasRoot(all);
    OwnNode(all, node, items);
    OwnPart(all, version, items);
    ArrowEnds(all, AgentHasProof, Root(all), node);
    VersionEnds(all, ProofTestsVersion, node, ref);
    UnionEnds(all, {Node(node), Arrow(AgentHasProof, Root(all), node)}, version);
  }

  lemma GrantRowEnds(all: Rows, g: GrantRow)
    requires g in all.grants
    ensures Ended(all, GrantItems(all)(g))
  {
    HasRoot(all);
    HasGrant(all, g.grantId);
    hide Has;
    GrantEnds(all, GrantParentOf, g.parentId, GrantNode(g.grantId));
    hide ByGrant;
  }

  lemma SubagentEnds(all: Rows, s: SubagentRow)
    requires SubagentItems(all)(s) <= Projection(all)
    ensures Ended(all, SubagentItems(all)(s))
  {
    var node, items := SubagentRunNode(s.grantId), SubagentItems(all)(s);
    var events := SubagentEvents(s.events);
    var first := {Node(node), Arrow(AgentHasSubagentRun, Root(all), node)};
    var grant :=
        if IsGrant(all, s.grantId) then {Arrow(GrantAuthorizesSubagentRun, GrantNode(s.grantId), node)} else {};
    var rest := EventItems(SubagentRunHasEvent, node, events);
    assert items == first + grant + rest;
    hide Has, EventItems, SubagentItems, Projection, Ended, Own, IsGrant;
    HasRoot(all);
    OwnNode(all, node, items);
    OwnPart(all, rest, items);
    ArrowEnds(all, AgentHasSubagentRun, Root(all), node);
    if IsGrant(all, s.grantId) {
      HasGrant(all, s.grantId);
      ArrowEnds(all, GrantAuthorizesSubagentRun, GrantNode(s.grantId), node);
    }
    EventsEnd(all, SubagentRunHasEvent, node, events);
    UnionEnds(all, first, grant);
    UnionEnds(all, first + grant, rest);
  }

  lemma FindingEnds(all: Rows, r: ReviewRow)
    requires r in all.reviews && FindingItems()(r) <= Projection(all)
    ensures Ended(all, FindingItems()(r))
  {
    HasReview(all, r);
    OwnPart(all, FindingItems()(r), FindingItems()(r));
    EventsEnd(all, ReviewHasFinding, ReviewNode(r.reviewId), Findings(r));
  }

  lemma ReceiptEnds(all: Rows, receiptId: string)
    requires receiptId in all.receipts
    ensures Ended(all, ReceiptItems(all)(receiptId))
  {
    HasRoot(all);
    HasReceipt(all, receiptId);
    hide Has;
  }

  lemma SessionEnds(all: Rows, s: SessionRow)
    requires SessionItems(all)(s) <= Projection(all)
    ensures Ended(all, SessionItems(all)(s))
  {
    var node, items := SessionNode(s.sessionId), SessionItems(all)(s);
    var first := {Node(node), Arrow(AgentHasSession, Root(all), node)};
    var receipt := if s.receiptId != "" && s.receiptId in all.receipts
                   then {Arrow(ReceiptHasSession, ReceiptNode(s.receiptId), node)} else {};
    assert items == first + receipt;
    hide Has, SessionItems, Projection, Ended;
    HasRoot(all);
    OwnNode(all, node, items);
    ArrowEnds(all, AgentHasSession, Root(all), node);
    if s.receiptId in all.receipts {
      HasReceipt(all, s.receiptId);
      ArrowEnds(all, ReceiptHasSession, ReceiptNode(s.receiptId), node);
    }
    UnionEnds(all, first, receipt);
  }

  lemma DagNodeEnds(all: Rows, n: DagNodeRow)
    requires n in all.dagNodes
    ensures Ended(all, DagNodeItems(all)(n))
  {
    var node := DagNodeNode(n.runId, n.nodeId);
    var first := {Node(node), Arrow(AgentExecutedDagNode, Root(all), node)};
    var run := if n.runId in all.dagRuns then {Arrow(DagRunHasNode, DagRunNode(n.runId), node)} else {};
    var grant := ByGrant(all, GrantAuthorizesDagNode, n.grantId, node);
    assert DagNodeItems(all)(n) == first + run + grant;
    assert IsDagNode(all, n.runId, n.nodeId);
    hide Has, ByGrant, DagNodeItems, Projection, Ended, IsDagNode;
    HasRoot(all);
    HasDagNode(all, n.runId, n.nodeId);
    ArrowEnds(all, AgentExecutedDagNode, Root(all), node);
    if n.runId in all.dagRuns {
      HasDagRun(all, n.runId);
      ArrowEnds(all, DagRunHasNode, DagRunNode(n.runId), node);
    }
    GrantEnds(all, GrantAuthorizesDagNode, n.grantId, node);
    UnionEnds(all, first, run);
    UnionEnds(all, first + run, grant);
  }

  lemma DependencyEnds(all: Rows, n: DagNodeRow)
    requires n in all.dagNodes
    ensures Ended(all, DependencyItems(all)(n))
  {
    assert IsDagNode(all, n.runId, n.nodeId);
    HasDagNode(all, n.runId, n.nodeId);
    hide Has, Projection;
    forall dep <- n.deps | IsDagNode(all, n.runId, dep) ensures Has(all, DagNodeNode(n.runId, dep)) {
      HasDagNode(all, n.runId, dep);
    }
    hide IsDagNode;
  }

  lemma TrialEnds(all: Rows, t: TrialRow)
    requires TrialItems(all)(t) <= Projection(all)
    ensures Ended(all, TrialItems(all)(t))
  {
    var room, trial, items := TrialRoomNode(t.room), TrialNode(t.id), TrialItems(all)(t);
    var own := {Node(trial), Arrow(AgentHasTrial, Root(all), trial)};
    var inRoom := {Arrow(TrialRoomHasRun, room, trial)};
    var grant := ByGrant(all, GrantAuthorizesTrial, t.grantId, trial);
    assert items == {Node(room)} + own + inRoom + grant;
    hide Has, ByGrant, TrialItems, Projection, Ended;
    HasRoot(all);
    OwnNode(all, room, items);
    OwnNode(all, trial, items);
    ArrowEnds(all, AgentHasTrial, Root(all), trial);
    ArrowEnds(all, TrialRoomHasRun, room, trial);
    ArrowEnds(all, TrialRoomHasRun, room, room);
    GrantEnds(all, GrantAuthorizesTrial, t.grantId, trial);
    UnionEnds(all, {Node(room)}, own);
    UnionEnds(all, {Node(room)} + own, inRoom);
    UnionEnds(all, {Node(room)} + own + inRoom, grant);
  }

  lemma RefEnds(all: Rows, origin: Origin, source: NodeId, refs: MutationRefs)
    requires Has(all, source) && Own(all, RefItems(all, origin, source, refs))
    ensures Ended(all, RefItems(all, origin, source, refs))
  {
    hide Has, FindingByHash, DeploymentByHead;
    if Finding(all, refs).Some? { HasFinding(all, refs.findingHash); }
    if Triggered(all, refs).Some? { HasDeployment(all, Triggered(all, refs).value); }
    if IsReview(all, refs.reviewId) {
      var r :| r in all.reviews && r.reviewId == refs.reviewId;
      HasReview(all, r);
    }
    hide Finding, Triggered, IsReview;
    assert Own(all, VersionItems(ProducedVersion(origin), source, refs.headSha));
  }

  lemma WorkEventEnds(all: Rows, job: NodeId, e: WorkEventRow)
    requires Has(all, job) && Own(all, WorkEventItems(all, job)(e))
    ensures Ended(all, WorkEventItems(all, job)(e))
  {
    hide Has, RefItems;
    assert Node(WorkEventNode(e.eventId)) in WorkEventItems(all, job)(e);
    assert Own(all, RefItems(all, FromEvent, WorkEventNode(e.eventId), e.refs));
    RefEnds(all, FromEvent, WorkEventNode(e.eventId), e.refs);
  }

  lemma JobEnds(all: Rows, j: JobRow)
    requires j in all.jobs && JobItems(all)(j) <= Projection(all)
    ensures Ended(all, JobItems(all)(j))
  {
    var node, items := WorkJobNode(j.jobId), JobItems(all)(j);
    var first := {Node(node), Arrow(AgentHasWorkJob, Root(all), node)};
    var parent := if j.parentId != "" && IsJob(all, j.parentId)
        then {Arrow(WorkJobParentOf, WorkJobNode(j.parentId), node)} else {};
    var refs, events := RefItems(all, FromJob, node, j.refs), Gather(j.events, WorkEventItems(all, node));
    assert items == first + parent + refs + events;
    assert IsJob(all, j.jobId);
    hide Has, RefItems, JobItems, Projection, Ended, Own, IsJob, Gather;
    HasRoot(all);
    HasJob(all, j.jobId);
    ArrowEnds(all, AgentHasWorkJob, Root(all), node);
    if IsJob(all, j.parentId) {
      HasJob(all, j.parentId);
      ArrowEnds(all, WorkJobParentOf, WorkJobNode(j.parentId), node);
    }
    OwnPart(all, refs, items);
    RefEnds(all, FromJob, node, j.refs);
    JobEventsEnd(all, node, j.events, items);
    UnionEnds(all, first, parent);
    UnionEnds(all, first + parent, refs);
    UnionEnds(all, first + parent + refs, events);
  }

  lemma JobEventsEnd(all: Rows, job: NodeId, events: seq<WorkEventRow>, items: set<Item>)
    requires Has(all, job) && Gather(events, WorkEventItems(all, job)) <= items <= Projection(all)
    ensures Ended(all, Gather(events, WorkEventItems(all, job)))
  {
    hide Has, WorkEventItems, Projection, Ended, Own;
    forall e <- events ensures Ended(all, WorkEventItems(all, job)(e)) {
      GatherHas(events, e, WorkEventItems(all, job));
      OwnPart(all, WorkEventItems(all, job)(e), items);
      WorkEventEnds(all, job, e);
    }
    GatherEnds(all, events, WorkEventItems(all, job));
  }

  lemma UsageEnds(all: Rows, u: UsageRow)
    requires UsageItems(all)(u) <= Projection(all)
    ensures Ended(all, UsageItems(all)(u))
  {
    var node := LlmUsageNode(u.id);
    HasRoot(all);
    OwnNode(all, node, UsageItems(all)(u));
    var byGrant := ByGrant(all, GrantHasLlmUsage, u.grantId, node);
    var byRun := if u.dagRunId != "" && u.dagRunId in all.dagRuns
        then {Arrow(DagRunHasLlmUsage, DagRunNode(u.dagRunId), node)} else {};
    var byAgent := if u.agentName == all.agentName then {Arrow(AgentHasLlmUsage, Root(all), node)} else {};
    var joins := byGrant + byRun + byAgent;
    assert UsageItems(all)(u) == {Node(node)} + if joins == {} then {Arrow(AgentHasInferredLlmUsage, Root(all), node)}
           else joins;
    hide Has, ByGrant, UsageItems, Projection, Ended;
    ArrowEnds(all, AgentHasLlmUsage, Root(all), node);
    ArrowEnds(all, AgentHasInferredLlmUsage, Root(all), node);
    GrantEnds(all, GrantHasLlmUsage, u.grantId, node);
    if u.dagRunId in all.dagRuns {
      HasDagRun(all, u.dagRunId);
      ArrowEnds(all, DagRunHasLlmUsage, DagRunNode(u.dagRunId), node);
    }
    UnionEnds(all, byGrant, byRun);
    UnionEnds(all, byGrant + byRun, byAgent);
    UnionEnds(all, {Node(node)}, if joins == {} then {Arrow(AgentHasInferredLlmUsage, Root(all), node)} else joins);
  }

  lemma GatherEnds<R>(all: Rows, rows: seq<R>, emits: R -> set<Item>)
    requires forall row <- rows :: Ended(all, emits(row))
    ensures Ended(all, Gather(rows, emits))
  {
    hide Has;
  }

  lemma VersionsEnd(all: Rows)
    ensures Ended(all, VersionPart(all))
  {
    Covers(all);
    hide Projection, Has;
    forall d <- all.deployments ensures Ended(all, DeploymentItems(all)(d)) { DeploymentEnds(all, d); }
    forall r <- all.reviews ensures Ended(all, ReviewItems(all)(r)) { ReviewEnds(all, r); }
    forall p <- all.proofs ensures Ended(all, ProofItems(all)(p)) { ProofEnds(all, p); }
    hide Gather, DeploymentItems, ReviewItems, ProofItems;
    GatherEnds(all, all.deployments, DeploymentItems(all));
    GatherEnds(all, all.reviews, ReviewItems(all));
    GatherEnds(all, all.proofs, ProofItems(all));
  }

  lemma ExecutionEnds(all: Rows)
    ensures Ended(all, ExecutionPart(all))
  {
    CoversExecution(all);
    hide Has, VersionPart, WorkPart, Gather;
    assert ExecutionPart(all) <= Projection(all);
    hide Projection;
    hide GrantItems, SubagentItems, ProofGrantItems, FindingItems, ReceiptItems, SessionItems;
    forall g <- all.grants ensures Ended(all, GrantItems(all)(g)) { GrantRowEnds(all, g); }
    forall s <- all.subagents ensures Ended(all, SubagentItems(all)(s)) { SubagentEnds(all, s); }
    forall p <- all.proofs ensures Ended(all, ProofGrantItems(all)(p)) { ProofGrantEnds(all, p); }
    forall r <- all.reviews ensures Ended(all, FindingItems()(r)) { FindingEnds(all, r); }
    forall id <- all.receipts ensures Ended(all, ReceiptItems(all)(id)) { ReceiptEnds(all, id); }
    forall s <- all.sessions ensures Ended(all, SessionItems(all)(s)) { SessionEnds(all, s); }
    GatherEnds(all, all.grants, GrantItems(all));
    GatherEnds(all, all.subagents, SubagentItems(all));
    GatherEnds(all, all.proofs, ProofGrantItems(all));
    GatherEnds(all, all.reviews, FindingItems());
    GatherEnds(all, all.receipts, ReceiptItems(all));
    GatherEnds(all, all.sessions, SessionItems(all));
  }

  lemma ProofGrantEnds(all: Rows, p: ProofRow)
    requires p in all.proofs
    ensures Ended(all, ProofGrantItems(all)(p))
  {
    HasProof(all, p);
    GrantEnds(all, GrantAuthorizesProof, p.grantId, ProofNode(p.id));
  }

  lemma WorkEnds(all: Rows)
    ensures Ended(all, WorkPart(all))
  {
    CoversWork(all);
    hide Has, VersionPart, ExecutionPart, Gather;
    assert WorkPart(all) <= Projection(all);
    hide Projection;
    assert forall id <- all.dagRuns :: Ended(all, DagRunItems()(id));
    hide DagRunItems, DagNodeItems, DependencyItems, TrialItems, JobItems, UsageItems, Ended;
    forall n <- all.dagNodes ensures Ended(all, DagNodeItems(all)(n)) { DagNodeEnds(all, n); }
    forall n <- all.dagNodes ensures Ended(all, DependencyItems(all)(n)) { DependencyEnds(all, n); }
    forall t <- all.trials ensures Ended(all, TrialItems(all)(t)) { TrialEnds(all, t); }
    forall j <- all.jobs ensures Ended(all, JobItems(all)(j)) { JobEnds(all, j); }
    forall u <- all.usages ensures Ended(all, UsageItems(all)(u)) { UsageEnds(all, u); }
    GatherEnds(all, all.dagRuns, DagRunItems());
    GatherEnds(all, all.dagNodes, DagNodeItems(all));
    GatherEnds(all, all.dagNodes, DependencyItems(all));
    GatherEnds(all, all.trials, TrialItems(all));
    GatherEnds(all, all.jobs, JobItems(all));
    GatherEnds(all, all.usages, UsageItems(all));
    SixEnd(all, Gather(all.dagRuns, DagRunItems()), Gather(all.dagNodes, DagNodeItems(all)),
           Gather(all.dagNodes, DependencyItems(all)),
           Gather(all.trials, TrialItems(all)), Gather(all.jobs, JobItems(all)), Gather(all.usages, UsageItems(all)));
  }

  lemma SixEnd(all: Rows, a: set<Item>, b: set<Item>, c: set<Item>, d: set<Item>, e: set<Item>, f: set<Item>)
    requires Ended(all, a) && Ended(all, b) && Ended(all, c) && Ended(all, d) && Ended(all, e) && Ended(all, f)
    ensures Ended(all, a + b + c + d + e + f)
  {
    hide Has;
  }

  /** Every edge the rows call for has both its ends among the nodes the rows call for. */
  lemma EveryEdgeHasItsEnds(all: Rows)
    ensures Ended(all, Projection(all))
  {
    VersionsEnd(all);
    ExecutionEnds(all);
    WorkEnds(all);
    hide VersionPart, ExecutionPart, WorkPart, Has;
  }
}
