/**
 * What the evidence DAG projection (evidence_dag.py) owes its readers, without its loops: the nodes and edges each row
 * calls for, and the chains built over them.
 */
module EvidenceRows {
  import opened Common

  datatype NodeId =
    | AgentNode(agentId: int)
    | VersionNode(ref: string)
    | DeploymentNode(deployId: string)
    | DeploymentEventNode(eventRow: int)
    | ReviewNode(reviewId: string)
    | ProofNode(proofRow: int)
    | FindingNode(findingReview: string, hash: string)
    | GrantNode(grantId: string)
    | SubagentRunNode(runGrant: string)
    | SubagentEventNode(subagentEventRow: int)
    | ReceiptNode(receiptId: string)
    | SessionNode(sessionId: string)
    | DagRunNode(dagRunId: string)
    | DagNodeNode(nodeRun: string, nodeKey: string)
    | TrialNode(trialRow: int)
    | TrialRoomNode(slug: string)
    | WorkJobNode(jobId: string)
    | WorkEventNode(workEventId: string)
    | LlmUsageNode(usageRow: int)

  /** Which kind of row a mutation reference was found in. */
  datatype Origin = FromJob | FromEvent

  datatype EdgeKind =
    | AgentHasDeployment | DeploymentDeploysVersion | DeploymentHasEvent | DeploymentReviewedBy
    | AgentHasProof | ProofTestsVersion
    | AgentHasGrant | GrantParentOf
    | AgentHasSubagentRun | GrantAuthorizesSubagentRun | SubagentRunHasEvent
    | GrantAuthorizesProof | ReviewHasFinding
    | AgentHasReceipt | AgentHasSession | ReceiptHasSession
    | AgentExecutedDagNode | DagRunHasNode | GrantAuthorizesDagNode | DagNodeDependsOn
    | AgentHasTrial | TrialRoomHasRun | GrantAuthorizesTrial
    | AgentHasWorkJob | WorkJobParentOf | WorkJobHasEvent
    | FindingTargetedBy(origin: Origin) | ReferencesReview(origin: Origin)
    | ProducedVersion(origin: Origin) | TriggeredDeployment(origin: Origin)
    | GrantHasLlmUsage | DagRunHasLlmUsage | AgentHasLlmUsage | AgentHasInferredLlmUsage

  /** An edge's id is its kind and its two ends. */
  datatype Edge = Edge(kind: EdgeKind, source: NodeId, target: NodeId)

  datatype Item = Node(id: NodeId) | Link(edge: Edge)

  datatype ChainKind = VersionTrust | AuthorityExecution | FailureRemediation
  datatype Chain = Chain(kind: ChainKind, nodes: seq<NodeId>, edges: seq<Edge>)

  // Rows, with absent optional text as "" wherever the projection only asks whether it is truthy. Child rows are kept
  // with their parent, as the loader groups them.

  datatype MutationRefs = MutationRefs(headSha: string, deployId: string, reviewId: string, proofId: string,
                                       findingHash: string)

  datatype DeploymentRow = DeploymentRow(deployId: string, headSha: string, image: string, events: seq<int>)
  datatype ReviewRow = ReviewRow(reviewId: string, deployId: Option<string>, ref: string, findings: seq<string>)
  datatype ProofRow = ProofRow(id: int, grantId: string, headSha: string, cardHash: string, image: string)
  datatype GrantRow = GrantRow(grantId: string, parentId: string, audience: string)
  datatype SubagentRow = SubagentRow(grantId: string, events: seq<int>)
  datatype SessionRow = SessionRow(sessionId: string, receiptId: string)
  datatype DagNodeRow = DagNodeRow(runId: string, nodeId: string, grantId: string, deps: seq<string>)
  datatype TrialRow = TrialRow(id: int, room: string, grantId: string)
  datatype WorkEventRow = WorkEventRow(eventId: string, refs: MutationRefs)
  datatype JobRow = JobRow(jobId: string, parentId: string, refs: MutationRefs, events: seq<WorkEventRow>)
  datatype UsageRow = UsageRow(id: int, grantId: string, dagRunId: string, agentName: string)

  datatype Rows = Rows(
    agentId: int, agentName: string,
    deployments: seq<DeploymentRow>, reviews: seq<ReviewRow>, proofs: seq<ProofRow>,
    grants: seq<GrantRow>, subagents: seq<SubagentRow>, receipts: seq<string>, sessions: seq<SessionRow>,
    dagRuns: seq<string>, dagNodes: seq<DagNodeRow>, trials: seq<TrialRow>, jobs: seq<JobRow>, usages: seq<UsageRow>)

  /** Everything the rows of one list call for. */
  function Gather<R(==), T(==)>(rows: seq<R>, emits: R -> set<T>): set<T>
  {
    set row, x | row in rows && x in emits(row) :: x
  }

  lemma GatherSnoc<R, T>(rows: seq<R>, i: nat, emits: R -> set<T>)
    requires i < |rows|
    ensures Gather(rows[..i + 1], emits) == Gather(rows[..i], emits) + emits(rows[i])
  {
    assert rows[..i + 1] == rows[..i] + [rows[i]];
    assert forall row :: row in rows[..i + 1] <==> row in rows[..i] || row == rows[i];
  }

  lemma GatherAll<R, T>(before: set<T>, rows: seq<R>, emits: R -> set<T>)
    ensures Gather(rows[..|rows|], emits) == Gather(rows, emits) && before + Gather(rows[..0], emits) == before
  {
    assert rows[..|rows|] == rows;
  }

  /** One turn of a loop that adds to what was there before. */
  lemma GatherStep<R, T>(before: set<T>, rows: seq<R>, i: nat, emits: R -> set<T>)
    requires i < |rows|
    ensures before + Gather(rows[..i], emits) + emits(rows[i]) == before + Gather(rows[..i + 1], emits)
  {
    GatherSnoc(rows, i, emits);
    hide Gather;
  }

  lemma UnionOfFour<T>(before: set<T>, a: set<T>, b: set<T>, c: set<T>, d: set<T>)
    ensures before + a + b + c + d == before + (a + b + c + d)
  {}

  lemma GatherHas<R, T>(rows: seq<R>, row: R, emits: R -> set<T>)
    requires row in rows
    ensures emits(row) <= Gather(rows, emits)
  {}

  lemma RowOf<R, T>(rows: seq<R>, emits: R -> set<T>, x: T) returns (row: R)
    requires x in Gather(rows, emits)
    ensures row in rows && x in emits(row)
  {
    row :| row in rows && x in emits(row);
  }

  function Root(all: Rows): NodeId
  {
    AgentNode(all.agentId)
  }

  function Arrow(kind: EdgeKind, source: NodeId, target: NodeId): Item
  {
    Link(Edge(kind, source, target))
  }

  function FirstOf(a: string, b: string): string
  {
    if a != "" then a else b
  }

  /** A version and the edge to it, when the reference is there at all. */
  function VersionItems(kind: EdgeKind, source: NodeId, ref: string): set<Item>
  {
    if ref == "" then {} else {Node(VersionNode(ref)), Arrow(kind, source, VersionNode(ref))}
  }

  // Lookups, as the dict comprehensions give them: the last row with the key.

  predicate IsGrant(all: Rows, grantId: string)
  {
    exists g <- all.grants :: g.grantId == grantId
  }

  predicate IsDeployment(all: Rows, deployId: string)
  {
    exists d <- all.deployments :: d.deployId == deployId
  }

  predicate IsReview(all: Rows, reviewId: string)
  {
    exists r <- all.reviews :: r.reviewId == reviewId
  }

  predicate IsJob(all: Rows, jobId: string)
  {
    exists j <- all.jobs :: j.jobId == jobId
  }

  predicate IsDagNode(all: Rows, runId: string, nodeId: string)
  {
    exists n <- all.dagNodes :: n.runId == runId && n.nodeId == nodeId
  }

  function DeploymentByHead(rows: seq<DeploymentRow>, headSha: string): (deployId: Option<string>)
    ensures deployId.Some? ==> exists i ::
            0 <= i < |rows| && rows[i].headSha == headSha && deployId.value == rows[i].deployId
                                     && forall j :: i < j < |rows| ==> rows[j].headSha != headSha
    ensures deployId.None? ==> forall j :: 0 <= j < |rows| ==> rows[j].headSha != headSha
  {
    if rows == [] then None
    else if rows[|rows| - 1].headSha == headSha then Some(rows[|rows| - 1].deployId)
    else DeploymentByHead(rows[..|rows| - 1], headSha)
  }

  function ReviewByRef(rows: seq<ReviewRow>, ref: string): (review: Option<ReviewRow>)
    ensures review.Some? ==> exists i :: 0 <= i < |rows| && rows[i].ref == ref && review.value == rows[i]
                                     && forall j :: i < j < |rows| ==> rows[j].ref != ref
    ensures review.None? ==> forall j :: 0 <= j < |rows| ==> rows[j].ref != ref
  {
    if rows == [] then None
    else if rows[|rows| - 1].ref == ref then Some(rows[|rows| - 1])
    else ReviewByRef(rows[..|rows| - 1], ref)
  }

  function ProofByHead(rows: seq<ProofRow>, headSha: string): (proof: Option<ProofRow>)
    ensures proof.Some? ==> exists i :: 0 <= i < |rows| && rows[i].headSha == headSha && proof.value == rows[i]
                                     && forall j :: i < j < |rows| ==> rows[j].headSha != headSha
    ensures proof.None? ==> forall j :: 0 <= j < |rows| ==> rows[j].headSha != headSha
  {
    if rows == [] then None
    else if rows[|rows| - 1].headSha == headSha then Some(rows[|rows| - 1])
    else ProofByHead(rows[..|rows| - 1], headSha)
  }

  function ProofByGrant(rows: seq<ProofRow>, grantId: string): (proof: Option<ProofRow>)
    ensures proof.Some? ==> exists i :: 0 <= i < |rows| && rows[i].grantId == grantId && proof.value == rows[i]
                                     && forall j :: i < j < |rows| ==> rows[j].grantId != grantId
    ensures proof.None? ==> forall j :: 0 <= j < |rows| ==> rows[j].grantId != grantId
  {
    if rows == [] then None
    else if rows[|rows| - 1].grantId == grantId then Some(rows[|rows| - 1])
    else ProofByGrant(rows[..|rows| - 1], grantId)
  }

  function FindingByHash(rows: seq<ReviewRow>, hash: string): (finding: Option<NodeId>)
    ensures finding.Some? ==> exists i ::
            0 <= i < |rows| && hash in rows[i].findings && finding.value == FindingNode(rows[i].reviewId, hash)
                                     && forall j :: i < j < |rows| ==> hash !in rows[j].findings
    ensures finding.None? ==> forall j :: 0 <= j < |rows| ==> hash !in rows[j].findings
  {
    if rows == [] then None
    else if hash in rows[|rows| - 1].findings then Some(FindingNode(rows[|rows| - 1].reviewId, hash))
    else FindingByHash(rows[..|rows| - 1], hash)
  }

  /** The first, for the one list that keeps every node of a grant. */
  function DagNodeByGrant(rows: seq<DagNodeRow>, grantId: string): (node: Option<DagNodeRow>)
    ensures node.Some? ==> exists i :: 0 <= i < |rows| && rows[i].grantId == grantId && node.value == rows[i]
                                     && forall j :: 0 <= j < i ==> rows[j].grantId != grantId
    ensures node.None? ==> forall j :: 0 <= j < |rows| ==> rows[j].grantId != grantId
  {
    if rows == [] then None
    else if rows[0].grantId == grantId then Some(rows[0])
    else DagNodeByGrant(rows[1..], grantId)
  }

  // What each row calls for.

  function EventItems(kind: EdgeKind, owner: NodeId, events: seq<NodeId>): set<Item>
  {
    (set e | e in events :: Node(e)) + (set e | e in events :: Arrow(kind, owner, e))
  }

  function DeploymentEvents(events: seq<int>): (ids: seq<NodeId>)
    ensures |ids| == |events| && forall i :: 0 <= i < |ids| ==> ids[i] == DeploymentEventNode(events[i])
  {
    seq(|events|, i requires 0 <= i < |events| => DeploymentEventNode(events[i]))
  }

  function SubagentEvents(events: seq<int>): (ids: seq<NodeId>)
    ensures |ids| == |events| && forall i :: 0 <= i < |ids| ==> ids[i] == SubagentEventNode(events[i])
  {
    seq(|events|, i requires 0 <= i < |events| => SubagentEventNode(events[i]))
  }

  function DeploymentItems(all: Rows): DeploymentRow -> set<Item>
  {
    (d: DeploymentRow) =>
      var node := DeploymentNode(d.deployId);
      {Node(node), Arrow(AgentHasDeployment, Root(all), node)}
      + VersionItems(DeploymentDeploysVersion, node, FirstOf(d.headSha, d.image))
      + EventItems(DeploymentHasEvent, node, DeploymentEvents(d.events))
  }

  predicate Linked(all: Rows, r: ReviewRow)
  {
    r.deployId.Some? && r.deployId.value != "" && IsDeployment(all, r.deployId.value)
  }

  function ReviewItems(all: Rows): ReviewRow -> set<Item>
  {
    (r: ReviewRow) =>
      {Node(ReviewNode(r.reviewId))}
      + if Linked(all, r) then {Arrow(DeploymentReviewedBy, DeploymentNode(r.deployId.value), ReviewNode(r.reviewId))}
           else {}
  }

  function ProofItems(all: Rows): ProofRow -> set<Item>
  {
    (p: ProofRow) =>
      {Node(ProofNode(p.id)), Arrow(AgentHasProof, Root(all), ProofNode(p.id))}
      + VersionItems(ProofTestsVersion, ProofNode(p.id), FirstOf(FirstOf(p.headSha, p.cardHash), p.image))
  }

  function GrantItems(all: Rows): GrantRow -> set<Item>
  {
    (g: GrantRow) =>
      {Node(GrantNode(g.grantId))}
      + (if g.audience == all.agentName then {Arrow(AgentHasGrant, Root(all), GrantNode(g.grantId))} else {})
      + ByGrant(all, GrantParentOf, g.parentId, GrantNode(g.grantId))
  }

  /** The edge from a grant, when the row names one that was loaded. */
  function ByGrant(all: Rows, kind: EdgeKind, grantId: string, target: NodeId): set<Item>
  {
    if grantId != "" && IsGrant(all, grantId) then {Arrow(kind, GrantNode(grantId), target)} else {}
  }

  function SubagentItems(all: Rows): SubagentRow -> set<Item>
  {
    (s: SubagentRow) =>
      var node := SubagentRunNode(s.grantId);
      {Node(node), Arrow(AgentHasSubagentRun, Root(all), node)}
      + (if IsGrant(all, s.grantId) then {Arrow(GrantAuthorizesSubagentRun, GrantNode(s.grantId), node)} else {})
      + EventItems(SubagentRunHasEvent, node, SubagentEvents(s.events))
  }

  function ProofGrantItems(all: Rows): ProofRow -> set<Item>
  {
    (p: ProofRow) => ByGrant(all, GrantAuthorizesProof, p.grantId, ProofNode(p.id))
  }

  function Findings(r: ReviewRow): (ids: seq<NodeId>)
    ensures |ids| == |r.findings| && forall i :: 0 <= i < |ids| ==> ids[i] == FindingNode(r.reviewId, r.findings[i])
  {
    seq(|r.findings|, i requires 0 <= i < |r.findings| => FindingNode(r.reviewId, r.findings[i]))
  }

  function FindingItems(): ReviewRow -> set<Item>
  {
    (r: ReviewRow) => EventItems(ReviewHasFinding, ReviewNode(r.reviewId), Findings(r))
  }

  function ReceiptItems(all: Rows): string -> set<Item>
  {
    (receiptId: string) => {Node(ReceiptNode(receiptId)), Arrow(AgentHasReceipt, Root(all), ReceiptNode(receiptId))}
  }

  function SessionItems(all: Rows): SessionRow -> set<Item>
  {
    (s: SessionRow) =>
      var node := SessionNode(s.sessionId);
      {Node(node), Arrow(AgentHasSession, Root(all), node)}
      + if s.receiptId != "" && s.receiptId in all.receipts
           then {Arrow(ReceiptHasSession, ReceiptNode(s.receiptId), node)} else {}
  }

  function DagRunItems(): string -> set<Item>
  {
    (runId: string) => {Node(DagRunNode(runId))}
  }

  function DagNodeItems(all: Rows): DagNodeRow -> set<Item>
  {
    (n: DagNodeRow) =>
      var node := DagNodeNode(n.runId, n.nodeId);
      {Node(node), Arrow(AgentExecutedDagNode, Root(all), node)}
      + (if n.runId in all.dagRuns then {Arrow(DagRunHasNode, DagRunNode(n.runId), node)} else {})
      + ByGrant(all, GrantAuthorizesDagNode, n.grantId, node)
  }

  function DependencyItems(all: Rows): DagNodeRow -> set<Item>
  {
    (n: DagNodeRow) =>
      set dep | dep in n.deps && IsDagNode(all, n.runId, dep)
           :: Arrow(DagNodeDependsOn, DagNodeNode(n.runId, n.nodeId), DagNodeNode(n.runId, dep))
  }

  function TrialItems(all: Rows): TrialRow -> set<Item>
  {
    (t: TrialRow) =>
      {Node(TrialRoomNode(t.room)), Node(TrialNode(t.id)), Arrow(AgentHasTrial, Root(all), TrialNode(t.id)),
       Arrow(TrialRoomHasRun, TrialRoomNode(t.room), TrialNode(t.id))}
      + ByGrant(all, GrantAuthorizesTrial, t.grantId, TrialNode(t.id))
  }

  /** The deployment a mutation led to: named directly, otherwise the last one of the commit. */
  function Triggered(all: Rows, refs: MutationRefs): (deployId: Option<string>)
    ensures deployId.Some? ==> IsDeployment(all, deployId.value)
  {
    if refs.deployId != "" && IsDeployment(all, refs.deployId) then Some(refs.deployId)
    else if refs.headSha != "" then DeploymentByHead(all.deployments, refs.headSha)
    else None
  }

  function Finding(all: Rows, refs: MutationRefs): Option<NodeId>
  {
    if refs.findingHash != "" then FindingByHash(all.reviews, refs.findingHash) else None
  }

  function RefItems(all: Rows, origin: Origin, source: NodeId, refs: MutationRefs): set<Item>
  {
    (if Finding(all, refs).Some? then {Arrow(FindingTargetedBy(origin), Finding(all, refs).value, source)} else {})
    + (if refs.reviewId != "" && IsReview(all, refs.reviewId)
       then {Arrow(ReferencesReview(origin), source, ReviewNode(refs.reviewId))}
       else {})
    + VersionItems(ProducedVersion(origin), source, refs.headSha)
    + (if Triggered(all, refs).Some?
       then {Arrow(TriggeredDeployment(origin), source, DeploymentNode(Triggered(all, refs).value))} else {})
  }

  function WorkEventItems(all: Rows, job: NodeId): WorkEventRow -> set<Item>
  {
    (e: WorkEventRow) =>
      {Node(WorkEventNode(e.eventId)), Arrow(WorkJobHasEvent, job, WorkEventNode(e.eventId))}
      + RefItems(all, FromEvent, WorkEventNode(e.eventId), e.refs)
  }

  function JobItems(all: Rows): JobRow -> set<Item>
  {
    (j: JobRow) =>
      var node := WorkJobNode(j.jobId);
      {Node(node), Arrow(AgentHasWorkJob, Root(all), node)}
      + (if j.parentId != "" && IsJob(all, j.parentId) then {Arrow(WorkJobParentOf, WorkJobNode(j.parentId), node)}
         else {})
      + RefItems(all, FromJob, node, j.refs)
      + Gather(j.events, WorkEventItems(all, node))
  }

  function UsageItems(all: Rows): UsageRow -> set<Item>
  {
    (u: UsageRow) =>
      var node := LlmUsageNode(u.id);
      var joins := ByGrant(all, GrantHasLlmUsage, u.grantId, node)
        + (if u.dagRunId != "" && u.dagRunId in all.dagRuns
           then {Arrow(DagRunHasLlmUsage, DagRunNode(u.dagRunId), node)} else {})
        + (if u.agentName == all.agentName then {Arrow(AgentHasLlmUsage, Root(all), node)} else {});
      {Node(node)} + if joins == {} then {Arrow(AgentHasInferredLlmUsage, Root(all), node)} else joins
  }

  /** The version rows, then everything. */
  function VersionPart(all: Rows): set<Item>
  {
    {Node(Root(all))}
    + Gather(all.deployments, DeploymentItems(all)) + Gather(all.reviews, ReviewItems(all))
    + Gather(all.proofs, ProofItems(all))
  }

  function ExecutionPart(all: Rows): set<Item>
  {
    Gather(all.grants, GrantItems(all)) + Gather(all.subagents, SubagentItems(all))
        + Gather(all.proofs, ProofGrantItems(all))
    + Gather(all.reviews, FindingItems()) + Gather(all.receipts, ReceiptItems(all))
    + Gather(all.sessions, SessionItems(all))
  }

  function WorkPart(all: Rows): set<Item>
  {
    Gather(all.dagRuns, DagRunItems()) + Gather(all.dagNodes, DagNodeItems(all))
        + Gather(all.dagNodes, DependencyItems(all))
    + Gather(all.trials, TrialItems(all)) + Gather(all.jobs, JobItems(all)) + Gather(all.usages, UsageItems(all))
  }

  function Projection(all: Rows): set<Item>
  {
    VersionPart(all) + ExecutionPart(all) + WorkPart(all)
  }

  // Chains.

  /** The remediation chain of one mutation: its finding, itself, the version, the deployment and what followed. */
  function Remediation(all: Rows, origin: Origin, source: NodeId, refs: MutationRefs): seq<Chain>
  {
    if Finding(all, refs).None? || refs.headSha == "" || Triggered(all, refs).None? then []
    else
      var finding, version := Finding(all, refs).value, VersionNode(refs.headSha);
      var deployId := Triggered(all, refs).value;
      var review, proof := ReviewByRef(all.reviews, refs.headSha), ProofByHead(all.proofs, refs.headSha);
      [Chain(FailureRemediation,
             [finding, source, version, DeploymentNode(deployId)]
             + (if review.Some? then [ReviewNode(review.value.reviewId)] else [])
             + (if proof.Some? then [ProofNode(proof.value.id)] else []),
             [Edge(FindingTargetedBy(origin), finding, source), Edge(ProducedVersion(origin), source, version),
              Edge(TriggeredDeployment(origin), source, DeploymentNode(deployId))]
             + ReviewLink(deployId, review))]
  }

  function ReviewLink(deployId: string, review: Option<ReviewRow>): seq<Edge>
  {
    if review.Some? && review.value.deployId == Some(deployId)
    then [Edge(DeploymentReviewedBy, DeploymentNode(deployId), ReviewNode(review.value.reviewId))]
    else []
  }

  function EventChains(all: Rows, events: seq<WorkEventRow>): seq<Chain>
  {
    if events == [] then []
    else
      var last := events[|events| - 1];
      EventChains(all, events[..|events| - 1]) + Remediation(all, FromEvent, WorkEventNode(last.eventId), last.refs)
  }

  function JobChains(all: Rows, jobs: seq<JobRow>): seq<Chain>
  {
    if jobs == [] then []
    else
      var last := jobs[|jobs| - 1];
      JobChains(all, jobs[..|jobs| - 1]) + Remediation(all, FromJob, WorkJobNode(last.jobId), last.refs)
      + EventChains(all, last.events)
  }

  /** What a grant authorised: its handoff run, its first DAG node and its last proof. */
  function Authority(all: Rows, grantId: string): seq<Chain>
  {
    var grant := GrantNode(grantId);
    var run := if exists s <- all.subagents :: s.grantId == grantId then [SubagentRunNode(grantId)] else [];
    var node := if grantId != "" then DagNodeByGrant(all.dagNodes, grantId) else None;
    var proof := if grantId != "" then ProofByGrant(all.proofs, grantId) else None;
    var nodes := if node.Some? then [DagNodeNode(node.value.runId, node.value.nodeId)] else [];
    var proofs := if proof.Some? then [ProofNode(proof.value.id)] else [];
    if run + nodes + proofs == [] then []
    else
      [Chain(AuthorityExecution, [grant] + run + nodes + proofs,
             (if run != [] then [Edge(GrantAuthorizesSubagentRun, grant, run[0])] else [])
             + (if nodes != [] then [Edge(GrantAuthorizesDagNode, grant, nodes[0])] else [])
             + (if proofs != [] then [Edge(GrantAuthorizesProof, grant, proofs[0])] else []))]
  }

  /** One chain for each grant id, at its first row. */
  function AuthorityChains(all: Rows, grants: seq<GrantRow>): seq<Chain>
  {
    if grants == [] then []
    else
      var front, last := grants[..|grants| - 1], grants[|grants| - 1];
      AuthorityChains(all, front) + if exists g <- front :: g.grantId == last.grantId then []
          else Authority(all, last.grantId)
  }

  function FirstReview(rows: seq<ReviewRow>, deployId: string): (review: Option<ReviewRow>)
    ensures review.Some? ==> exists i ::
            0 <= i < |rows| && rows[i].deployId == Some(deployId) && review.value == rows[i]
                                     && forall j :: 0 <= j < i ==> rows[j].deployId != Some(deployId)
    ensures review.None? ==> forall j :: 0 <= j < |rows| ==> rows[j].deployId != Some(deployId)
  {
    if rows == [] then None
    else if rows[0].deployId == Some(deployId) then Some(rows[0])
    else FirstReview(rows[1..], deployId)
  }

  function FirstProof(rows: seq<ProofRow>, headSha: string): (proof: Option<ProofRow>)
    ensures proof.Some? ==> headSha != ""
    ensures proof.Some? ==> exists i :: 0 <= i < |rows| && rows[i].headSha == headSha && proof.value == rows[i]
                                     && forall j :: 0 <= j < i ==> rows[j].headSha != headSha
    ensures proof.None? ==> headSha == "" || forall j :: 0 <= j < |rows| ==> rows[j].headSha != headSha
  {
    if rows == [] || headSha == "" then None
    else if rows[0].headSha == headSha then Some(rows[0])
    else FirstProof(rows[1..], headSha)
  }

  /** The latest deployment with its review and the proof of its commit. */
  function Trust(all: Rows): seq<Chain>
  {
    if all.deployments == [] then []
    else
      var latest := all.deployments[0];
      var review, proof := FirstReview(all.reviews, latest.deployId), FirstProof(all.proofs, latest.headSha);
      if review.None? && proof.None? then []
      else
        [Chain(VersionTrust,
               [DeploymentNode(latest.deployId)]
               + (if review.Some? then [ReviewNode(review.value.reviewId)] else [])
               + (if proof.Some? then [ProofNode(proof.value.id)] else []),
               ReviewLink(latest.deployId, review))]
  }

  function Chains(all: Rows): seq<Chain>
  {
    JobChains(all, all.jobs) + AuthorityChains(all, all.grants) + Trust(all)
  }
}
