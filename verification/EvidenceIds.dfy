/**
 * The ids of nodes and edges as text (the `_..._node_id` functions and `_edge_id` in evidence_dag.py), and what two
 * equal ids still tell apart.
 */
module EvidenceIds {
  import opened Decimal
  import opened EvidenceRows

  function Prefix(id: NodeId): string
  {
    match id
    case AgentNode(_) => "agent"
    case VersionNode(_) => "version"
    case DeploymentNode(_) => "deployment"
    case DeploymentEventNode(_) => "deployment_event"
    case ReviewNode(_) => "review"
    case ProofNode(_) => "proof"
    case FindingNode(_, _) => "finding"
    case GrantNode(_) => "grant"
    case SubagentRunNode(_) => "subagent_run"
    case SubagentEventNode(_) => "subagent_event"
    case ReceiptNode(_) => "receipt"
    case SessionNode(_) => "session"
    case DagRunNode(_) => "dag_run"
    case DagNodeNode(_, _) => "dag_node"
    case TrialNode(_) => "trial"
    case TrialRoomNode(_) => "trial_room"
    case WorkJobNode(_) => "work_job"
    case WorkEventNode(_) => "work_event"
    case LlmUsageNode(_) => "llm_usage"
  }

  /** What stands behind the prefix: one field, or two joined by a colon. */
  function Tail(id: NodeId): string
  {
    match id
    case AgentNode(agentId) => IntText(agentId)
    case VersionNode(ref) => ref
    case DeploymentNode(deployId) => deployId
    case DeploymentEventNode(row) => IntText(row)
    case ReviewNode(reviewId) => reviewId
    case ProofNode(row) => IntText(row)
    case FindingNode(reviewId, hash) => reviewId + ":" + hash
    case GrantNode(grantId) => grantId
    case SubagentRunNode(grantId) => grantId
    case SubagentEventNode(row) => IntText(row)
    case ReceiptNode(receiptId) => receiptId
    case SessionNode(sessionId) => sessionId
    case DagRunNode(runId) => runId
    case DagNodeNode(runId, nodeId) => runId + ":" + nodeId
    case TrialNode(row) => IntText(row)
    case TrialRoomNode(slug) => slug
    case WorkJobNode(jobId) => jobId
    case WorkEventNode(eventId) => eventId
    case LlmUsageNode(row) => IntText(row)
  }

  function NodeText(id: NodeId): string
  {
    Prefix(id) + ":" + Tail(id)
  }

  // Edge kinds, by the part of the projection that draws them. No name holds a colon.

  predicate IsVersionKind(kind: EdgeKind)
  {
    match kind
    case AgentHasDeployment | DeploymentDeploysVersion | DeploymentHasEvent | DeploymentReviewedBy |
       AgentHasProof | ProofTestsVersion => true
    case _ => false
  }

  function VersionKindText(kind: EdgeKind): (text: string)
    requires IsVersionKind(kind)
    ensures ':' !in text
  {
    match kind
    case AgentHasDeployment => "agent_has_deployment"
    case DeploymentDeploysVersion => "deployment_deploys_version"
    case DeploymentHasEvent => "deployment_has_event"
    case DeploymentReviewedBy => "deployment_reviewed_by"
    case AgentHasProof => "agent_has_proof"
    case ProofTestsVersion => "proof_tests_version"
  }

  predicate IsAuthorityKind(kind: EdgeKind)
  {
    match kind
    case AgentHasGrant | GrantParentOf | AgentHasSubagentRun | GrantAuthorizesSubagentRun |
       SubagentRunHasEvent | GrantAuthorizesProof | ReviewHasFinding | AgentHasReceipt | AgentHasSession |
       ReceiptHasSession => true
    case _ => false
  }

  function AuthorityKindText(kind: EdgeKind): (text: string)
    requires IsAuthorityKind(kind)
    ensures ':' !in text
  {
    match kind
    case AgentHasGrant => "agent_has_grant"
    case GrantParentOf => "grant_parent_of"
    case AgentHasSubagentRun => "agent_has_subagent_run"
    case GrantAuthorizesSubagentRun => "grant_authorizes_subagent_run"
    case SubagentRunHasEvent => "subagent_run_has_event"
    case GrantAuthorizesProof => "grant_authorizes_proof"
    case ReviewHasFinding => "review_has_finding"
    case AgentHasReceipt => "agent_has_receipt"
    case AgentHasSession => "agent_has_session"
    case ReceiptHasSession => "receipt_has_session"
  }

  predicate IsDagKind(kind: EdgeKind)
  {
    match kind
    case AgentExecutedDagNode | DagRunHasNode | GrantAuthorizesDagNode | DagNodeDependsOn | AgentHasTrial |
       TrialRoomHasRun | GrantAuthorizesTrial => true
    case _ => false
  }

  function DagKindText(kind: EdgeKind): (text: string)
    requires IsDagKind(kind)
    ensures ':' !in text
  {
    match kind
    case AgentExecutedDagNode => "agent_executed_dag_node"
    case DagRunHasNode => "dag_run_has_node"
    case GrantAuthorizesDagNode => "grant_authorizes_dag_node"
    case DagNodeDependsOn => "dag_node_depends_on"
    case AgentHasTrial => "agent_has_trial"
    case TrialRoomHasRun => "trial_room_has_run"
    case GrantAuthorizesTrial => "grant_authorizes_trial"
  }

  predicate IsWorkKind(kind: EdgeKind)
  {
    match kind
    case AgentHasWorkJob | WorkJobParentOf | WorkJobHasEvent | GrantHasLlmUsage | DagRunHasLlmUsage |
       AgentHasLlmUsage | AgentHasInferredLlmUsage => true
    case _ => false
  }

  function WorkKindText(kind: EdgeKind): (text: string)
    requires IsWorkKind(kind)
    ensures ':' !in text
  {
    match kind
    case AgentHasWorkJob => "agent_has_work_job"
    case WorkJobParentOf => "work_job_parent_of"
    case WorkJobHasEvent => "work_job_has_event"
    case GrantHasLlmUsage => "grant_has_llm_usage"
    case DagRunHasLlmUsage => "dag_run_has_llm_usage"
    case AgentHasLlmUsage => "agent_has_llm_usage"
    case AgentHasInferredLlmUsage => "agent_has_inferred_llm_usage"
  }

  predicate IsRefKind(kind: EdgeKind)
  {
    !IsVersionKind(kind) && !IsAuthorityKind(kind) && !IsDagKind(kind) && !IsWorkKind(kind)
  }

  function JobRefKindText(kind: EdgeKind): (text: string)
    requires IsRefKind(kind)
    ensures ':' !in text
  {
    match kind
    case FindingTargetedBy(_) => "finding_targeted_by_work_job"
    case ReferencesReview(_) => "work_job_references_review"
    case ProducedVersion(_) => "work_job_produced_version"
    case TriggeredDeployment(_) => "work_job_triggered_deployment"
  }

  function EventRefKindText(kind: EdgeKind): (text: string)
    requires IsRefKind(kind)
    ensures ':' !in text
  {
    match kind
    case FindingTargetedBy(_) => "finding_targeted_by_work_event"
    case ReferencesReview(_) => "work_event_references_review"
    case ProducedVersion(_) => "work_event_produced_version"
    case TriggeredDeployment(_) => "work_event_triggered_deployment"
  }

  function KindText(kind: EdgeKind): (text: string)
    ensures ':' !in text
  {
    if IsVersionKind(kind) then VersionKindText(kind)
    else if IsAuthorityKind(kind) then AuthorityKindText(kind)
    else if IsDagKind(kind) then DagKindText(kind)
    else if IsWorkKind(kind) then WorkKindText(kind)
    else if kind.origin == FromJob then JobRefKindText(kind)
    else EventRefKindText(kind)
  }

  function Ends(source: string, target: string): string
  {
    source + "->" + target
  }

  /** `f"{edge_type}:{source}->{target}"` */
  function EdgeText(e: Edge): string
  {
    KindText(e.kind) + ":" + Ends(NodeText(e.source), NodeText(e.target))
  }

  // Splitting an id again.

  lemma SplitAtColon(a: string, x: string, b: string, y: string)
    requires ':' !in a && ':' !in b && a + ":" + x == b + ":" + y
    ensures a == b && x == y
  {
    var whole := a + ":" + x;
    assert whole[|a|] == ':' && (b + ":" + y)[|b|] == ':';
    assert forall i :: 0 <= i < |a| ==> a[i] == whole[i] != ':';
    assert forall i :: 0 <= i < |b| ==> b[i] == whole[i] != ':';
    assert whole[..|a|] == a && (b + ":" + y)[..|b|] == b;
    assert whole[|a| + 1..] == x && (b + ":" + y)[|b| + 1..] == y;
  }

  predicate HoldsArrow(s: string)
  {
    exists i :: 0 <= i < |s| - 1 && s[i] == '-' && s[i + 1] == '>'
  }

  lemma ShorterHoldsNoLess(a: string, x: string, b: string, y: string)
    requires !HoldsArrow(b) && Ends(a, x) == Ends(b, y)
    ensures |a| >= |b|
  {
    var whole, other := Ends(a, x), Ends(b, y);
    assert whole[|a|] == '-' && whole[|a| + 1] == '>' && other[|b|] == '-';
    assert forall i :: 0 <= i < |b| ==> b[i] == other[i];
    assert forall i :: 0 <= i < |b| - 1 ==> !(other[i] == '-' && other[i + 1] == '>');
  }

  lemma SameEnds(a: string, x: string, b: string, y: string)
    requires Ends(a, x) == Ends(b, y) && (|a| == |b| || |x| == |y|)
    ensures a == b && x == y
  {
    assert |Ends(a, x)| == |a| + 2 + |x| && |Ends(b, y)| == |b| + 2 + |y|;
    assert Ends(a, x)[..|a|] == a && Ends(b, y)[..|b|] == b;
    assert Ends(a, x)[|a| + 2..] == x && Ends(b, y)[|b| + 2..] == y;
  }

  /** Sources without an arrow: the text falls apart at its first arrow. */
  lemma SplitAtFirstArrow(a: string, x: string, b: string, y: string)
    requires !HoldsArrow(a) && !HoldsArrow(b) && Ends(a, x) == Ends(b, y)
    ensures a == b && x == y
  {
    ShorterHoldsNoLess(a, x, b, y);
    ShorterHoldsNoLess(b, y, a, x);
    SameEnds(a, x, b, y);
  }

  lemma LaterHoldsNoLess(a: string, x: string, b: string, y: string)
    requires '>' !in y && Ends(a, x) == Ends(b, y)
    ensures |x| >= |y|
  {
    var whole, other := Ends(a, x), Ends(b, y);
    assert whole[|a| + 1] == '>';
    assert forall i :: |b| + 2 <= i < |other| ==> other[i] == y[i - |b| - 2] != '>';
  }

  /** Targets without `>`: it falls apart at its last one. */
  lemma SplitAtLastArrow(a: string, x: string, b: string, y: string)
    requires '>' !in x && '>' !in y && Ends(a, x) == Ends(b, y)
    ensures a == b && x == y
  {
    LaterHoldsNoLess(a, x, b, y);
    LaterHoldsNoLess(b, y, a, x);
    SameEnds(a, x, b, y);
  }

  // Prefixes and kinds are told apart by their length and outer letters.

  function Signature(text: string): (int, char, char)
    requires text != ""
  {
    (|text|, text[0], text[|text| - 1])
  }

  function PrefixSignature(id: NodeId): (int, char, char)
  {
    match id
    case AgentNode(_) => (5, 'a', 't')
    case VersionNode(_) => (7, 'v', 'n')
    case DeploymentNode(_) => (10, 'd', 't')
    case DeploymentEventNode(_) => (16, 'd', 't')
    case ReviewNode(_) => (6, 'r', 'w')
    case ProofNode(_) => (5, 'p', 'f')
    case FindingNode(_, _) => (7, 'f', 'g')
    case GrantNode(_) => (5, 'g', 't')
    case SubagentRunNode(_) => (12, 's', 'n')
    case SubagentEventNode(_) => (14, 's', 't')
    case ReceiptNode(_) => (7, 'r', 't')
    case SessionNode(_) => (7, 's', 'n')
    case DagRunNode(_) => (7, 'd', 'n')
    case DagNodeNode(_, _) => (8, 'd', 'e')
    case TrialNode(_) => (5, 't', 'l')
    case TrialRoomNode(_) => (10, 't', 'm')
    case WorkJobNode(_) => (8, 'w', 'b')
    case WorkEventNode(_) => (10, 'w', 't')
    case LlmUsageNode(_) => (9, 'l', 'e')
  }

  lemma PrefixSigned(id: NodeId)
    ensures Prefix(id) != "" && Signature(Prefix(id)) == PrefixSignature(id) && ':' !in Prefix(id)
  {}

  /** Nodes written alike are the same, but for the two kinds whose id joins two fields with a colon. */
  lemma NodeTextDetermines(a: NodeId, b: NodeId)
    requires NodeText(a) == NodeText(b)
    ensures Tail(a) == Tail(b)
    ensures a == b || (a.DagNodeNode? && b.DagNodeNode?) || (a.FindingNode? && b.FindingNode?)
  {
    PrefixSigned(a);
    PrefixSigned(b);
    SplitAtColon(Prefix(a), Tail(a), Prefix(b), Tail(b));
    hide Prefix, NodeText, Signature;
    match a
    case AgentNode(n) => IntTextInjective(n, b.agentId);
    case DeploymentEventNode(n) => IntTextInjective(n, b.eventRow);
    case ProofNode(n) => IntTextInjective(n, b.proofRow);
    case SubagentEventNode(n) => IntTextInjective(n, b.subagentEventRow);
    case TrialNode(n) => IntTextInjective(n, b.trialRow);
    case LlmUsageNode(n) => IntTextInjective(n, b.usageRow);
    case _ =>
  }

  /** Length, first and last letter in one number. */
  function Code(text: string): int
  {
    if text == "" then 0 else |text| * 1_000_000 + text[0] as int * 1_000 + text[|text| - 1] as int
  }

  function KindCode(kind: EdgeKind): int
  {
    match kind
    case AgentHasDeployment => 20_097_116
    case DeploymentDeploysVersion => 26_100_110
    case DeploymentHasEvent => 20_100_116
    case DeploymentReviewedBy => 22_100_121
    case AgentHasProof => 15_097_102
    case ProofTestsVersion => 19_112_110
    case AgentHasGrant => 15_097_116
    case GrantParentOf => 15_103_102
    case AgentHasSubagentRun => 22_097_110
    case GrantAuthorizesSubagentRun => 29_103_110
    case SubagentRunHasEvent => 22_115_116
    case GrantAuthorizesProof => 22_103_102
    case ReviewHasFinding => 18_114_103
    case AgentHasReceipt => 17_097_116
    case AgentHasSession => 17_097_110
    case ReceiptHasSession => 19_114_110
    case AgentExecutedDagNode => 23_097_101
    case DagRunHasNode => 16_100_101
    case GrantAuthorizesDagNode => 25_103_101
    case DagNodeDependsOn => 19_100_110
    case AgentHasTrial => 15_097_108
    case TrialRoomHasRun => 18_116_110
    case GrantAuthorizesTrial => 22_103_108
    case AgentHasWorkJob => 18_097_098
    case WorkJobParentOf => 18_119_102
    case WorkJobHasEvent => 18_119_116
    case FindingTargetedBy(origin) => if origin == FromJob then 28_102_098 else 30_102_116
    case ReferencesReview(origin) => if origin == FromJob then 26_119_119 else 28_119_119
    case ProducedVersion(origin) => if origin == FromJob then 25_119_110 else 27_119_110
    case TriggeredDeployment(origin) => if origin == FromJob then 29_119_116 else 31_119_116
    case GrantHasLlmUsage => 19_103_101
    case DagRunHasLlmUsage => 21_100_101
    case AgentHasLlmUsage => 19_097_101
    case AgentHasInferredLlmUsage => 28_097_101
  }

  lemma VersionKindCoded(kind: EdgeKind)
    requires IsVersionKind(kind)
    ensures Code(VersionKindText(kind)) == KindCode(kind)
  {}

  lemma AuthorityKindCoded(kind: EdgeKind)
    requires IsAuthorityKind(kind)
    ensures Code(AuthorityKindText(kind)) == KindCode(kind)
  {}

  lemma DagKindCoded(kind: EdgeKind)
    requires IsDagKind(kind)
    ensures Code(DagKindText(kind)) == KindCode(kind)
  {}

  lemma WorkKindCoded(kind: EdgeKind)
    requires IsWorkKind(kind)
    ensures Code(WorkKindText(kind)) == KindCode(kind)
  {}

  lemma RefKindCoded(kind: EdgeKind)
    requires IsRefKind(kind)
    ensures Code(if kind.origin == FromJob then JobRefKindText(kind) else EventRefKindText(kind)) == KindCode(kind)
  {}

  lemma KindCoded(kind: EdgeKind)
    ensures Code(KindText(kind)) == KindCode(kind)
  {
    hide Code, KindCode, VersionKindText, AuthorityKindText, DagKindText, WorkKindText, JobRefKindText,
         EventRefKindText;
    if IsVersionKind(kind) {
      VersionKindCoded(kind);
    } else if IsAuthorityKind(kind) {
      AuthorityKindCoded(kind);
    } else if IsDagKind(kind) {
      DagKindCoded(kind);
    } else if IsWorkKind(kind) {
      WorkKindCoded(kind);
    } else {
      RefKindCoded(kind);
    }
  }

  lemma EarlierKindCode(a: EdgeKind, b: EdgeKind)
    requires IsVersionKind(a) || IsAuthorityKind(a)
    ensures KindCode(a) == KindCode(b) ==> a == b
  {}

  lemma LaterKindCode(a: EdgeKind, b: EdgeKind)
    requires IsDagKind(a) || IsWorkKind(a)
    ensures KindCode(a) == KindCode(b) ==> a == b
  {}

  lemma RefKindCode(a: EdgeKind, b: EdgeKind)
    requires IsRefKind(a)
    ensures KindCode(a) == KindCode(b) ==> a == b
  {}

  lemma KindCodeDetermines(a: EdgeKind, b: EdgeKind)
    requires KindCode(a) == KindCode(b)
    ensures a == b
  {
    hide KindCode;
    if IsVersionKind(a) || IsAuthorityKind(a) {
      EarlierKindCode(a, b);
    } else if IsDagKind(a) || IsWorkKind(a) {
      LaterKindCode(a, b);
    } else {
      RefKindCode(a, b);
    }
  }

  /** Edges written alike are of one kind, and their ends are written alike around the arrow. */
  lemma EdgeTextDetermines(e: Edge, other: Edge)
    requires EdgeText(e) == EdgeText(other)
    ensures e.kind == other.kind
    ensures Ends(NodeText(e.source), NodeText(e.target)) == Ends(NodeText(other.source), NodeText(other.target))
  {
    KindCoded(e.kind);
    KindCoded(other.kind);
    hide KindText;
    SplitAtColon(KindText(e.kind), Ends(NodeText(e.source), NodeText(e.target)),
                 KindText(other.kind), Ends(NodeText(other.source), NodeText(other.target)));
    KindCodeDetermines(e.kind, other.kind);
  }
}
