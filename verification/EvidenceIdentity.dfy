/**
 * When two of the projected ids are written alike, although all keys are distinct: exactly when two DAG nodes, two
 * deployed versions or two reviewed deployments join to one text.
 */
module EvidenceIdentity {
  import opened Common
  import opened Decimal
  import opened EvidenceRows
  import opened EvidenceIds
  import opened EvidenceProjection
  import opened EvidenceKeys

  // Items that are appended without a look come from the rows of their own phase.

  lemma NotFrom<R(!new)>(rows: seq<R>, emits: R -> set<Item>, phase: nat, x: Item)
    requires RankedAt(rows, emits, phase) && Rank(x) > 0 && Rank(x) != phase
    ensures x !in Gather(rows, emits)
  {
    hide Rank;
  }

  lemma NotInVersions(all: Rows, x: Item)
    requires DistinctKeys(all) && Rank(x) > 3
    ensures x !in VersionPart(all)
  {
    assert Rank(Node(Root(all))) == 0;
    hide Rank, RankedAt, Apart, Gather, DistinctBy, DistinctChildren, NoRepeats;
    DeploymentsApart(all);
    ReviewsApart(all);
    ProofsApart(all);
    NotFrom(all.deployments, DeploymentItems(all), 1, x);
    NotFrom(all.reviews, ReviewItems(all), 2, x);
    NotFrom(all.proofs, ProofItems(all), 3, x);
  }

  lemma NotInExecution(all: Rows, x: Item)
    requires DistinctKeys(all) && Rank(x) > 0 && (Rank(x) < 4 || Rank(x) > 9)
    ensures x !in ExecutionPart(all)
  {
    hide Rank, RankedAt, Apart, Gather, DistinctBy, DistinctChildren, NoRepeats;
    GrantsApart(all);
    SubagentsApart(all);
    ProofGrantsApart(all);
    FindingsApart(all);
    ReceiptsApart(all);
    SessionsApart(all);
    NotFrom(all.grants, GrantItems(all), 4, x);
    NotFrom(all.subagents, SubagentItems(all), 5, x);
    NotFrom(all.proofs, ProofGrantItems(all), 6, x);
    NotFrom(all.reviews, FindingItems(), 7, x);
    NotFrom(all.receipts, ReceiptItems(all), 8, x);
    NotFrom(all.sessions, SessionItems(all), 9, x);
  }

  /** Of the work rows, only DAG nodes have rank 11; none has a lower rank than 10. */
  lemma NotInOtherWork(all: Rows, x: Item)
    requires DistinctKeys(all) && Rank(x) > 0 && (Rank(x) < 10 || Rank(x) == 11) && x in WorkPart(all)
    ensures Rank(x) == 11 && x in Gather(all.dagNodes, DagNodeItems(all))
  {
    hide Rank, RankedAt, Apart, Gather, DistinctBy, DistinctChildren, NoRepeats;
    DagRunsApart(all);
    DagNodesApart(all);
    DependenciesApart(all);
    TrialsApart(all);
    JobsApart(all);
    UsagesApart(all);
    NotFrom(all.dagRuns, DagRunItems(), 10, x);
    if Rank(x) != 11 { NotFrom(all.dagNodes, DagNodeItems(all), 11, x); }
    NotFrom(all.dagNodes, DependencyItems(all), 12, x);
    NotFrom(all.trials, TrialItems(all), 13, x);
    NotFrom(all.jobs, JobItems(all), 14, x);
    NotFrom(all.usages, UsageItems(all), 15, x);
  }

  lemma ComesFromVersionRows(all: Rows, x: Item)
    requires DistinctKeys(all) && x in Projection(all) && 1 <= Rank(x) <= 3
    ensures Rank(x) == 1 ==> x in Gather(all.deployments, DeploymentItems(all))
    ensures Rank(x) == 2 ==> x in Gather(all.reviews, ReviewItems(all))
    ensures Rank(x) == 3 ==> x in Gather(all.proofs, ProofItems(all))
  {
    assert Rank(Node(Root(all))) == 0;
    hide Rank, RankedAt, Apart, Gather, DistinctBy, DistinctChildren, NoRepeats, ExecutionPart, WorkPart;
    NotInExecution(all, x);
    if x in WorkPart(all) { NotInOtherWork(all, x); }
    DeploymentsApart(all);
    ReviewsApart(all);
    ProofsApart(all);
    if Rank(x) != 1 { NotFrom(all.deployments, DeploymentItems(all), 1, x); }
    if Rank(x) != 2 { NotFrom(all.reviews, ReviewItems(all), 2, x); }
    if Rank(x) != 3 { NotFrom(all.proofs, ProofItems(all), 3, x); }
  }

  lemma RowIsDagNode(all: Rows, n: DagNodeRow)
    requires n in all.dagNodes
    ensures IsDagNode(all, n.runId, n.nodeId)
  {}

  lemma DagNodeOfRow(all: Rows, n: DagNodeRow, id: NodeId)
    requires Node(id) in DagNodeItems(all)(n)
    ensures id == DagNodeNode(n.runId, n.nodeId)
  {
    hide IsGrant;
  }

  lemma ComesFromDagNodes(all: Rows, x: Item)
    requires DistinctKeys(all) && x in Projection(all) && Rank(x) == 11
    ensures x in Gather(all.dagNodes, DagNodeItems(all))
  {
    hide Rank, VersionPart, ExecutionPart, WorkPart, DistinctKeys, Gather, DagNodeItems;
    NotInVersions(all, x);
    NotInExecution(all, x);
    NotInOtherWork(all, x);
  }

  lemma DagNodeRank(id: NodeId)
    ensures id.DagNodeNode? ==> Rank(Node(id)) == 11
  {}

  lemma DagNodeHasRow(all: Rows, id: NodeId)
    requires DistinctKeys(all) && id.DagNodeNode? && Node(id) in Projection(all)
    ensures IsDagNode(all, id.nodeRun, id.nodeKey)
  {
    hide *;
    DagNodeRank(id);
    ComesFromDagNodes(all, Node(id));
    var n := RowOf(all.dagNodes, DagNodeItems(all), Node(id));
    DagNodeOfRow(all, n, id);
    RowIsDagNode(all, n);
  }

  // Nodes.

  function Joined(n: DagNodeRow): string
  {
    n.runId + ":" + n.nodeId
  }

  /** Two rows of the DAG node table whose run and node id join to the same text. */
  predicate DagNodesAlike(all: Rows)
  {
    exists i, j :: 0 <= i < j < |all.dagNodes| && Joined(all.dagNodes[i]) == Joined(all.dagNodes[j])
  }

  /** Two different projected nodes with one id. Findings are not meant: they are looked up under their id. */
  ghost predicate SharedNodeId(all: Rows)
  {
    exists a: NodeId, b: NodeId ::
      && a != b && Node(a) in Projection(all) && Node(b) in Projection(all)
      && !a.FindingNode? && NodeText(a) == NodeText(b)
  }

  lemma DagNodeProjected(all: Rows, n: DagNodeRow)
    requires n in all.dagNodes
    ensures Node(DagNodeNode(n.runId, n.nodeId)) in Projection(all)
  {
    GatherHas(all.dagNodes, n, DagNodeItems(all));
    assert Node(DagNodeNode(n.runId, n.nodeId)) in DagNodeItems(all)(n);
    hide VersionPart, ExecutionPart, Gather, DagRunItems, DagNodeItems, DependencyItems, TrialItems, JobItems,
         UsageItems;
  }

  lemma SharedNodeIdExactlyWhen(all: Rows)
    requires DistinctKeys(all)
    ensures SharedNodeId(all) <==> DagNodesAlike(all)
  {
    if SharedNodeId(all) {
      var a: NodeId, b: NodeId :|
        && a != b && Node(a) in Projection(all) && Node(b) in Projection(all)
        && !a.FindingNode? && NodeText(a) == NodeText(b);
      SharedNodesAreAlike(all, a, b);
    }
    if DagNodesAlike(all) {
      var i, j :| 0 <= i < j < |all.dagNodes| && Joined(all.dagNodes[i]) == Joined(all.dagNodes[j]);
      AlikeNodesAreShared(all, i, j);
    }
  }

  lemma SharedNodesAreAlike(all: Rows, a: NodeId, b: NodeId)
    requires DistinctKeys(all) && a != b && Node(a) in Projection(all) && Node(b) in Projection(all)
    requires !a.FindingNode? && NodeText(a) == NodeText(b)
    ensures DagNodesAlike(all)
  {
    hide *;
    NodeTextDetermines(a, b);
    DagNodeHasRow(all, a);
    DagNodeHasRow(all, b);
    RowsAreAlike(all, a, b);
  }

  lemma RowsAreAlike(all: Rows, a: NodeId, b: NodeId)
    requires a.DagNodeNode? && b.DagNodeNode? && a != b && Tail(a) == Tail(b)
    requires IsDagNode(all, a.nodeRun, a.nodeKey) && IsDagNode(all, b.nodeRun, b.nodeKey)
    ensures DagNodesAlike(all)
  {
    var i :| 0 <= i < |all.dagNodes| && all.dagNodes[i].runId == a.nodeRun && all.dagNodes[i].nodeId == a.nodeKey;
    var j :| 0 <= j < |all.dagNodes| && all.dagNodes[j].runId == b.nodeRun && all.dagNodes[j].nodeId == b.nodeKey;
    assert Joined(all.dagNodes[i]) == Tail(a) && Joined(all.dagNodes[j]) == Tail(b);
    assert i != j;
  }

  lemma AlikeNodesAreShared(all: Rows, i: nat, j: nat)
    requires DistinctKeys(all) && i < j < |all.dagNodes| && Joined(all.dagNodes[i]) == Joined(all.dagNodes[j])
    ensures SharedNodeId(all)
  {
    var m, n := all.dagNodes[i], all.dagNodes[j];
    assert DagNodeKey()(m) != DagNodeKey()(n);
    var a, b := DagNodeNode(m.runId, m.nodeId), DagNodeNode(n.runId, n.nodeId);
    assert Tail(a) == Joined(m) && Tail(b) == Joined(n) && Prefix(a) == Prefix(b);
    hide Projection, DistinctKeys;
    DagNodeProjected(all, m);
    DagNodeProjected(all, n);
    assert a != b && NodeText(a) == NodeText(b);
  }

  /** In particular no two nodes share an id when no run id holds a colon. */
  lemma PlainRunsKeepNodesApart(all: Rows)
    requires DistinctKeys(all) && forall n <- all.dagNodes :: ':' !in n.runId
    ensures !DagNodesAlike(all)
  {
    if i, j :| 0 <= i < j < |all.dagNodes| && Joined(all.dagNodes[i]) == Joined(all.dagNodes[j]) {
      var m, n := all.dagNodes[i], all.dagNodes[j];
      assert DagNodeKey()(m) != DagNodeKey()(n);
      hide DistinctKeys;
      SplitAtColon(m.runId, m.nodeId, n.runId, n.nodeId);
      assert false;
    }
  }

  // Edges.

  function VersionRef(d: DeploymentRow): string
  {
    FirstOf(d.headSha, d.image)
  }

  /** Two deployments of a version whose ids and versions join to the same text around an arrow. */
  predicate DeploymentsAlike(all: Rows)
  {
    exists i, j :: 0 <= i < j < |all.deployments| && SameVersionText(all.deployments[i], all.deployments[j])
  }

  predicate SameVersionText(c: DeploymentRow, d: DeploymentRow)
  {
    && VersionRef(c) != "" && VersionRef(d) != ""
    && Ends(c.deployId, "version:" + VersionRef(c)) == Ends(d.deployId, "version:" + VersionRef(d))
  }

  /** Two reviews of loaded deployments whose ids join to the same text around an arrow. */
  predicate ReviewsAlike(all: Rows)
  {
    exists i, j :: 0 <= i < j < |all.reviews| && SameReviewText(all, all.reviews[i], all.reviews[j])
  }

  predicate SameReviewText(all: Rows, q: ReviewRow, r: ReviewRow)
  {
    && Linked(all, q) && Linked(all, r)
    && Ends(q.deployId.value, "review:" + q.reviewId) == Ends(r.deployId.value, "review:" + r.reviewId)
  }

  predicate BlindEdgesAlike(all: Rows)
  {
    DeploymentsAlike(all) || ReviewsAlike(all)
  }

  /** Two different projected edges with one id, the second appended without a look. */
  ghost predicate SharedEdgeId(all: Rows)
  {
    exists e: Edge, f: Edge ::
      && e != f && Link(e) in Projection(all) && Link(f) in Projection(all)
      && Rank(Link(f)) > 0 && EdgeText(e) == EdgeText(f)
  }

  function VersionEdge(d: DeploymentRow): Edge
  {
    Edge(DeploymentDeploysVersion, DeploymentNode(d.deployId), VersionNode(VersionRef(d)))
  }

  function ReviewEdge(r: ReviewRow): Edge
    requires r.deployId.Some?
  {
    Edge(DeploymentReviewedBy, DeploymentNode(r.deployId.value), ReviewNode(r.reviewId))
  }

  /** What the edges look like that are appended without a look. */
  ghost predicate BlindShape(all: Rows, e: Edge)
  {
    match e.kind
    case AgentHasDeployment => e.source.AgentNode? && e.target.DeploymentNode?
    case DeploymentDeploysVersion => exists d <- all.deployments :: VersionRef(d) != "" && e == VersionEdge(d)
    case DeploymentHasEvent => e.source.DeploymentNode? && e.target.DeploymentEventNode?
    case DeploymentReviewedBy => exists r <- all.reviews :: Linked(all, r) && e == ReviewEdge(r)
    case AgentHasProof => e.source.AgentNode? && e.target.ProofNode?
    case ProofTestsVersion => e.source.ProofNode? && e.target.VersionNode?
    case _ => false
  }

  lemma DeploymentShape(all: Rows, d: DeploymentRow, e: Edge)
    requires d in all.deployments && Link(e) in DeploymentItems(all)(d) && Rank(Link(e)) > 0
    ensures BlindShape(all, e)
  {
    var node := DeploymentNode(d.deployId);
    if Link(e) in EventItems(DeploymentHasEvent, node, DeploymentEvents(d.events)) {
      EventParts(DeploymentHasEvent, node, DeploymentEvents(d.events), Link(e));
    }
    hide EventItems;
  }

  lemma ReviewShape(all: Rows, r: ReviewRow, e: Edge)
    requires r in all.reviews && Link(e) in ReviewItems(all)(r)
    ensures BlindShape(all, e)
  {
    hide Linked;
  }

  lemma ProofShape(all: Rows, p: ProofRow, e: Edge)
    requires Link(e) in ProofItems(all)(p)
    ensures BlindShape(all, e)
  {}

  lemma BlindEdgesHaveShape(all: Rows, e: Edge)
    requires DistinctKeys(all) && Link(e) in Projection(all) && Rank(Link(e)) > 0
    ensures BlindShape(all, e)
  {
    hide *;
    LinkRank(e);
    ComesFromVersionRows(all, Link(e));
    if Rank(Link(e)) == 1 {
      var d := RowOf(all.deployments, DeploymentItems(all), Link(e));
      DeploymentShape(all, d, e);
    } else if Rank(Link(e)) == 2 {
      var r := RowOf(all.reviews, ReviewItems(all), Link(e));
      ReviewShape(all, r, e);
    } else {
      var p := RowOf(all.proofs, ProofItems(all), Link(e));
      ProofShape(all, p, e);
    }
  }

  lemma LinkRank(e: Edge)
    ensures Rank(Link(e)) <= 3
  {}

  /** Ids that end in a number hold no arrow. */
  lemma NumberedIdsArePlain(id: NodeId)
    requires id.AgentNode? || id.ProofNode? || id.DeploymentEventNode?
    ensures '>' !in NodeText(id) && !HoldsArrow(NodeText(id))
  {}

  lemma EqualEnds(e: Edge, f: Edge)
    requires NodeText(e.source) == NodeText(f.source) && NodeText(e.target) == NodeText(f.target) && e.kind == f.kind
    requires !e.source.DagNodeNode? && !e.source.FindingNode? && !e.target.DagNodeNode? && !e.target.FindingNode?
    ensures e == f
  {
    NodeTextDetermines(e.source, f.source);
    NodeTextDetermines(e.target, f.target);
    hide NodeText;
  }

  /** A deployment's id in front of an arrow, without its prefix. */
  lemma WithoutPrefix(a: string, x: string, b: string, y: string)
    ensures Ends(NodeText(DeploymentNode(a)), x) == Ends(NodeText(DeploymentNode(b)), y) <==> Ends(a, x) == Ends(b, y)
  {
    var front := "deployment:";
    assert NodeText(DeploymentNode(a)) == front + a && NodeText(DeploymentNode(b)) == front + b;
    hide NodeText;
    assert Ends(front + a, x) == front + Ends(a, x) && Ends(front + b, y) == front + Ends(b, y);
    assert (front + Ends(a, x))[|front|..] == Ends(a, x) && (front + Ends(b, y))[|front|..] == Ends(b, y);
  }

  lemma SharedEdgesAreAlike(all: Rows, e: Edge, f: Edge)
    requires BlindShape(all, e) && BlindShape(all, f) && e != f && EdgeText(e) == EdgeText(f)
    ensures BlindEdgesAlike(all)
  {
    EdgeTextDetermines(e, f);
    hide EdgeText;
    match e.kind
    case DeploymentDeploysVersion => SharedVersions(all, e, f);
    case DeploymentReviewedBy => SharedReviews(all, e, f);
    case DeploymentHasEvent =>
      NumberedIdsArePlain(e.target);
      NumberedIdsArePlain(f.target);
      hide NodeText;
      SplitAtLastArrow(NodeText(e.source), NodeText(e.target), NodeText(f.source), NodeText(f.target));
      EqualEnds(e, f);
    case _ =>
      NumberedIdsArePlain(e.source);
      NumberedIdsArePlain(f.source);
      hide NodeText;
      SplitAtFirstArrow(NodeText(e.source), NodeText(e.target), NodeText(f.source), NodeText(f.target));
      EqualEnds(e, f);
  }

  lemma SharedVersions(all: Rows, e: Edge, f: Edge)
    requires e.kind.DeploymentDeploysVersion? && f.kind.DeploymentDeploysVersion?
    requires BlindShape(all, e) && BlindShape(all, f) && e != f
    requires Ends(NodeText(e.source), NodeText(e.target)) == Ends(NodeText(f.source), NodeText(f.target))
    ensures DeploymentsAlike(all)
  {
    var i :| 0 <= i < |all.deployments| && VersionRef(all.deployments[i]) != "" && e == VersionEdge(all.deployments[i]);
    var j :| 0 <= j < |all.deployments| && VersionRef(all.deployments[j]) != "" && f == VersionEdge(all.deployments[j]);
    var c, d := all.deployments[i], all.deployments[j];
    VersionTexts(c);
    VersionTexts(d);
    WithoutPrefix(c.deployId, "version:" + VersionRef(c), d.deployId, "version:" + VersionRef(d));
    assert SameVersionText(c, d) && SameVersionText(d, c);
    assert i != j;
  }

  lemma VersionTexts(d: DeploymentRow)
    ensures NodeText(VersionEdge(d).source) == NodeText(DeploymentNode(d.deployId))
    ensures NodeText(VersionEdge(d).target) == "version:" + VersionRef(d)
  {}

  lemma ReviewTexts(r: ReviewRow)
    requires r.deployId.Some?
    ensures NodeText(ReviewEdge(r).source) == NodeText(DeploymentNode(r.deployId.value))
    ensures NodeText(ReviewEdge(r).target) == "review:" + r.reviewId
  {}

  lemma SharedReviews(all: Rows, e: Edge, f: Edge)
    requires e.kind.DeploymentReviewedBy? && f.kind.DeploymentReviewedBy?
    requires BlindShape(all, e) && BlindShape(all, f) && e != f
    requires Ends(NodeText(e.source), NodeText(e.target)) == Ends(NodeText(f.source), NodeText(f.target))
    ensures ReviewsAlike(all)
  {
    var i :| 0 <= i < |all.reviews| && Linked(all, all.reviews[i]) && e == ReviewEdge(all.reviews[i]);
    var j :| 0 <= j < |all.reviews| && Linked(all, all.reviews[j]) && f == ReviewEdge(all.reviews[j]);
    var q, r := all.reviews[i], all.reviews[j];
    ReviewTexts(q);
    ReviewTexts(r);
    WithoutPrefix(q.deployId.value, "review:" + q.reviewId, r.deployId.value, "review:" + r.reviewId);
    assert SameReviewText(all, q, r) && SameReviewText(all, r, q);
    assert i != j;
  }

  lemma VersionEdgeProjected(all: Rows, d: DeploymentRow)
    requires d in all.deployments && VersionRef(d) != ""
    ensures Link(VersionEdge(d)) in Projection(all) && Rank(Link(VersionEdge(d))) > 0
  {
    VersionEdgeOfRow(all, d);
    hide ExecutionPart, WorkPart, Gather, DeploymentItems, ReviewItems, ProofItems;
    GatherHas(all.deployments, d, DeploymentItems(all));
  }

  lemma VersionEdgeOfRow(all: Rows, d: DeploymentRow)
    requires VersionRef(d) != ""
    ensures Link(VersionEdge(d)) in DeploymentItems(all)(d)
  {
    hide EventItems;
  }

  lemma ReviewEdgeProjected(all: Rows, r: ReviewRow)
    requires r in all.reviews && Linked(all, r)
    ensures Link(ReviewEdge(r)) in Projection(all) && Rank(Link(ReviewEdge(r))) > 0
  {
    ReviewEdgeOfRow(all, r);
    hide ExecutionPart, WorkPart, Gather, DeploymentItems, ReviewItems, ProofItems;
    GatherHas(all.reviews, r, ReviewItems(all));
  }

  lemma ReviewEdgeOfRow(all: Rows, r: ReviewRow)
    requires Linked(all, r)
    ensures Link(ReviewEdge(r)) in ReviewItems(all)(r)
  {
    hide Linked;
  }

  lemma AlikeVersionsAreShared(all: Rows, i: nat, j: nat)
    requires DistinctKeys(all) && i < j < |all.deployments| && SameVersionText(all.deployments[i], all.deployments[j])
    ensures SharedEdgeId(all)
  {
    var c, d := all.deployments[i], all.deployments[j];
    assert DeployKey()(c) != DeployKey()(d);
    VersionEdgeProjected(all, c);
    VersionEdgeProjected(all, d);
    VersionTexts(c);
    VersionTexts(d);
    WithoutPrefix(c.deployId, "version:" + VersionRef(c), d.deployId, "version:" + VersionRef(d));
    hide Projection, DistinctKeys, Rank, NodeText;
    assert VersionEdge(c) != VersionEdge(d) && EdgeText(VersionEdge(c)) == EdgeText(VersionEdge(d));
  }

  lemma AlikeReviewsAreShared(all: Rows, i: nat, j: nat)
    requires DistinctKeys(all) && i < j < |all.reviews| && SameReviewText(all, all.reviews[i], all.reviews[j])
    ensures SharedEdgeId(all)
  {
    var q, r := all.reviews[i], all.reviews[j];
    assert ReviewKey()(q) != ReviewKey()(r);
    ReviewEdgeProjected(all, q);
    ReviewEdgeProjected(all, r);
    ReviewTexts(q);
    ReviewTexts(r);
    WithoutPrefix(q.deployId.value, "review:" + q.reviewId, r.deployId.value, "review:" + r.reviewId);
    hide Projection, DistinctKeys, Rank, NodeText;
    assert ReviewEdge(q) != ReviewEdge(r) && EdgeText(ReviewEdge(q)) == EdgeText(ReviewEdge(r));
  }

  lemma SharedEdgeIdExactlyWhen(all: Rows)
    requires DistinctKeys(all)
    ensures SharedEdgeId(all) <==> BlindEdgesAlike(all)
  {
    hide DistinctKeys, Projection, SameVersionText, SameReviewText;
    if SharedEdgeId(all) {
      var e: Edge, f: Edge :|
        && e != f && Link(e) in Projection(all) && Link(f) in Projection(all)
        && Rank(Link(f)) > 0 && EdgeText(e) == EdgeText(f);
      EdgeTextDetermines(e, f);
      hide EdgeText;
      BlindEdgesHaveShape(all, e);
      BlindEdgesHaveShape(all, f);
      SharedEdgesAreAlike(all, e, f);
    }
    if DeploymentsAlike(all) {
      var i, j :| 0 <= i < j < |all.deployments| && SameVersionText(all.deployments[i], all.deployments[j]);
      AlikeVersionsAreShared(all, i, j);
    }
    if ReviewsAlike(all) {
      var i, j :| 0 <= i < j < |all.reviews| && SameReviewText(all, all.reviews[i], all.reviews[j]);
      AlikeReviewsAreShared(all, i, j);
    }
  }

  /** In particular no two edges share an id when no deployment id holds an arrow. */
  lemma PlainDeploymentsKeepEdgesApart(all: Rows)
    requires DistinctKeys(all) && forall d <- all.deployments :: !HoldsArrow(d.deployId)
    ensures !BlindEdgesAlike(all)
  {
    forall i, j | 0 <= i < j < |all.deployments| ensures !SameVersionText(all.deployments[i], all.deployments[j]) {
      assert DeployKey()(all.deployments[i]) != DeployKey()(all.deployments[j]);
      hide SameVersionText, DistinctKeys;
      PlainVersionsDiffer(all.deployments[i], all.deployments[j]);
    }
    forall i, j | 0 <= i < j < |all.reviews| ensures !SameReviewText(all, all.reviews[i], all.reviews[j]) {
      assert ReviewKey()(all.reviews[i]) != ReviewKey()(all.reviews[j]);
      hide SameReviewText, DistinctKeys;
      PlainReviewsDiffer(all, all.reviews[i], all.reviews[j]);
    }
    hide SameVersionText, SameReviewText, DistinctKeys;
  }

  lemma PlainVersionsDiffer(c: DeploymentRow, d: DeploymentRow)
    requires !HoldsArrow(c.deployId) && !HoldsArrow(d.deployId) && c.deployId != d.deployId
    ensures !SameVersionText(c, d)
  {
    if SameVersionText(c, d) {
      SplitAtFirstArrow(c.deployId, "version:" + VersionRef(c), d.deployId, "version:" + VersionRef(d));
    }
  }

  lemma PlainReviewsDiffer(all: Rows, q: ReviewRow, r: ReviewRow)
    requires forall d <- all.deployments :: !HoldsArrow(d.deployId)
    requires q.reviewId != r.reviewId
    ensures !SameReviewText(all, q, r)
  {
    var x, y := "review:" + q.reviewId, "review:" + r.reviewId;
    assert x[7..] == q.reviewId && y[7..] == r.reviewId;
    if SameReviewText(all, q, r) {
      SplitAtFirstArrow(q.deployId.value, x, r.deployId.value, y);
    }
  }

  // Rows with distinct keys whose ids are written alike.

  function NoRows(agentName: string): Rows
  {
    Rows(1, agentName, [], [], [], [], [], [], [], [], [], [], [], [])
  }

  /** The node "b:c" of the run "a", and the node "c" of the run "a:b". */
  function TwoColons(): Rows
  {
    NoRows("agent").(dagNodes := [DagNodeRow("a", "b:c", "", []), DagNodeRow("a:b", "c", "", [])])
  }

  lemma ColonJoinsTwoNodes()
    ensures DistinctKeys(TwoColons()) && DagNodesAlike(TwoColons())
    ensures NodeText(DagNodeNode("a", "b:c")) == NodeText(DagNodeNode("a:b", "c")) == "dag_node:a:b:c"
  {
    ColonKeys();
    hide DistinctKeys, NodeText;
    assert Joined(TwoColons().dagNodes[0]) == "a:b:c" == Joined(TwoColons().dagNodes[1]);
    ColonTexts();
  }

  lemma ColonKeys()
    ensures DistinctKeys(TwoColons())
  {
    assert |TwoColons().dagNodes[0].runId| != |TwoColons().dagNodes[1].runId|;
  }

  lemma ColonTexts()
    ensures NodeText(DagNodeNode("a", "b:c")) == NodeText(DagNodeNode("a:b", "c")) == "dag_node:a:b:c"
  {
    assert "a" + ":" + "b:c" == "a:b:c" == "a:b" + ":" + "c";
  }

  /** A version of the deployment "a", and one of the deployment "a->version:b". */
  function TwoArrows(): Rows
  {
    NoRows("agent").(deployments :=
                     [DeploymentRow("a", "b->version:c", "", []), DeploymentRow("a->version:b", "c", "", [])])
  }

  lemma ArrowJoinsTwoEdges()
    ensures DistinctKeys(TwoArrows()) && BlindEdgesAlike(TwoArrows())
  {
    ArrowKeys();
    ArrowTexts();
    hide DistinctKeys, SameVersionText;
  }

  lemma ArrowKeys()
    ensures DistinctKeys(TwoArrows())
  {
    var c, d := TwoArrows().deployments[0], TwoArrows().deployments[1];
    assert |c.deployId| != |d.deployId|;
  }

  lemma ArrowTexts()
    ensures SameVersionText(TwoArrows().deployments[0], TwoArrows().deployments[1])
  {
    assert "a" + "->" + ("version:" + "b->version:c") == "a->version:b" + "->" + ("version:" + "c");
  }
}
