/** The whole projection of one agent (`build_evidence_dag`): phase after phase, then the chains over it. */
module EvidenceBuild {
  import opened Common
  import opened EvidenceRows
  import opened EvidenceSelection
  import opened EvidenceKinds
  import opened EvidenceIds
  import opened EvidenceIdentity
  import opened EvidenceProjection
  import opened EvidenceKeys
  import opened EvidenceVersions
  import opened EvidenceExecution
  import opened EvidenceWork
  import opened EvidenceIntegrity
  import opened EvidenceChains

  predicate IsRoom(x: Item)
  {
    x.Node? && x.id.TrialRoomNode?
  }

  ghost predicate NoRooms(items: set<Item>)
  {
    forall x <- items :: !IsRoom(x)
  }

  lemma NoRoomsIn<R>(before: set<Item>, rows: seq<R>, emits: R -> set<Item>)
    requires NoRooms(before) && forall row <- rows :: NoRooms(emits(row))
    ensures NoRooms(before + Gather(rows, emits))
  {
    hide IsRoom;
  }

  lemma EventsHaveNoRooms(kind: EdgeKind, owner: NodeId, events: seq<NodeId>)
    requires forall e <- events :: !e.TrialRoomNode?
    ensures NoRooms(EventItems(kind, owner, events))
  {
    forall x <- EventItems(kind, owner, events) ensures !IsRoom(x) { EventParts(kind, owner, events, x); }
  }

  lemma DeploymentHasNoRooms(all: Rows, d: DeploymentRow)
    ensures NoRooms(DeploymentItems(all)(d))
  {
    EventsHaveNoRooms(DeploymentHasEvent, DeploymentNode(d.deployId), DeploymentEvents(d.events));
    hide EventItems;
  }

  lemma SubagentHasNoRooms(all: Rows, s: SubagentRow)
    ensures NoRooms(SubagentItems(all)(s))
  {
    EventsHaveNoRooms(SubagentRunHasEvent, SubagentRunNode(s.grantId), SubagentEvents(s.events));
    hide EventItems, IsGrant;
  }

  lemma FindingsHaveNoRooms(r: ReviewRow)
    ensures NoRooms(FindingItems()(r))
  {
    EventsHaveNoRooms(ReviewHasFinding, ReviewNode(r.reviewId), Findings(r));
  }

  // Trial rooms come only with trials.

  lemma VersionsHaveNoRooms(all: Rows)
    ensures NoRooms({Node(Root(all))} + Gather(all.deployments, DeploymentItems(all))
                    + Gather(all.reviews, ReviewItems(all))
                    + Gather(all.proofs, ProofItems(all)))
  {
    assert NoRooms({Node(Root(all))});
    assert forall r <- all.reviews :: NoRooms(ReviewItems(all)(r));
    assert forall p <- all.proofs :: NoRooms(ProofItems(all)(p));
    hide NoRooms, Gather, DeploymentItems, ReviewItems, ProofItems;
    forall d <- all.deployments ensures NoRooms(DeploymentItems(all)(d)) { DeploymentHasNoRooms(all, d); }
    NoRoomsIn({Node(Root(all))}, all.deployments, DeploymentItems(all));
    NoRoomsIn({Node(Root(all))} + Gather(all.deployments, DeploymentItems(all)), all.reviews, ReviewItems(all));
    NoRoomsIn({Node(Root(all))} + Gather(all.deployments, DeploymentItems(all)) + Gather(all.reviews, ReviewItems(all)),
              all.proofs, ProofItems(all));
  }

  lemma ExecutionHasNoRooms(all: Rows)
    ensures NoRooms(ExecutionPart(all))
  {
    assert forall g <- all.grants :: NoRooms(GrantItems(all)(g));
    assert forall p <- all.proofs :: NoRooms(ProofGrantItems(all)(p));
    assert forall id <- all.receipts :: NoRooms(ReceiptItems(all)(id));
    assert forall s <- all.sessions :: NoRooms(SessionItems(all)(s));
    var none: set<Item> := {};
    assert NoRooms(none);
    hide NoRooms, Gather, GrantItems, SubagentItems, ProofGrantItems, FindingItems, ReceiptItems, SessionItems;
    forall s <- all.subagents ensures NoRooms(SubagentItems(all)(s)) { SubagentHasNoRooms(all, s); }
    forall r <- all.reviews ensures NoRooms(FindingItems()(r)) { FindingsHaveNoRooms(r); }
    NoRoomsIn(none, all.grants, GrantItems(all));
    var s1 := Gather(all.grants, GrantItems(all));
    assert none + s1 == s1;
    NoRoomsIn(s1, all.subagents, SubagentItems(all));
    var s2 := s1 + Gather(all.subagents, SubagentItems(all));
    NoRoomsIn(s2, all.proofs, ProofGrantItems(all));
    var s3 := s2 + Gather(all.proofs, ProofGrantItems(all));
    NoRoomsIn(s3, all.reviews, FindingItems());
    var s4 := s3 + Gather(all.reviews, FindingItems());
    NoRoomsIn(s4, all.receipts, ReceiptItems(all));
    NoRoomsIn(s4 + Gather(all.receipts, ReceiptItems(all)), all.sessions, SessionItems(all));
  }

  lemma DagHasNoRooms(all: Rows)
    ensures NoRooms({} + Gather(all.dagRuns, DagRunItems()) + Gather(all.dagNodes, DagNodeItems(all))
                    + Gather(all.dagNodes, DependencyItems(all)))
  {
    var none: set<Item> := {};
    assert NoRooms(none);
    assert forall id <- all.dagRuns :: NoRooms(DagRunItems()(id));
    assert forall n <- all.dagNodes :: NoRooms(DagNodeItems(all)(n)) && NoRooms(DependencyItems(all)(n));
    hide NoRooms, Gather, DagRunItems, DagNodeItems, DependencyItems;
    NoRoomsIn(none, all.dagRuns, DagRunItems());
    NoRoomsIn(none + Gather(all.dagRuns, DagRunItems()), all.dagNodes, DagNodeItems(all));
    NoRoomsIn(none + Gather(all.dagRuns, DagRunItems()) + Gather(all.dagNodes, DagNodeItems(all)), all.dagNodes,
              DependencyItems(all));
  }

  lemma NoRoomsUnion(a: set<Item>, b: set<Item>)
    requires NoRooms(a) && NoRooms(b)
    ensures NoRooms(a + b)
  {
    hide IsRoom;
  }

  lemma AuthorityChainsStep(before: seq<Chain>, all: Rows, grants: seq<GrantRow>, i: nat)
    requires i < |grants|
    ensures before + AuthorityChains(all, grants[..i + 1])
         == before + AuthorityChains(all, grants[..i])
            + if exists g <- grants[..i] :: g.grantId == grants[i].grantId then []
                 else Authority(all, grants[i].grantId)
  {
    hide Authority;
    assert grants[..i + 1][..i] == grants[..i];
  }

  ghost predicate IdsOf(done: set<string>, grants: seq<GrantRow>)
  {
    forall id :: id in done <==> exists g <- grants :: g.grantId == id
  }

  lemma IdsOfStep(done: set<string>, grants: seq<GrantRow>, i: nat)
    requires i < |grants| && IdsOf(done, grants[..i])
    ensures grants[i].grantId in done <==> exists g <- grants[..i] :: g.grantId == grants[i].grantId
    ensures IdsOf(done + {grants[i].grantId}, grants[..i + 1])
    ensures grants[i].grantId in done ==> done + {grants[i].grantId} == done
  {
    assert forall r :: r in grants[..i + 1] <==> r in grants[..i] || r == grants[i];
  }

  lemma NoGrantYet(before: seq<Chain>, all: Rows)
    ensures all.grants[..0] == [] && all.grants[..|all.grants|] == all.grants
    ensures before + AuthorityChains(all, []) == before && IdsOf({}, [])
  {}

  /** The chains of the authority phase: one for each grant id, in the order the ids first appear. */
  method AddAuthorityChains(g: EvidenceGraph, all: Rows)
    modifies g`chains
    ensures g.chains == old(g.chains) + AuthorityChains(all, all.grants)
    ensures exists ids :: FirstSeen(all.grants, ids) && g.chains == old(g.chains) + Flatten(PerGrant(all, ids))
  {
    hide *;
    ghost var order := AuthorityInOrder(all, all.grants);
    var rows := all.grants;
    var done: set<string> := {};
    NoGrantYet(g.chains, all);
    for i := 0 to |rows|
      invariant g.chains == old(g.chains) + AuthorityChains(all, rows[..i]) && IdsOf(done, rows[..i])
    {
      var grantId := rows[i].grantId;
      AuthorityChainsStep(old(g.chains), all, rows, i);
      IdsOfStep(done, rows, i);
      if grantId !in done {
        AddAuthority(g, all, grantId);
        done := done + {grantId};
      } else {
        NothingAdded(g.chains);
      }
    }
  }

  method AddAuthority(g: EvidenceGraph, all: Rows, grantId: string)
    modifies g`chains
    ensures g.chains == old(g.chains) + Authority(all, grantId)
    ensures AuthorityNames(all, grantId, g.chains[|old(g.chains)|..])
  {
    AuthorityByPosition(all, grantId);
    hide AuthorityNames;
    var grant := GrantNode(grantId);
    var nodes, edges := [grant], [];
    var node := if grantId != "" then DagNodeByGrant(all.dagNodes, grantId) else None;
    var proof := if grantId != "" then ProofByGrant(all.proofs, grantId) else None;
    ghost var run := if exists s <- all.subagents :: s.grantId == grantId then [SubagentRunNode(grantId)] else [];
    ghost var ids := if node.Some? then [DagNodeNode(node.value.runId, node.value.nodeId)] else [];
    ghost var proofs := if proof.Some? then [ProofNode(proof.value.id)] else [];
    hide DagNodeByGrant, ProofByGrant;
    if exists s <- all.subagents :: s.grantId == grantId {
      nodes := nodes + [SubagentRunNode(grantId)];
      edges := edges + [Edge(GrantAuthorizesSubagentRun, grant, SubagentRunNode(grantId))];
    }
    assert nodes == [grant] + run;
    if node.Some? {
      var id := DagNodeNode(node.value.runId, node.value.nodeId);
      nodes := nodes + [id];
      edges := edges + [Edge(GrantAuthorizesDagNode, grant, id)];
    }
    assert nodes == [grant] + run + ids;
    if proof.Some? {
      nodes := nodes + [ProofNode(proof.value.id)];
      edges := edges + [Edge(GrantAuthorizesProof, grant, ProofNode(proof.value.id))];
    }
    assert nodes == [grant] + run + ids + proofs;
    assert edges == (if run != [] then [Edge(GrantAuthorizesSubagentRun, grant, run[0])] else [])
                    + (if ids != [] then [Edge(GrantAuthorizesDagNode, grant, ids[0])] else [])
                    + (if proofs != [] then [Edge(GrantAuthorizesProof, grant, proofs[0])] else []);
    assert |nodes| == 1 + |run + ids + proofs|;
    if |nodes| > 1 {
      g.chains := g.chains + [Chain(AuthorityExecution, nodes, edges)];
    } else {
      assert g.chains + [] == g.chains;
    }
  }

  /** The version trust chain at the end of `build_evidence_dag`. */
  method AddTrust(g: EvidenceGraph, all: Rows)
    modifies g`chains
    ensures g.chains == old(g.chains) + Trust(all)
    ensures TrustNames(all, g.chains[|old(g.chains)|..])
  {
    TrustByPosition(all);
    hide TrustNames;
    hide FirstReview, FirstProof;
    var nodes: seq<NodeId>, edges: seq<Edge> := [], [];
    if all.deployments != [] {
      var latest := all.deployments[0];
      var node := DeploymentNode(latest.deployId);
      nodes := [node];
      assert nodes + [] == nodes;
      var review := FirstReview(all.reviews, latest.deployId);
      if review.Some? {
        nodes := nodes + [ReviewNode(review.value.reviewId)];
        edges := [Edge(DeploymentReviewedBy, node, ReviewNode(review.value.reviewId))];
      }
      assert nodes + [] == nodes;
      var proof := FirstProof(all.proofs, latest.headSha);
      if proof.Some? {
        nodes := nodes + [ProofNode(proof.value.id)];
      }
    }
    if |nodes| >= 2 {
      g.chains := g.chains + [Chain(VersionTrust, nodes, edges)];
    } else {
      assert g.chains + [] == g.chains;
    }
  }

  method AddVersionPart(g: EvidenceGraph, all: Rows)
    requires g.Valid() && g.Content() == {Node(Root(all))} && DistinctKeys(all)
    modifies g`nodes, g`seen, g`edges, g`made
    ensures g.Valid() && g.Content() == VersionPart(all) && Below(g.Content(), 4)
  {
    assert Below({Node(Root(all))}, 1);
    hide Below, EvidenceGraph.Content, EvidenceGraph.Valid, Gather, DeploymentItems, ReviewItems, ProofItems;
    AddDeployments(g, all);
    AddReviews(g, all);
    AddProofs(g, all);
  }

  method AddExecutionPart(g: EvidenceGraph, all: Rows) returns (byHash: map<string, NodeId>)
    requires g.Valid() && Below(g.Content(), 4) && DistinctKeys(all)
    modifies g`nodes, g`seen, g`edges, g`made
    ensures g.Valid() && g.Content() == old(g.Content()) + ExecutionPart(all) && Below(g.Content(), 10)
    ensures FindingsMatch(byHash, all.reviews)
  {
    ghost var before := g.Content();
    hide Below, EvidenceGraph.Content, EvidenceGraph.Valid, Gather, GrantItems, SubagentItems, ProofGrantItems,
         FindingItems,
         ReceiptItems, SessionItems, FindingsMatch;
    AddGrants(g, all);
    AddSubagentRuns(g, all);
    AddProofGrants(g, all);
    byHash := AddFindings(g, all);
    AddReceipts(g, all);
    AddSessions(g, all);
    UnionOfSix(before, Gather(all.grants, GrantItems(all)), Gather(all.subagents, SubagentItems(all)),
               Gather(all.proofs, ProofGrantItems(all)), Gather(all.reviews, FindingItems()),
               Gather(all.receipts, ReceiptItems(all)), Gather(all.sessions, SessionItems(all)));
  }

  lemma UnionOfSix<T>(before: set<T>, a: set<T>, b: set<T>, c: set<T>, d: set<T>, e: set<T>, f: set<T>)
    ensures before + a + b + c + d + e + f == before + (a + b + c + d + e + f)
  {}

  method AddWorkPart(g: EvidenceGraph, all: Rows, byHash: map<string, NodeId>)
    requires g.Valid() && Below(g.Content(), 10) && NoRooms(g.Content()) && DistinctKeys(all)
    requires FindingsMatch(byHash, all.reviews)
    modifies g
    ensures g.Valid() && g.Content() == old(g.Content()) + WorkPart(all)
    ensures g.chains == old(g.chains) + JobChains(all, all.jobs)
  {
    hide *;
    ghost var before := g.Content();
    WorkKeys(all);
    DagHasNoRooms(all);
    WorkUnion(before, all);
    AddDagRuns(g, all);
    AddDagNodes(g, all);
    AddDependencies(g, all);
    RoomsLater(before, Gather(all.dagRuns, DagRunItems()), Gather(all.dagNodes, DagNodeItems(all)),
               Gather(all.dagNodes, DependencyItems(all)));
    AddTrials(g, all);
    AddJobs(g, all, byHash);
    AddUsages(g, all);
  }

  lemma WorkKeys(all: Rows)
    requires DistinctKeys(all)
    ensures NoRepeats(all.dagRuns) && DistinctBy(all.dagNodes, DagNodeKey()) && DistinctBy(all.trials, TrialKey())
    ensures DistinctBy(all.jobs, JobKey()) && DistinctChildren(all.jobs, JobEventIds())
            && DistinctBy(all.usages, UsageKey())
  {
    hide NoRepeats, DistinctBy, DistinctChildren;
  }

  lemma WorkUnion(before: set<Item>, all: Rows)
    ensures before + Gather(all.dagRuns, DagRunItems()) + Gather(all.dagNodes, DagNodeItems(all))
            + Gather(all.dagNodes, DependencyItems(all)) + Gather(all.trials, TrialItems(all))
            + Gather(all.jobs, JobItems(all)) + Gather(all.usages, UsageItems(all))
         == before + WorkPart(all)
  {
    hide Gather;
    UnionOfSix(before, Gather(all.dagRuns, DagRunItems()), Gather(all.dagNodes, DagNodeItems(all)),
               Gather(all.dagNodes, DependencyItems(all)), Gather(all.trials, TrialItems(all)),
               Gather(all.jobs, JobItems(all)), Gather(all.usages, UsageItems(all)));
  }

  lemma RoomsLater(before: set<Item>, a: set<Item>, b: set<Item>, c: set<Item>)
    requires NoRooms(before) && NoRooms({} + a + b + c)
    ensures RoomsMatch({}, before + a + b + c)
  {
    assert forall x <- a + b + c :: x in {} + a + b + c;
    forall r: NodeId | r.TrialRoomNode? ensures Node(r) !in before + a + b + c {
      assert IsRoom(Node(r));
    }
  }

  method AddEverything(g: EvidenceGraph, all: Rows)
    requires g.Valid() && g.Content() == {Node(Root(all))} && g.chains == [] && DistinctKeys(all)
    modifies g
    ensures g.Valid() && g.Content() == Projection(all) && g.chains == Chains(all)
  {
    hide Rank, Below, VersionPart, ExecutionPart, WorkPart, DistinctKeys, FindingsMatch, JobChains, AuthorityChains,
         Trust,
         NoRooms, EvidenceGraph.Content, EvidenceGraph.Valid;
    AddVersionPart(g, all);
    PartsHaveNoRooms(all);
    var byHash := AddExecutionPart(g, all);
    AddWorkPart(g, all, byHash);
    assert [] + JobChains(all, all.jobs) == JobChains(all, all.jobs);
    AddAuthorityChains(g, all);
    AddTrust(g, all);
  }

  // The finished graph, read by its ids.

  ghost predicate DistinctNodeIds(nodes: seq<NodeId>)
  {
    forall i, j :: 0 <= i < j < |nodes| ==> NodeText(nodes[i]) != NodeText(nodes[j])
  }

  ghost predicate DistinctEdgeIds(edges: seq<Edge>)
  {
    forall i, j :: 0 <= i < j < |edges| ==> EdgeText(edges[i]) != EdgeText(edges[j])
  }

  /** The ids of a graph are those of the items it was called to show. */
  ghost predicate ShowsIds(nodes: seq<NodeId>, edges: seq<Edge>, items: set<Item>)
  {
    && (forall text :: Named(nodes, text) <==> exists id: NodeId :: Node(id) in items && NodeText(id) == text)
    && (forall text :: Drawn(edges, text) <==> exists e: Edge :: Link(e) in items && EdgeText(e) == text)
  }

  /** Both ends of every edge are ids of nodes. */
  ghost predicate Closed(nodes: seq<NodeId>, edges: seq<Edge>)
  {
    forall e <- edges :: Named(nodes, NodeText(e.source)) && Named(nodes, NodeText(e.target))
  }

  /** Every id a chain names is that of a node or an edge. */
  ghost predicate Followed(nodes: seq<NodeId>, edges: seq<Edge>, c: Chain)
  {
    (forall id <- c.nodes :: Named(nodes, NodeText(id))) && (forall e <- c.edges :: Drawn(edges, EdgeText(e)))
  }

  lemma FittingNodesShowIds(nodes: seq<NodeId>, seen: set<string>, items: set<Item>)
    requires NodesFit(nodes, seen, items)
    ensures forall text :: Named(nodes, text) <==> exists id: NodeId :: Node(id) in items && NodeText(id) == text
  {
    hide NodeText, NodesApart, NoRepeats, Rank;
    forall text ensures Named(nodes, text) <==> exists id: NodeId :: Node(id) in items && NodeText(id) == text {
      if id: NodeId :| Node(id) in items && NodeText(id) == text {
        assert Named(nodes, NodeText(id));
      }
    }
  }

  lemma FittingEdgesShowIds(edges: seq<Edge>, items: set<Item>)
    requires EdgesFit(edges, items)
    ensures forall text :: Drawn(edges, text) <==> exists e: Edge :: Link(e) in items && EdgeText(e) == text
  {
    hide EdgeText, EdgesApart, NoRepeats, Rank;
    forall text ensures Drawn(edges, text) <==> exists e: Edge :: Link(e) in items && EdgeText(e) == text {
      if e: Edge :| Link(e) in items && EdgeText(e) == text {
        assert Drawn(edges, EdgeText(e));
      }
    }
  }

  /** No node id stands twice exactly when no two DAG nodes join to one id. */
  lemma NodeIdsDistinctExactlyWhen(nodes: seq<NodeId>, seen: set<string>, all: Rows)
    requires DistinctKeys(all) && NodesFit(nodes, seen, Projection(all))
    ensures DistinctNodeIds(nodes) <==> !DagNodesAlike(all)
  {
    hide DistinctKeys, Projection, DagNodesAlike, NodeText, Rank;
    SharedNodeIdExactlyWhen(all);
    if SharedNodeId(all) {
      var a: NodeId, b: NodeId :|
        && a != b && Node(a) in Projection(all) && Node(b) in Projection(all)
        && !a.FindingNode? && NodeText(a) == NodeText(b);
      NodeTextDetermines(a, b);
      var i :| 0 <= i < |nodes| && nodes[i] == a;
      var j :| 0 <= j < |nodes| && nodes[j] == b;
      assert i < j || j < i;
    }
    if !DistinctNodeIds(nodes) {
      var i, j :| 0 <= i < j < |nodes| && NodeText(nodes[i]) == NodeText(nodes[j]);
      assert nodes[i] in nodes && nodes[j] in nodes;
      assert nodes[j].DagNodeNode? && nodes[j] != nodes[i];
    }
  }

  /** No edge id stands twice exactly when no two blind edges join to one id. */
  lemma EdgeIdsDistinctExactlyWhen(edges: seq<Edge>, all: Rows)
    requires DistinctKeys(all) && EdgesFit(edges, Projection(all))
    ensures DistinctEdgeIds(edges) <==> !BlindEdgesAlike(all)
  {
    hide DistinctKeys, Projection, BlindEdgesAlike, EdgeText, Rank;
    SharedEdgeIdExactlyWhen(all);
    if SharedEdgeId(all) {
      var e: Edge, f: Edge :|
        && e != f && Link(e) in Projection(all) && Link(f) in Projection(all)
        && Rank(Link(f)) > 0 && EdgeText(e) == EdgeText(f);
      EdgeTextDetermines(e, f);
      SameKindSameRank(e, f);
      var i :| 0 <= i < |edges| && edges[i] == e;
      var j :| 0 <= j < |edges| && edges[j] == f;
      assert i < j || j < i;
    }
    if !DistinctEdgeIds(edges) {
      var i, j :| 0 <= i < j < |edges| && EdgeText(edges[i]) == EdgeText(edges[j]);
      assert edges[i] in edges && edges[j] in edges && edges[i] != edges[j];
    }
  }

  lemma SameKindSameRank(e: Edge, f: Edge)
    ensures e.kind == f.kind ==> Rank(Link(e)) == Rank(Link(f))
  {}

  lemma ShownIsClosed(nodes: seq<NodeId>, edges: seq<Edge>, all: Rows)
    requires ShowsIds(nodes, edges, Projection(all)) && forall e <- edges :: Link(e) in Projection(all)
    ensures Closed(nodes, edges)
  {
    hide NodeText, EdgeText, Named, Drawn;
    hide Projection;
    EveryEdgeHasItsEnds(all);
    forall e <- edges ensures Named(nodes, NodeText(e.source)) && Named(nodes, NodeText(e.target)) {
      assert Link(e) in Projection(all) && Link(e).Link?;
      assert Has(all, e.source) && Has(all, e.target);
    }
  }

  lemma FollowedIsResolved(nodes: seq<NodeId>, edges: seq<Edge>, all: Rows, c: Chain)
    requires ShowsIds(nodes, edges, Projection(all))
    ensures Followed(nodes, edges, c) <==> Resolves(all, c)
  {
    hide Projection, NodeText, EdgeText, Named, Drawn;
    assert forall id :: Named(nodes, NodeText(id)) <==> NodeShown(all, id);
    assert forall e :: Drawn(edges, EdgeText(e)) <==> EdgeShown(all, e);
  }

  /** What is promised of a projection for the owner and the operator, from what its lists fit. */
  lemma FinishedGraph(nodes: seq<NodeId>, edges: seq<Edge>, seen: set<string>, all: Rows)
    requires DistinctKeys(all) && NodesFit(nodes, seen, Projection(all)) && EdgesFit(edges, Projection(all))
    ensures ShowsIds(nodes, edges, Projection(all)) && Closed(nodes, edges)
    ensures DistinctNodeIds(nodes) <==> !DagNodesAlike(all)
    ensures DistinctEdgeIds(edges) <==> !BlindEdgesAlike(all)
    ensures (forall c <- Chains(all) :: Followed(nodes, edges, c)) <==> !UnnamedIsReviewed(all)
  {
    FittingEdges(edges, all);
    hide *;
    FittingNodesShowIds(nodes, seen, Projection(all));
    FittingEdgesShowIds(edges, Projection(all));
    BothShow(nodes, edges, Projection(all));
    ShownIsClosed(nodes, edges, all);
    NodeIdsDistinctExactlyWhen(nodes, seen, all);
    EdgeIdsDistinctExactlyWhen(edges, all);
    ChainsResolveExactlyWhen(all);
    forall c <- Chains(all) ensures Followed(nodes, edges, c) <==> Resolves(all, c) {
      FollowedIsResolved(nodes, edges, all, c);
    }
  }

  lemma FittingEdges(edges: seq<Edge>, all: Rows)
    requires EdgesFit(edges, Projection(all))
    ensures forall e <- edges :: Link(e) in Projection(all)
  {
    hide Projection, Rank, EdgeText;
  }

  lemma BothShow(nodes: seq<NodeId>, edges: seq<Edge>, items: set<Item>)
    requires forall text :: Named(nodes, text) <==> exists id: NodeId :: Node(id) in items && NodeText(id) == text
    requires forall text :: Drawn(edges, text) <==> exists e: Edge :: Link(e) in items && EdgeText(e) == text
    ensures ShowsIds(nodes, edges, items)
  {}

  lemma RootAlone(root: NodeId)
    ensures ShowsIds([root], [], {Node(root)}) && Closed([root], [])
    ensures DistinctNodeIds([root]) && DistinctEdgeIds([])
  {
    assert [root][0] == root;
  }

  /**
   * `build_evidence_dag`. For the owner and the operator the graph shows exactly the ids of the nodes and edges that
   * have a row; no edge lacks an end; a node's id stands twice exactly when two DAG nodes join to one id, an edge's
   * exactly when two blind edges do; and all chains can be followed exactly when no deployment with an empty id is
   * reviewed. Everyone else sees the agent alone.
   */
  method BuildEvidenceDag(all: Rows, fullView: bool) returns (g: EvidenceGraph)
    requires DistinctKeys(all)
    ensures fresh(g) && g.Valid() && NoRepeats(g.nodes) && NoRepeats(g.edges)
    ensures g.Content() == if fullView then Projection(all) else {Node(Root(all))}
    ensures fullView ==> forall x :: x in g.Content() <==> HasRow(all, x)
    ensures ShowsIds(g.nodes, g.edges, g.Content()) && Closed(g.nodes, g.edges)
    ensures DistinctNodeIds(g.nodes) <==> !(fullView && DagNodesAlike(all))
    ensures DistinctEdgeIds(g.edges) <==> !(fullView && BlindEdgesAlike(all))
    ensures g.chains == if fullView then Chains(all) else []
    ensures (forall c <- g.chains :: Followed(g.nodes, g.edges, c)) <==> !(fullView && UnnamedIsReviewed(all))
  {
    hide *;
    RootRank(all);
    g := new EvidenceGraph(Root(all));
    if !fullView {
      RootAlone(Root(all));
      GraphFits(g);
      return;
    }
    AddEverything(g, all);
    forall x ensures x in Projection(all) <==> HasRow(all, x) { ProjectedExactlyWhen(all, x); }
    GraphFits(g);
    FinishedGraph(g.nodes, g.edges, g.seen, all);
  }

  lemma RootRank(all: Rows)
    ensures Rank(Node(Root(all))) == 0 && !Root(all).FindingNode?
  {}

  lemma GraphFits(g: EvidenceGraph)
    requires g.Valid()
    ensures NodesFit(g.nodes, g.seen, g.Content()) && EdgesFit(g.edges, g.Content())
    ensures NoRepeats(g.nodes) && NoRepeats(g.edges)
  {
    hide NodeText, EdgeText, Rank, NodesApart, EdgesApart, NoRepeats;
  }

  lemma PartsHaveNoRooms(all: Rows)
    ensures NoRooms(VersionPart(all) + ExecutionPart(all))
  {
    VersionsHaveNoRooms(all);
    ExecutionHasNoRooms(all);
    hide ExecutionPart, Gather, DeploymentItems, ReviewItems, ProofItems, NoRooms;
    NoRoomsUnion(VersionPart(all), ExecutionPart(all));
  }
}
