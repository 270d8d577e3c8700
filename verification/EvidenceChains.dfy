/**
 * Chains of the projected graph, followed by id text: they name only projected nodes, and only projected edges exactly
 * when no deployment with an empty id takes part in a chain with a review of that id. (Such a chain names an edge that
 * was not projected; another edge whose id is written alike would stand in for it.)
 */
module EvidenceChains {
  import opened Common
  import opened EvidenceRows
  import opened EvidenceProjection
  import opened EvidenceKeys
  import opened EvidenceIntegrity
  import opened EvidenceIds
  import opened EvidenceIdentity

  /** A projected node with this id. */
  ghost predicate NodeShown(all: Rows, id: NodeId)
  {
    exists n: NodeId :: Node(n) in Projection(all) && NodeText(n) == NodeText(id)
  }

  ghost predicate EdgeShown(all: Rows, e: Edge)
  {
    exists f: Edge :: Link(f) in Projection(all) && EdgeText(f) == EdgeText(e)
  }

  ghost predicate HasEdge(all: Rows, e: Edge)
  {
    Link(e) in Projection(all)
  }

  ghost predicate NodesExist(all: Rows, c: Chain)
  {
    forall id <- c.nodes :: NodeShown(all, id)
  }

  ghost predicate EdgesExist(all: Rows, edges: seq<Edge>)
  {
    forall e <- edges :: EdgeShown(all, e)
  }

  /** A review whose edge, from a deployment without an id, is missing but written like another one. */
  predicate WrittenLike(all: Rows, r: ReviewRow)
  {
    exists q <- all.reviews ::
      Linked(all, q) && Ends(q.deployId.value, "review:" + q.reviewId) == Ends("", "review:" + r.reviewId)
  }

  ghost predicate Resolves(all: Rows, c: Chain)
  {
    NodesExist(all, c) && EdgesExist(all, c.edges)
  }

  /** A mutation whose remediation chain would follow a review of a deployment without an id. */
  predicate RefsDangle(all: Rows, refs: MutationRefs)
  {
    && Finding(all, refs).Some? && refs.headSha != "" && Triggered(all, refs) == Some("")
    && ReviewByRef(all.reviews, refs.headSha).Some? && ReviewByRef(all.reviews, refs.headSha).value.deployId == Some("")
    && !WrittenLike(all, ReviewByRef(all.reviews, refs.headSha).value)
  }

  function AllRefs(jobs: seq<JobRow>): set<MutationRefs>
  {
    (set j | j in jobs :: j.refs) + (set j, e | j in jobs && e in j.events :: e.refs)
  }

  predicate LatestDangles(all: Rows)
  {
    && all.deployments != [] && all.deployments[0].deployId == "" && FirstReview(all.reviews, "").Some?
    && !WrittenLike(all, FirstReview(all.reviews, "").value)
  }

  /** The latest deployment, or one that a mutation led to, has the empty id and a review to follow. */
  predicate UnnamedIsReviewed(all: Rows)
  {
    || LatestDangles(all)
    || exists refs <- AllRefs(all.jobs) :: RefsDangle(all, refs)
  }

  lemma HasIsShown(all: Rows, id: NodeId)
    ensures Has(all, id) ==> NodeShown(all, id)
  {
    hide Projection;
  }

  lemma HasEdgeIsShown(all: Rows, e: Edge)
    ensures HasEdge(all, e) ==> EdgeShown(all, e)
  {
    hide Projection;
  }

  /** What has its own nodes and edges can be followed. */
  lemma HasResolves(all: Rows, nodes: seq<NodeId>, edges: seq<Edge>)
    ensures (forall id <- nodes :: Has(all, id)) ==> forall id <- nodes :: NodeShown(all, id)
    ensures (forall e <- edges :: HasEdge(all, e)) ==> EdgesExist(all, edges)
  {
    forall id <- nodes ensures Has(all, id) ==> NodeShown(all, id) { HasIsShown(all, id); }
    forall e <- edges ensures HasEdge(all, e) ==> EdgeShown(all, e) { HasEdgeIsShown(all, e); }
    hide Has, HasEdge, NodeShown, EdgeShown;
  }

  lemma ReviewKindRank(e: Edge)
    ensures e.kind.DeploymentReviewedBy? ==> Rank(Link(e)) == 2
  {}

  /** An edge written like the one from a deployment without an id is that of a linked review. */
  lemma ShownIsWrittenLike(all: Rows, r: ReviewRow)
    requires DistinctKeys(all) && r.deployId == Some("") && EdgeShown(all, ReviewEdge(r))
    ensures WrittenLike(all, r)
  {
    hide DistinctKeys, Projection, IsDeployment, Rank, NodeText, EdgeText;
    var f: Edge :| Link(f) in Projection(all) && EdgeText(f) == EdgeText(ReviewEdge(r));
    EdgeTextDetermines(f, ReviewEdge(r));
    ReviewKindRank(f);
    BlindEdgesHaveShape(all, f);
    var q :| q in all.reviews && Linked(all, q) && f == ReviewEdge(q);
    LinkedHasDeployment(all, q);
    ReviewTexts(q);
    ReviewTexts(r);
    WithoutPrefix(q.deployId.value, "review:" + q.reviewId, "", "review:" + r.reviewId);
  }

  lemma LinkedHasDeployment(all: Rows, r: ReviewRow)
    ensures Linked(all, r) ==> r.deployId.Some? && r.deployId.value != ""
  {}

  lemma WrittenLikeIsShown(all: Rows, r: ReviewRow)
    requires r.deployId == Some("") && WrittenLike(all, r)
    ensures EdgeShown(all, ReviewEdge(r))
  {
    hide Projection, IsDeployment, Rank, NodeText;
    var q :| q in all.reviews && Linked(all, q)
             && Ends(q.deployId.value, "review:" + q.reviewId) == Ends("", "review:" + r.reviewId);
    LinkedHasDeployment(all, q);
    ReviewEdgeProjected(all, q);
    ReviewTexts(q);
    ReviewTexts(r);
    WithoutPrefix(q.deployId.value, "review:" + q.reviewId, "", "review:" + r.reviewId);
    assert EdgeText(ReviewEdge(q)) == EdgeText(ReviewEdge(r));
  }

  lemma LinkedIsShown(all: Rows, r: ReviewRow)
    requires r in all.reviews && Linked(all, r)
    ensures EdgeShown(all, ReviewEdge(r))
  {
    ReviewEdgeProjected(all, r);
    hide Projection, Linked, Rank;
  }

  /** A deployment and its review are linked exactly when the deployment has an id, or by an edge written alike. */
  lemma ReviewLinkExistsExactlyWhen(all: Rows, deployId: string, review: Option<ReviewRow>)
    requires DistinctKeys(all) && IsDeployment(all, deployId) && (review.Some? ==> review.value in all.reviews)
    ensures EdgesExist(all, ReviewLink(deployId, review))
        <==> !(deployId == "" && review.Some? && review.value.deployId == Some("") && !WrittenLike(all, review.value))
  {
    hide DistinctKeys, IsDeployment, EdgeShown, WrittenLike;
    if review.Some? && review.value.deployId == Some(deployId) {
      var r := review.value;
      assert ReviewLink(deployId, review) == [ReviewEdge(r)] && [ReviewEdge(r)][0] == ReviewEdge(r);
      if deployId != "" {
        LinkedIsShown(all, r);
      } else {
        if EdgeShown(all, ReviewEdge(r)) { ShownIsWrittenLike(all, r); }
        if WrittenLike(all, r) { WrittenLikeIsShown(all, r); }
      }
    }
  }

  /** No edge is written like a missing one when no deployment id holds an arrow. */
  lemma PlainIdsAreNotWrittenLike(all: Rows, r: ReviewRow)
    requires forall d <- all.deployments :: !HoldsArrow(d.deployId)
    ensures !WrittenLike(all, r)
  {
    forall q <- all.reviews | Linked(all, q)
      ensures Ends(q.deployId.value, "review:" + q.reviewId) != Ends("", "review:" + r.reviewId)
    {
      if Ends(q.deployId.value, "review:" + q.reviewId) == Ends("", "review:" + r.reviewId) {
        SplitAtFirstArrow(q.deployId.value, "review:" + q.reviewId, "", "review:" + r.reviewId);
      }
    }
  }

  /** The edges a remediation chain starts with: its mutation's own. */
  function OwnEdges(all: Rows, origin: Origin, source: NodeId, refs: MutationRefs): seq<Edge>
    requires Finding(all, refs).Some? && Triggered(all, refs).Some?
  {
    [Edge(FindingTargetedBy(origin), Finding(all, refs).value, source),
     Edge(ProducedVersion(origin), source, VersionNode(refs.headSha)),
     Edge(TriggeredDeployment(origin), source, DeploymentNode(Triggered(all, refs).value))]
  }

  lemma RemediationParts(all: Rows, origin: Origin, source: NodeId, refs: MutationRefs)
    requires Finding(all, refs).Some? && refs.headSha != "" && Triggered(all, refs).Some?
    ensures var chains := Remediation(all, origin, source, refs);
            var review, proof := ReviewByRef(all.reviews, refs.headSha), ProofByHead(all.proofs, refs.headSha);
            && |chains| == 1
            && chains[0].edges == OwnEdges(all, origin, source, refs) + ReviewLink(Triggered(all, refs).value, review)
            && forall id <- chains[0].nodes ::
                 || id == Finding(all, refs).value || id == source || id == VersionNode(refs.headSha)
                 || id == DeploymentNode(Triggered(all, refs).value)
                 || (review.Some? && id == ReviewNode(review.value.reviewId))
                 || (proof.Some? && id == ProofNode(proof.value.id))
  {
    hide Finding, Triggered, ReviewByRef, ProofByHead, ReviewLink;
  }

  lemma RemediationNodesExist(all: Rows, origin: Origin, source: NodeId, refs: MutationRefs)
    requires Has(all, source) && RefItems(all, origin, source, refs) <= Projection(all)
    requires Finding(all, refs).Some? && refs.headSha != "" && Triggered(all, refs).Some?
    ensures NodesExist(all, Remediation(all, origin, source, refs)[0])
  {
    var review, proof := ReviewByRef(all.reviews, refs.headSha), ProofByHead(all.proofs, refs.headSha);
    hide Projection, Remediation, RefItems, Finding, Triggered, ReviewByRef, ProofByHead, Has, NodeShown;
    RemediationParts(all, origin, source, refs);
    RefParts(all, origin, source, refs);
    FindingIsProjected(all, refs);
    HasDeployment(all, Triggered(all, refs).value);
    if review.Some? { HasReview(all, review.value); }
    if proof.Some? { HasProof(all, proof.value); }
    HasResolves(all, Remediation(all, origin, source, refs)[0].nodes, []);
  }

  lemma OwnEdgesExist(all: Rows, origin: Origin, source: NodeId, refs: MutationRefs)
    requires RefItems(all, origin, source, refs) <= Projection(all)
    requires Finding(all, refs).Some? && refs.headSha != "" && Triggered(all, refs).Some?
    ensures EdgesExist(all, OwnEdges(all, origin, source, refs))
  {
    hide Projection, RefItems, Finding, Triggered, HasEdge, EdgeShown;
    RefParts(all, origin, source, refs);
    HasResolves(all, [], OwnEdges(all, origin, source, refs));
  }

  lemma ReviewIsRow(all: Rows, headSha: string)
    ensures var review := ReviewByRef(all.reviews, headSha); review.Some? ==> review.value in all.reviews
  {}

  /** The nodes and the first three edges of a remediation chain are those its own mutation calls for. */
  lemma RemediationResolves(all: Rows, origin: Origin, source: NodeId, refs: MutationRefs)
    requires DistinctKeys(all) && Has(all, source) && RefItems(all, origin, source, refs) <= Projection(all)
    ensures forall c <- Remediation(all, origin, source, refs) :: NodesExist(all, c)
    ensures (forall c <- Remediation(all, origin, source, refs) :: EdgesExist(all, c.edges)) <==> !RefsDangle(all, refs)
  {
    if Finding(all, refs).Some? && refs.headSha != "" && Triggered(all, refs).Some? {
      hide DistinctKeys, Projection, Remediation, RefItems, Finding, Triggered, ReviewByRef, ProofByHead, ReviewLink,
           WrittenLike, Has, NodesExist, EdgesExist, OwnEdges;
      var deployId, review := Triggered(all, refs).value, ReviewByRef(all.reviews, refs.headSha);
      RemediationParts(all, origin, source, refs);
      RemediationNodesExist(all, origin, source, refs);
      OwnEdgesExist(all, origin, source, refs);
      ReviewIsRow(all, refs.headSha);
      ReviewLinkExistsExactlyWhen(all, deployId, review);
      EdgesExistAppend(all, OwnEdges(all, origin, source, refs), ReviewLink(deployId, review));
    } else {
      hide DistinctKeys, Projection, RefItems, Finding, Triggered;
      assert Remediation(all, origin, source, refs) == [];
    }
  }

  lemma FindingIsProjected(all: Rows, refs: MutationRefs)
    requires Finding(all, refs).Some?
    ensures Has(all, Finding(all, refs).value)
  {
    hide Projection, FindingByHash;
    HasFinding(all, refs.findingHash);
  }

  /** The version and the edges a remediation chain starts with are called for. */
  lemma RefParts(all: Rows, origin: Origin, source: NodeId, refs: MutationRefs)
    requires RefItems(all, origin, source, refs) <= Projection(all)
    requires Finding(all, refs).Some? && refs.headSha != "" && Triggered(all, refs).Some?
    ensures Has(all, VersionNode(refs.headSha))
    ensures HasEdge(all, Edge(FindingTargetedBy(origin), Finding(all, refs).value, source))
    ensures HasEdge(all, Edge(ProducedVersion(origin), source, VersionNode(refs.headSha)))
    ensures HasEdge(all, Edge(TriggeredDeployment(origin), source, DeploymentNode(Triggered(all, refs).value)))
  {
    hide Finding, Triggered, Projection;
    assert Node(VersionNode(refs.headSha)) in RefItems(all, origin, source, refs);
    assert Arrow(FindingTargetedBy(origin), Finding(all, refs).value, source) in RefItems(all, origin, source, refs);
    assert Arrow(ProducedVersion(origin), source, VersionNode(refs.headSha)) in RefItems(all, origin, source, refs);
    assert Arrow(TriggeredDeployment(origin), source, DeploymentNode(Triggered(all, refs).value))
           in RefItems(all, origin, source, refs);
  }

  lemma EdgesExistAppend(all: Rows, a: seq<Edge>, b: seq<Edge>)
    ensures EdgesExist(all, a + b) <==> EdgesExist(all, a) && EdgesExist(all, b)
  {
    hide Projection;
    assert forall e :: e in a + b <==> e in a || e in b;
  }

  ghost predicate AllResolve(all: Rows, chains: seq<Chain>)
  {
    forall c <- chains :: Resolves(all, c)
  }

  lemma AllResolveAppend(all: Rows, a: seq<Chain>, b: seq<Chain>)
    ensures AllResolve(all, a + b) <==> AllResolve(all, a) && AllResolve(all, b)
  {
    hide Resolves;
    assert forall c :: c in a + b <==> c in a || c in b;
  }

  lemma {:induction false} EventChainsResolve(all: Rows, job: NodeId, events: seq<WorkEventRow>)
    requires DistinctKeys(all) && Has(all, job)
    requires forall e <- events :: WorkEventItems(all, job)(e) <= Projection(all)
    ensures AllResolve(all, EventChains(all, events)) <==> forall e <- events :: !RefsDangle(all, e.refs)
    decreases |events|
  {
    hide DistinctKeys, Projection, Remediation, RefsDangle, RefItems, Resolves;
    if events != [] {
      var front, last := events[..|events| - 1], events[|events| - 1];
      assert events == front + [last] && forall e :: e in events <==> e in front || e == last;
      EventChainsResolve(all, job, front);
      var source := WorkEventNode(last.eventId);
      OwnNode(all, source, WorkEventItems(all, job)(last));
      assert RefItems(all, FromEvent, source, last.refs) <= WorkEventItems(all, job)(last);
      OneResolves(all, FromEvent, source, last.refs);
      AllResolveAppend(all, EventChains(all, front), Remediation(all, FromEvent, source, last.refs));
    }
  }

  lemma OneResolves(all: Rows, origin: Origin, source: NodeId, refs: MutationRefs)
    requires DistinctKeys(all) && Has(all, source) && RefItems(all, origin, source, refs) <= Projection(all)
    ensures AllResolve(all, Remediation(all, origin, source, refs)) <==> !RefsDangle(all, refs)
  {
    RemediationResolves(all, origin, source, refs);
    hide DistinctKeys, Projection, Remediation, RefsDangle, RefItems, NodesExist, EdgesExist;
  }

  lemma {:induction false} JobChainsResolve(all: Rows, jobs: seq<JobRow>)
    requires DistinctKeys(all) && forall j <- jobs :: JobItems(all)(j) <= Projection(all)
    ensures AllResolve(all, JobChains(all, jobs)) <==> forall refs <- AllRefs(jobs) :: !RefsDangle(all, refs)
    decreases |jobs|
  {
    hide DistinctKeys, Projection, Remediation, RefsDangle, RefItems, Resolves, EventChains, JobItems;
    if jobs != [] {
      var front, last := jobs[..|jobs| - 1], jobs[|jobs| - 1];
      assert jobs == front + [last] && forall j :: j in jobs <==> j in front || j == last;
      JobChainsResolve(all, front);
      JobResolves(all, last);
      var first, own := JobChains(all, front), Remediation(all, FromJob, WorkJobNode(last.jobId), last.refs);
      var later := EventChains(all, last.events);
      AllResolveAppend(all, first, own);
      AllResolveAppend(all, first + own, later);
      RefsOfLast(front, last);
    }
  }

  lemma RefsOfLast(front: seq<JobRow>, last: JobRow)
    ensures AllRefs(front + [last]) == AllRefs(front) + {last.refs} + set e | e in last.events :: e.refs
  {
    assert forall j :: j in front + [last] <==> j in front || j == last;
  }

  lemma JobResolves(all: Rows, j: JobRow)
    requires DistinctKeys(all) && JobItems(all)(j) <= Projection(all)
    ensures AllResolve(all, Remediation(all, FromJob, WorkJobNode(j.jobId), j.refs)) <==> !RefsDangle(all, j.refs)
    ensures AllResolve(all, EventChains(all, j.events)) <==> forall e <- j.events :: !RefsDangle(all, e.refs)
  {
    var node := WorkJobNode(j.jobId);
    assert Node(node) in JobItems(all)(j);
    assert RefItems(all, FromJob, node, j.refs) <= JobItems(all)(j);
    assert Gather(j.events, WorkEventItems(all, node)) <= JobItems(all)(j);
    hide *;
    OwnNode(all, node, JobItems(all)(j));
    OneResolves(all, FromJob, node, j.refs);
    forall e <- j.events ensures WorkEventItems(all, node)(e) <= Projection(all) {
      GatherHas(j.events, e, WorkEventItems(all, node));
    }
    EventChainsResolve(all, node, j.events);
  }

  lemma RunIsLinked(all: Rows, s: SubagentRow)
    requires s in all.subagents && IsGrant(all, s.grantId)
    ensures Has(all, SubagentRunNode(s.grantId))
    ensures HasEdge(all, Edge(GrantAuthorizesSubagentRun, GrantNode(s.grantId), SubagentRunNode(s.grantId)))
  {
    CoversExecution(all);
    PartsCover(all);
    hide Projection, VersionPart, ExecutionPart, WorkPart, IsGrant, EventItems;
    assert Node(SubagentRunNode(s.grantId)) in SubagentItems(all)(s);
    assert Arrow(GrantAuthorizesSubagentRun, GrantNode(s.grantId), SubagentRunNode(s.grantId)) in SubagentItems(all)(s);
  }

  lemma NodeIsLinked(all: Rows, n: DagNodeRow)
    requires n in all.dagNodes && n.grantId != "" && IsGrant(all, n.grantId)
    ensures Has(all, DagNodeNode(n.runId, n.nodeId))
    ensures HasEdge(all, Edge(GrantAuthorizesDagNode, GrantNode(n.grantId), DagNodeNode(n.runId, n.nodeId)))
  {
    CoversWork(all);
    PartsCover(all);
    hide Projection, VersionPart, ExecutionPart, WorkPart, IsGrant;
    assert Node(DagNodeNode(n.runId, n.nodeId)) in DagNodeItems(all)(n);
    assert Arrow(GrantAuthorizesDagNode, GrantNode(n.grantId), DagNodeNode(n.runId, n.nodeId)) in DagNodeItems(all)(n);
  }

  lemma ProofIsLinked(all: Rows, p: ProofRow)
    requires p in all.proofs && p.grantId != "" && IsGrant(all, p.grantId)
    ensures Has(all, ProofNode(p.id)) && HasEdge(all, Edge(GrantAuthorizesProof, GrantNode(p.grantId), ProofNode(p.id)))
  {
    HasProof(all, p);
    CoversExecution(all);
    PartsCover(all);
    hide Projection, VersionPart, ExecutionPart, WorkPart, IsGrant;
    assert Arrow(GrantAuthorizesProof, GrantNode(p.grantId), ProofNode(p.id)) in ProofGrantItems(all)(p);
  }

  /** What a grant authorised is linked to it. */
  lemma AuthorityResolves(all: Rows, grantId: string)
    requires IsGrant(all, grantId)
    ensures AllResolve(all, Authority(all, grantId))
  {
    var node := if grantId != "" then DagNodeByGrant(all.dagNodes, grantId) else None;
    var proof := if grantId != "" then ProofByGrant(all.proofs, grantId) else None;
    hide Projection, Has, HasEdge, NodeShown, EdgeShown, Resolves;
    HasGrant(all, grantId);
    if s: SubagentRow :| s in all.subagents && s.grantId == grantId { RunIsLinked(all, s); }
    if node.Some? { NodeIsLinked(all, node.value); }
    if proof.Some? { ProofIsLinked(all, proof.value); }
    var run := if exists s <- all.subagents :: s.grantId == grantId then [SubagentRunNode(grantId)] else [];
    var nodes := if node.Some? then [DagNodeNode(node.value.runId, node.value.nodeId)] else [];
    var proofs := if proof.Some? then [ProofNode(proof.value.id)] else [];
    hide IsGrant, DagNodeByGrant, ProofByGrant;
    ThreeParts(all, GrantNode(grantId), run, nodes, proofs);
  }

  lemma ThreeParts(all: Rows, grant: NodeId, run: seq<NodeId>, nodes: seq<NodeId>, proofs: seq<NodeId>)
    requires Has(all, grant) && |run| <= 1 && |nodes| <= 1 && |proofs| <= 1
    requires run != [] ==> Has(all, run[0]) && HasEdge(all, Edge(GrantAuthorizesSubagentRun, grant, run[0]))
    requires nodes != [] ==> Has(all, nodes[0]) && HasEdge(all, Edge(GrantAuthorizesDagNode, grant, nodes[0]))
    requires proofs != [] ==> Has(all, proofs[0]) && HasEdge(all, Edge(GrantAuthorizesProof, grant, proofs[0]))
    ensures Resolves(all, Chain(AuthorityExecution, [grant] + run + nodes + proofs,
                                (if run != [] then [Edge(GrantAuthorizesSubagentRun, grant, run[0])] else [])
                                + (if nodes != [] then [Edge(GrantAuthorizesDagNode, grant, nodes[0])] else [])
                                + (if proofs != [] then [Edge(GrantAuthorizesProof, grant, proofs[0])] else [])))
  {
    hide Has, HasEdge, NodeShown, EdgeShown;
    var e1 := if run != [] then [Edge(GrantAuthorizesSubagentRun, grant, run[0])] else [];
    var e2 := if nodes != [] then [Edge(GrantAuthorizesDagNode, grant, nodes[0])] else [];
    var e3 := if proofs != [] then [Edge(GrantAuthorizesProof, grant, proofs[0])] else [];
    var ids, edges := [grant] + run + nodes + proofs, e1 + e2 + e3;
    forall id <- ids ensures Has(all, id) {
      assert id in [grant] || id in run || id in nodes || id in proofs;
    }
    forall e <- edges ensures HasEdge(all, e) {
      assert e in e1 || e in e2 || e in e3;
    }
    HasResolves(all, ids, edges);
  }

  lemma {:induction false} AuthorityChainsResolve(all: Rows, grants: seq<GrantRow>)
    requires forall g <- grants :: g in all.grants
    ensures AllResolve(all, AuthorityChains(all, grants))
    decreases |grants|
  {
    hide Authority, Resolves;
    if grants != [] {
      var front, last := grants[..|grants| - 1], grants[|grants| - 1];
      AuthorityChainsResolve(all, front);
      assert last in all.grants && IsGrant(all, last.grantId);
      AuthorityResolves(all, last.grantId);
      AllResolveAppend(all, AuthorityChains(all, front), Authority(all, last.grantId));
      AllResolveAppend(all, AuthorityChains(all, front), []);
    }
  }

  lemma TrustResolves(all: Rows)
    requires DistinctKeys(all)
    ensures AllResolve(all, Trust(all)) <==> !LatestDangles(all)
  {
    hide DistinctKeys, Projection, FirstReview, FirstProof, ReviewLink;
    if all.deployments != [] {
      var latest := all.deployments[0];
      var review, proof := FirstReview(all.reviews, latest.deployId), FirstProof(all.proofs, latest.headSha);
      assert latest in all.deployments && IsDeployment(all, latest.deployId);
      HasDeployment(all, latest.deployId);
      if review.Some? { HasReview(all, review.value); }
      if proof.Some? { HasProof(all, proof.value); }
      ReviewLinkExistsExactlyWhen(all, latest.deployId, review);
      hide IsDeployment, Has;
      if review.Some? || proof.Some? {
        var c := Trust(all)[0];
        assert Trust(all) == [c] && NodesExist(all, c) && c.edges == ReviewLink(latest.deployId, review);
        assert AllResolve(all, [c]) <==> Resolves(all, c) by { assert [c][0] == c; }
      }
    }
  }

  /**
   * Every chain of the graph can be followed, node by node and edge by edge, exactly when no unnamed deployment is
   * reviewed.
   */
  lemma ChainsResolveExactlyWhen(all: Rows)
    requires DistinctKeys(all)
    ensures (forall c <- Chains(all) :: Resolves(all, c)) <==> !UnnamedIsReviewed(all)
  {
    CoversWork(all);
    PartsCover(all);
    hide Projection, VersionPart, ExecutionPart, WorkPart, DistinctKeys, JobChains, AuthorityChains, Trust, Resolves,
         JobItems, RefsDangle;
    JobChainsResolve(all, all.jobs);
    AuthorityChainsResolve(all, all.grants);
    TrustResolves(all);
    AllResolveAppend(all, JobChains(all, all.jobs), AuthorityChains(all, all.grants));
    AllResolveAppend(all, JobChains(all, all.jobs) + AuthorityChains(all, all.grants), Trust(all));
    assert AllResolve(all, Chains(all)) <==> forall c <- Chains(all) :: Resolves(all, c);
  }

  /** In particular when every deployment has an id. */
  lemma NamedDeploymentsResolve(all: Rows)
    requires DistinctKeys(all) && forall d <- all.deployments :: d.deployId != ""
    ensures forall c <- Chains(all) :: Resolves(all, c)
  {
    ChainsResolveExactlyWhen(all);
    assert !IsDeployment(all, "");
  }

  /** One deployment with an empty id and one review of it. */
  function Unnamed(): Rows
  {
    Rows(1, "agent", [DeploymentRow("", "", "", [])], [ReviewRow("review", Some(""), "main", [])],
         [], [], [], [], [], [], [], [], [], [])
  }

  lemma UnnamedKeys()
    ensures DistinctKeys(Unnamed()) && UnnamedIsReviewed(Unnamed())
  {
    var all := Unnamed();
    assert all.reviews[0] in all.reviews && all.reviews[0].deployId == Some("");
    assert DeployEvents()(all.deployments[0]) == [];
  }

  /** Their keys are distinct, and still the trust chain names an edge that is not in the graph. */
  lemma UnnamedDeploymentDangles()
    ensures DistinctKeys(Unnamed()) && exists c <- Chains(Unnamed()) :: !Resolves(Unnamed(), c)
  {
    UnnamedKeys();
    hide *;
    ChainsResolveExactlyWhen(Unnamed());
  }
}
