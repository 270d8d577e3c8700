/** The first loops of `build_evidence_dag`: deployments with their events, reviews and proofs. */
module EvidenceVersions {
  import opened Common
  import opened EvidenceRows
  import opened EvidenceProjection
  import opened EvidenceKeys

  lemma EventItemsSnoc(kind: EdgeKind, owner: NodeId, events: seq<NodeId>, i: nat)
    requires i < |events|
    ensures EventItems(kind, owner, events[..i + 1])
         == EventItems(kind, owner, events[..i]) + {Node(events[i]), Arrow(kind, owner, events[i])}
  {
    assert events[..i + 1] == events[..i] + [events[i]];
    assert forall e :: e in events[..i + 1] <==> e in events[..i] || e == events[i];
  }

  /** One turn of a loop over events. */
  lemma EventItemsStep(before: set<Item>, kind: EdgeKind, owner: NodeId, events: seq<NodeId>, i: nat)
    requires i < |events|
    ensures before + EventItems(kind, owner, events[..i]) + {Node(events[i])} + {Arrow(kind, owner, events[i])}
         == before + EventItems(kind, owner, events[..i + 1])
  {
    EventItemsSnoc(kind, owner, events, i);
    hide EventItems;
  }

  lemma EventItemsAll(before: set<Item>, kind: EdgeKind, owner: NodeId, events: seq<NodeId>)
    ensures EventItems(kind, owner, events[..|events|]) == EventItems(kind, owner, events)
    ensures before + EventItems(kind, owner, events[..0]) == before
  {
    NoEvents(kind, owner);
    assert events[..|events|] == events && events[..0] == [];
    hide EventItems;
  }

  lemma NoEvents(kind: EdgeKind, owner: NodeId)
    ensures EventItems(kind, owner, []) == {}
  {}

  /** An event node not yet met is in no earlier part of its list. */
  lemma EventIsNew(kind: EdgeKind, owner: NodeId, events: seq<NodeId>, i: nat)
    requires NoRepeats(events) && i < |events|
    ensures Node(events[i]) !in EventItems(kind, owner, events[..i])
    ensures Arrow(kind, owner, events[i]) !in EventItems(kind, owner, events[..i])
  {}

  /** A version behind its check, and the blind edge to it. */
  method AddVersion(g: EvidenceGraph, kind: EdgeKind, source: NodeId, ref: string)
    requires g.Valid() && (ref != "" ==> Arrow(kind, source, VersionNode(ref)) !in g.Content())
    requires kind.DeploymentDeploysVersion? || kind.ProofTestsVersion?
    modifies g`nodes, g`seen, g`edges, g`made
    ensures g.Valid() && g.Content() == old(g.Content()) + VersionItems(kind, source, ref)
  {
    hide EvidenceGraph.Content, EvidenceGraph.Valid;
    if ref != "" {
      g.AddUnseenNode(VersionNode(ref));
      g.PushEdge(Edge(kind, source, VersionNode(ref)));
    }
  }

  method AddDeploymentEvents(g: EvidenceGraph, node: NodeId, events: seq<NodeId>)
    requires g.Valid() && NoRepeats(events) && New(g.Content(), EventItems(DeploymentHasEvent, node, events))
    requires forall e <- events :: e.DeploymentEventNode?
    modifies g`nodes, g`edges, g`made
    ensures g.Valid() && g.Content() == old(g.Content()) + EventItems(DeploymentHasEvent, node, events)
  {
    EventItemsAll(g.Content(), DeploymentHasEvent, node, events);
    for i := 0 to |events|
      invariant g.Valid() && g.Content() == old(g.Content()) + EventItems(DeploymentHasEvent, node, events[..i])
    {
      var event := events[i];
      assert Node(event) in EventItems(DeploymentHasEvent, node, events);
      assert Arrow(DeploymentHasEvent, node, event) in EventItems(DeploymentHasEvent, node, events);
      assert Rank(Node(event)) == 1 && Rank(Arrow(DeploymentHasEvent, node, event)) == 1;
      EventIsNew(DeploymentHasEvent, node, events, i);
      EventItemsStep(old(g.Content()), DeploymentHasEvent, node, events, i);
      hide EventItems, Rank, New, EvidenceGraph.Content, EvidenceGraph.Valid;
      g.AddNode(event);
      g.PushEdge(Edge(DeploymentHasEvent, node, event));
    }
  }

  /** The parts of one deployment's items stay new while they are added in turn. */
  lemma DeploymentParts(all: Rows, d: DeploymentRow, content: set<Item>)
    requires New(content, DeploymentItems(all)(d))
    ensures var node := DeploymentNode(d.deployId);
            var events := EventItems(DeploymentHasEvent, node, DeploymentEvents(d.events));
            var version := VersionItems(DeploymentDeploysVersion, node, FirstOf(d.headSha, d.image));
            var first := {Node(node), Arrow(AgentHasDeployment, Root(all), node)};
            && New(content, first) && New(content + first, version) && New(content + first + version, events)
            && content + DeploymentItems(all)(d) == content + first + version + events
  {
    var node := DeploymentNode(d.deployId);
    var events := DeploymentEvents(d.events);
    forall x <- EventItems(DeploymentHasEvent, node, events)
      ensures (x.Node? && x.id.DeploymentEventNode?) || (x.Link? && x.edge.kind.DeploymentHasEvent?)
    {
      EventParts(DeploymentHasEvent, node, events, x);
    }
    hide EventItems;
  }

  /** A node and a blind edge to it, both new. */
  method AddWithEdge(g: EvidenceGraph, id: NodeId, e: Edge)
    requires g.Valid() && Rank(Node(id)) > 0 && Rank(Link(e)) > 0 && New(g.Content(), {Node(id), Link(e)})
    modifies g`nodes, g`edges, g`made
    ensures g.Valid() && g.Content() == old(g.Content()) + {Node(id), Link(e)}
  {
    ghost var before := g.Content();
    assert Node(id) !in before && Link(e) !in before + {Node(id)};
    assert before + {Node(id)} + {Link(e)} == before + {Node(id), Link(e)};
    hide *;
    g.AddNode(id);
    g.PushEdge(e);
  }

  lemma DeploymentIsBlind(all: Rows, d: DeploymentRow, content: set<Item>)
    ensures var node, ref := DeploymentNode(d.deployId), FirstOf(d.headSha, d.image);
            && Rank(Node(node)) > 0 && Rank(Link(Edge(AgentHasDeployment, Root(all), node))) > 0
            && {Node(node), Arrow(AgentHasDeployment, Root(all), node)}
               == {Node(node), Link(Edge(AgentHasDeployment, Root(all), node))}
            && (ref != "" && New(content, VersionItems(DeploymentDeploysVersion, node, ref)) ==>
                  Arrow(DeploymentDeploysVersion, node, VersionNode(ref)) !in content)
  {
    var node, ref := DeploymentNode(d.deployId), FirstOf(d.headSha, d.image);
    assert ref != "" ==>
           Arrow(DeploymentDeploysVersion, node, VersionNode(ref)) in VersionItems(DeploymentDeploysVersion, node, ref);
  }

  method AddDeployment(g: EvidenceGraph, all: Rows, d: DeploymentRow)
    requires g.Valid() && New(g.Content(), DeploymentItems(all)(d)) && NoRepeats(d.events)
    modifies g`nodes, g`seen, g`edges, g`made
    ensures g.Valid() && g.Content() == old(g.Content()) + DeploymentItems(all)(d)
  {
    var node := DeploymentNode(d.deployId);
    var ref := FirstOf(d.headSha, d.image);
    assert NoRepeats(DeploymentEvents(d.events));
    hide *;
    DeploymentParts(all, d, g.Content());
    DeploymentIsBlind(all, d, g.Content() + {Node(node), Arrow(AgentHasDeployment, Root(all), node)});
    AddWithEdge(g, node, Edge(AgentHasDeployment, Root(all), node));
    AddVersion(g, DeploymentDeploysVersion, node, ref);
    AddDeploymentEvents(g, node, DeploymentEvents(d.events));
  }

  lemma EventsWithoutRepeats(rows: seq<DeploymentRow>)
    requires DistinctChildren(rows, DeployEvents())
    ensures forall d <- rows :: NoRepeats(d.events)
  {
    forall d <- rows ensures NoRepeats(d.events) {
      assert DeployEvents()(d) == d.events;
    }
  }

  method AddDeployments(g: EvidenceGraph, all: Rows)
    requires g.Valid() && Below(g.Content(), 1)
    requires DistinctBy(all.deployments, DeployKey()) && DistinctChildren(all.deployments, DeployEvents())
    modifies g`nodes, g`seen, g`edges, g`made
    ensures g.Valid() && g.Content() == old(g.Content()) + Gather(all.deployments, DeploymentItems(all))
    ensures Below(g.Content(), 2)
  {
    var rows := all.deployments;
    DeploymentsApart(all);
    EventsWithoutRepeats(rows);
    GatherAll(g.Content(), rows, DeploymentItems(all));
    StillBelow(g.Content(), rows, DeploymentItems(all), 1);
    hide EvidenceGraph.Content, EvidenceGraph.Valid, Rank, Below, RankedAt, Apart, New, Gather, DeploymentItems,
         DistinctBy, DistinctChildren, NoRepeats;
    for i := 0 to |rows|
      invariant g.Valid() && g.Content() == old(g.Content()) + Gather(rows[..i], DeploymentItems(all))
    {
      StepIsNew(old(g.Content()), rows, i, DeploymentItems(all), 1);
      assert rows[i] in rows;
      AddDeployment(g, all, rows[i]);
      GatherStep(old(g.Content()), rows, i, DeploymentItems(all));
    }
  }

  method AddReview(g: EvidenceGraph, all: Rows, r: ReviewRow)
    requires g.Valid() && New(g.Content(), ReviewItems(all)(r))
    modifies g`nodes, g`edges, g`made
    ensures g.Valid() && g.Content() == old(g.Content()) + ReviewItems(all)(r)
  {
    assert Node(ReviewNode(r.reviewId)) in ReviewItems(all)(r);
    hide EvidenceGraph.Content, EvidenceGraph.Valid;
    g.AddNode(ReviewNode(r.reviewId));
    if Linked(all, r) {
      g.PushEdge(Edge(DeploymentReviewedBy, DeploymentNode(r.deployId.value), ReviewNode(r.reviewId)));
    }
  }

  method AddReviews(g: EvidenceGraph, all: Rows)
    requires g.Valid() && Below(g.Content(), 2) && DistinctBy(all.reviews, ReviewKey())
    modifies g`nodes, g`edges, g`made
    ensures g.Valid() && g.Content() == old(g.Content()) + Gather(all.reviews, ReviewItems(all))
    ensures Below(g.Content(), 3)
  {
    var rows := all.reviews;
    ReviewsApart(all);
    GatherAll(g.Content(), rows, ReviewItems(all));
    StillBelow(g.Content(), rows, ReviewItems(all), 2);
    hide EvidenceGraph.Content, EvidenceGraph.Valid, Rank, Below, RankedAt, Apart, New, Gather, ReviewItems;
    for i := 0 to |rows|
      invariant g.Valid() && g.Content() == old(g.Content()) + Gather(rows[..i], ReviewItems(all))
    {
      StepIsNew(old(g.Content()), rows, i, ReviewItems(all), 2);
      AddReview(g, all, rows[i]);
      GatherStep(old(g.Content()), rows, i, ReviewItems(all));
    }
  }

  lemma ProofParts(all: Rows, p: ProofRow, content: set<Item>)
    requires New(content, ProofItems(all)(p))
    ensures var node, ref := ProofNode(p.id), FirstOf(FirstOf(p.headSha, p.cardHash), p.image);
            var first := {Node(node), Link(Edge(AgentHasProof, Root(all), node))};
            && Rank(Node(node)) > 0 && Rank(Link(Edge(AgentHasProof, Root(all), node))) > 0 && New(content, first)
            && (ref != "" ==> Arrow(ProofTestsVersion, node, VersionNode(ref)) !in content + first)
            && content + ProofItems(all)(p) == content + first + VersionItems(ProofTestsVersion, node, ref)
  {
    var node, ref := ProofNode(p.id), FirstOf(FirstOf(p.headSha, p.cardHash), p.image);
    var first, version :=
        {Node(node), Link(Edge(AgentHasProof, Root(all), node))}, VersionItems(ProofTestsVersion, node, ref);
    assert ProofItems(all)(p) == first + version;
    hide ProofItems, FirstOf;
  }

  method AddProof(g: EvidenceGraph, all: Rows, p: ProofRow)
    requires g.Valid() && New(g.Content(), ProofItems(all)(p))
    modifies g`nodes, g`seen, g`edges, g`made
    ensures g.Valid() && g.Content() == old(g.Content()) + ProofItems(all)(p)
  {
    var node := ProofNode(p.id);
    var ref := FirstOf(FirstOf(p.headSha, p.cardHash), p.image);
    hide *;
    ProofParts(all, p, g.Content());
    AddWithEdge(g, node, Edge(AgentHasProof, Root(all), node));
    AddVersion(g, ProofTestsVersion, node, ref);
  }

  method AddProofs(g: EvidenceGraph, all: Rows)
    requires g.Valid() && Below(g.Content(), 3) && DistinctBy(all.proofs, ProofKey())
    modifies g`nodes, g`seen, g`edges, g`made
    ensures g.Valid() && g.Content() == old(g.Content()) + Gather(all.proofs, ProofItems(all))
    ensures Below(g.Content(), 4)
  {
    var rows := all.proofs;
    ProofsApart(all);
    GatherAll(g.Content(), rows, ProofItems(all));
    StillBelow(g.Content(), rows, ProofItems(all), 3);
    hide EvidenceGraph.Content, EvidenceGraph.Valid, Rank, Below, RankedAt, Apart, New, Gather, ProofItems;
    for i := 0 to |rows|
      invariant g.Valid() && g.Content() == old(g.Content()) + Gather(rows[..i], ProofItems(all))
    {
      StepIsNew(old(g.Content()), rows, i, ProofItems(all), 3);
      AddProof(g, all, rows[i]);
      GatherStep(old(g.Content()), rows, i, ProofItems(all));
    }
  }
}
