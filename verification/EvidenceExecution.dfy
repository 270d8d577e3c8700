/** `_project_authority_execution_rows`, first half: grants, handoff runs, findings, receipts and sessions. */
module EvidenceExecution {
  import opened Common
  import opened EvidenceRows
  import opened EvidenceProjection
  import opened EvidenceKeys
  import opened EvidenceVersions

  /** The edge from a grant the row names, when that grant was loaded. */
  method AppendByGrant(g: EvidenceGraph, all: Rows, kind: EdgeKind, grantId: string, target: NodeId)
    requires g.Valid() && Rank(Arrow(kind, GrantNode(grantId), target)) == 0
    modifies g`edges, g`made
    ensures g.Valid() && g.Content() == old(g.Content()) + ByGrant(all, kind, grantId, target)
  {
    hide EvidenceGraph.Content, EvidenceGraph.Valid;
    if grantId != "" && IsGrant(all, grantId) {
      g.AppendEdge(Edge(kind, GrantNode(grantId), target));
    }
  }

  method AddGrant(g: EvidenceGraph, all: Rows, grant: GrantRow)
    requires g.Valid()
    modifies g`nodes, g`seen, g`edges, g`made
    ensures g.Valid() && g.Content() == old(g.Content()) + GrantItems(all)(grant)
  {
    var node := GrantNode(grant.grantId);
    hide EvidenceGraph.Content, EvidenceGraph.Valid;
    g.AddUnseenNode(node);
    if grant.audience == all.agentName {
      g.AppendEdge(Edge(AgentHasGrant, Root(all), node));
    }
    AppendByGrant(g, all, GrantParentOf, grant.parentId, node);
  }

  method AddGrants(g: EvidenceGraph, all: Rows)
    requires g.Valid() && Below(g.Content(), 4)
    modifies g`nodes, g`seen, g`edges, g`made
    ensures g.Valid() && g.Content() == old(g.Content()) + Gather(all.grants, GrantItems(all))
    ensures Below(g.Content(), 5)
  {
    var rows := all.grants;
    GrantsApart(all);
    GatherAll(g.Content(), rows, GrantItems(all));
    StillBelow(g.Content(), rows, GrantItems(all), 4);
    hide EvidenceGraph.Content, EvidenceGraph.Valid, Rank, Below, RankedAt, Apart, New, Gather, GrantItems, DistinctBy,
         DistinctChildren, NoRepeats;
    for i := 0 to |rows|
      invariant g.Valid() && g.Content() == old(g.Content()) + Gather(rows[..i], GrantItems(all))
    {
      AddGrant(g, all, rows[i]);
      GatherStep(old(g.Content()), rows, i, GrantItems(all));
    }
  }

  method AddSubagentEvents(g: EvidenceGraph, node: NodeId, events: seq<NodeId>)
    requires g.Valid() && NoRepeats(events) && New(g.Content(), EventItems(SubagentRunHasEvent, node, events))
    requires forall e <- events :: e.SubagentEventNode?
    modifies g`nodes, g`seen, g`edges, g`made
    ensures g.Valid() && g.Content() == old(g.Content()) + EventItems(SubagentRunHasEvent, node, events)
  {
    hide *;
    EventItemsAll(g.Content(), SubagentRunHasEvent, node, events);
    for i := 0 to |events|
      invariant g.Valid() && g.Content() == old(g.Content()) + EventItems(SubagentRunHasEvent, node, events[..i])
    {
      var event := events[i];
      NextSubagentEvent(old(g.Content()), node, events, i);
      EventItemsStep(old(g.Content()), SubagentRunHasEvent, node, events, i);
      EventLink(SubagentRunHasEvent, node, event);
      g.AddSeenNode(event);
      g.AppendEdge(Edge(SubagentRunHasEvent, node, event));
    }
  }

  lemma NextSubagentEvent(before: set<Item>, node: NodeId, events: seq<NodeId>, i: nat)
    requires i < |events| && NoRepeats(events) && New(before, EventItems(SubagentRunHasEvent, node, events))
    requires events[i].SubagentEventNode?
    ensures Node(events[i]) !in before + EventItems(SubagentRunHasEvent, node, events[..i])
    ensures Rank(Link(Edge(SubagentRunHasEvent, node, events[i]))) == 0
  {
    assert Node(events[i]) in EventItems(SubagentRunHasEvent, node, events) && Rank(Node(events[i])) == 5;
    EventIsNew(SubagentRunHasEvent, node, events, i);
    hide EventItems;
  }

  lemma EventLink(kind: EdgeKind, owner: NodeId, event: NodeId)
    ensures Arrow(kind, owner, event) == Link(Edge(kind, owner, event))
  {}

  lemma SubagentParts(all: Rows, s: SubagentRow, content: set<Item>)
    requires New(content, SubagentItems(all)(s))
    ensures var node := SubagentRunNode(s.grantId);
            var events := EventItems(SubagentRunHasEvent, node, SubagentEvents(s.events));
            var first := {Node(node), Arrow(AgentHasSubagentRun, Root(all), node)};
            var grant :=
                if IsGrant(all, s.grantId) then {Arrow(GrantAuthorizesSubagentRun, GrantNode(s.grantId), node)} else {};
            && New(content, first) && New(content + first + grant, events)
            && content + SubagentItems(all)(s) == content + first + grant + events
  {
    var node := SubagentRunNode(s.grantId);
    var events := SubagentEvents(s.events);
    forall x <- EventItems(SubagentRunHasEvent, node, events)
      ensures (x.Node? && x.id.SubagentEventNode?) || (x.Link? && x.edge.kind.SubagentRunHasEvent?)
    {
      EventParts(SubagentRunHasEvent, node, events, x);
    }
    hide EventItems, IsGrant;
  }

  lemma SubagentLooks(all: Rows, s: SubagentRow, content: set<Item>)
    ensures var node := SubagentRunNode(s.grantId);
            var first := {Node(node), Arrow(AgentHasSubagentRun, Root(all), node)};
            && (New(content, first) ==> Node(node) !in content)
            && first == {Node(node)} + {Link(Edge(AgentHasSubagentRun, Root(all), node))}
            && Rank(Link(Edge(AgentHasSubagentRun, Root(all), node))) == 0
            && Rank(Link(Edge(GrantAuthorizesSubagentRun, GrantNode(s.grantId), node))) == 0
            && (if IsGrant(all, s.grantId) then {Arrow(GrantAuthorizesSubagentRun, GrantNode(s.grantId), node)} else {})
               == MaybeLink(if IsGrant(all, s.grantId)
                            then Some(Edge(GrantAuthorizesSubagentRun, GrantNode(s.grantId), node)) else None)
  {
    hide IsGrant;
    assert Rank(Node(SubagentRunNode(s.grantId))) == 5;
  }

  method AddSubagentRun(g: EvidenceGraph, all: Rows, s: SubagentRow)
    requires g.Valid() && New(g.Content(), SubagentItems(all)(s)) && NoRepeats(s.events)
    modifies g`nodes, g`seen, g`edges, g`made
    ensures g.Valid() && g.Content() == old(g.Content()) + SubagentItems(all)(s)
  {
    var node := SubagentRunNode(s.grantId);
    assert NoRepeats(SubagentEvents(s.events));
    hide *;
    SubagentParts(all, s, g.Content());
    SubagentLooks(all, s, g.Content());
    g.AddSeenNodeWithEdge(node, Edge(AgentHasSubagentRun, Root(all), node));
    g.AppendMaybe(if IsGrant(all, s.grantId) then Some(Edge(GrantAuthorizesSubagentRun, GrantNode(s.grantId), node))
                  else None);
    AddSubagentEvents(g, node, SubagentEvents(s.events));
  }

  lemma RunEventsWithoutRepeats(rows: seq<SubagentRow>)
    requires DistinctChildren(rows, SubagentEventRows())
    ensures forall s <- rows :: NoRepeats(s.events)
  {
    forall s <- rows ensures NoRepeats(s.events) {
      assert SubagentEventRows()(s) == s.events;
    }
  }

  method AddSubagentRuns(g: EvidenceGraph, all: Rows)
    requires g.Valid() && Below(g.Content(), 5)
    requires DistinctBy(all.subagents, SubagentKey()) && DistinctChildren(all.subagents, SubagentEventRows())
    modifies g`nodes, g`seen, g`edges, g`made
    ensures g.Valid() && g.Content() == old(g.Content()) + Gather(all.subagents, SubagentItems(all))
    ensures Below(g.Content(), 6)
  {
    var rows := all.subagents;
    SubagentsApart(all);
    RunEventsWithoutRepeats(rows);
    GatherAll(g.Content(), rows, SubagentItems(all));
    StillBelow(g.Content(), rows, SubagentItems(all), 5);
    hide EvidenceGraph.Content, EvidenceGraph.Valid, Rank, Below, RankedAt, Apart, New, Gather, SubagentItems,
         DistinctBy, DistinctChildren, NoRepeats;
    for i := 0 to |rows|
      invariant g.Valid() && g.Content() == old(g.Content()) + Gather(rows[..i], SubagentItems(all))
    {
      StepIsNew(old(g.Content()), rows, i, SubagentItems(all), 5);
      assert rows[i] in rows;
      AddSubagentRun(g, all, rows[i]);
      GatherStep(old(g.Content()), rows, i, SubagentItems(all));
    }
  }

  method AddProofGrant(g: EvidenceGraph, all: Rows, p: ProofRow)
    requires g.Valid()
    modifies g`edges, g`made
    ensures g.Valid() && g.Content() == old(g.Content()) + ProofGrantItems(all)(p)
  {
    AppendByGrant(g, all, GrantAuthorizesProof, p.grantId, ProofNode(p.id));
  }

  method AddProofGrants(g: EvidenceGraph, all: Rows)
    requires g.Valid() && Below(g.Content(), 6)
    modifies g`edges, g`made
    ensures g.Valid() && g.Content() == old(g.Content()) + Gather(all.proofs, ProofGrantItems(all))
    ensures Below(g.Content(), 7)
  {
    var rows := all.proofs;
    ProofGrantsApart(all);
    GatherAll(g.Content(), rows, ProofGrantItems(all));
    StillBelow(g.Content(), rows, ProofGrantItems(all), 6);
    hide EvidenceGraph.Content, EvidenceGraph.Valid, Rank, Below, RankedAt, Apart, New, Gather, ProofGrantItems,
         DistinctBy, DistinctChildren, NoRepeats;
    for i := 0 to |rows|
      invariant g.Valid() && g.Content() == old(g.Content()) + Gather(rows[..i], ProofGrantItems(all))
    {
      AddProofGrant(g, all, rows[i]);
      GatherStep(old(g.Content()), rows, i, ProofGrantItems(all));
    }
  }

  /** `finding_node_by_hash` answers as the reviews do, the last one of a hash winning. */
  ghost predicate FindingsMatch(byHash: map<string, NodeId>, reviews: seq<ReviewRow>)
  {
    forall hash :: (if hash in byHash then Some(byHash[hash]) else None) == FindingByHash(reviews, hash)
  }

  /** Part of a review's findings, over all earlier reviews. */
  ghost predicate FindingsSoFar(byHash: map<string, NodeId>, earlier: seq<ReviewRow>, reviewId: string,
                                findings: seq<string>)
  {
    forall hash :: (if hash in byHash then Some(byHash[hash]) else None)
                == if hash in findings then Some(FindingNode(reviewId, hash)) else FindingByHash(earlier, hash)
  }

  lemma FindingsOfReview(byHash: map<string, NodeId>, rows: seq<ReviewRow>, i: nat)
    requires i < |rows| && FindingsSoFar(byHash, rows[..i], rows[i].reviewId, rows[i].findings)
    ensures FindingsMatch(byHash, rows[..i + 1])
  {
    assert rows[..i + 1][..i] == rows[..i];
  }

  lemma NoFindingsYet(byHash: map<string, NodeId>, earlier: seq<ReviewRow>, reviewId: string, findings: seq<string>)
    requires FindingsMatch(byHash, earlier)
    ensures FindingsSoFar(byHash, earlier, reviewId, findings[..0])
  {}

  lemma FindingAdded(byHash: map<string, NodeId>, earlier: seq<ReviewRow>, reviewId: string, findings: seq<string>,
                     i: nat)
    requires i < |findings| && FindingsSoFar(byHash, earlier, reviewId, findings[..i])
    ensures FindingsSoFar(byHash[findings[i] := FindingNode(reviewId, findings[i])], earlier, reviewId,
                          findings[..i + 1])
  {
    hide FindingByHash;
    assert forall h :: h in findings[..i + 1] <==> h in findings[..i] || h == findings[i];
  }

  lemma FindingsLook(r: ReviewRow)
    ensures FindingItems()(r) == EventItems(ReviewHasFinding, ReviewNode(r.reviewId), Findings(r))
    ensures forall id <- Findings(r) ::
            Rank(Node(id)) == 0 && Rank(Link(Edge(ReviewHasFinding, ReviewNode(r.reviewId), id))) == 0
  {}

  method AddFindingsOf(g: EvidenceGraph, r: ReviewRow, before: map<string, NodeId>, ghost earlier: seq<ReviewRow>)
    returns (byHash: map<string, NodeId>)
    requires g.Valid() && FindingsMatch(before, earlier)
    modifies g`nodes, g`seen, g`edges, g`made
    ensures g.Valid() && g.Content() == old(g.Content()) + FindingItems()(r)
    ensures FindingsSoFar(byHash, earlier, r.reviewId, r.findings)
  {
    hide *;
    byHash := before;
    var ids := Findings(r);
    var review := ReviewNode(r.reviewId);
    EventItemsAll(g.Content(), ReviewHasFinding, review, ids);
    NoFindingsYet(byHash, earlier, r.reviewId, r.findings);
    FindingsLook(r);
    assert r.findings[..|r.findings|] == r.findings;
    for i := 0 to |r.findings|
      invariant g.Valid() && g.Content() == old(g.Content()) + EventItems(ReviewHasFinding, review, ids[..i])
      invariant FindingsSoFar(byHash, earlier, r.reviewId, r.findings[..i])
    {
      FindingAdded(byHash, earlier, r.reviewId, r.findings, i);
      byHash := byHash[r.findings[i] := ids[i]];
      EventItemsStep(old(g.Content()), ReviewHasFinding, review, ids, i);
      EventLink(ReviewHasFinding, review, ids[i]);
      assert ids[i] in ids;
      g.AddUnseenNode(ids[i]);
      g.AppendEdge(Edge(ReviewHasFinding, review, ids[i]));
    }
  }

  method AddFindings(g: EvidenceGraph, all: Rows) returns (byHash: map<string, NodeId>)
    requires g.Valid() && Below(g.Content(), 7)
    modifies g`nodes, g`seen, g`edges, g`made
    ensures g.Valid() && g.Content() == old(g.Content()) + Gather(all.reviews, FindingItems())
    ensures Below(g.Content(), 8) && FindingsMatch(byHash, all.reviews)
  {
    var rows := all.reviews;
    byHash := map[];
    FindingsApart(all);
    GatherAll(g.Content(), rows, FindingItems());
    StillBelow(g.Content(), rows, FindingItems(), 7);
    hide EvidenceGraph.Content, EvidenceGraph.Valid, Rank, Below, RankedAt, Apart, New, Gather, FindingItems;
    for i := 0 to |rows|
      invariant g.Valid() && g.Content() == old(g.Content()) + Gather(rows[..i], FindingItems())
      invariant FindingsMatch(byHash, rows[..i])
    {
      byHash := AddFindingsOf(g, rows[i], byHash, rows[..i]);
      FindingsOfReview(byHash, rows, i);
      GatherStep(old(g.Content()), rows, i, FindingItems());
    }
    assert rows[..|rows|] == rows;
  }

  lemma ReceiptParts(all: Rows, receiptId: string, content: set<Item>)
    requires New(content, ReceiptItems(all)(receiptId))
    ensures var node := ReceiptNode(receiptId);
            && Node(node) !in content && Rank(Link(Edge(AgentHasReceipt, Root(all), node))) == 0
            && ReceiptItems(all)(receiptId) == {Node(node)} + {Link(Edge(AgentHasReceipt, Root(all), node))}
  {
    assert Node(ReceiptNode(receiptId)) in ReceiptItems(all)(receiptId);
  }

  method AddReceipt(g: EvidenceGraph, all: Rows, receiptId: string)
    requires g.Valid() && New(g.Content(), ReceiptItems(all)(receiptId))
    modifies g`nodes, g`seen, g`edges, g`made
    ensures g.Valid() && g.Content() == old(g.Content()) + ReceiptItems(all)(receiptId)
  {
    hide *;
    ReceiptParts(all, receiptId, g.Content());
    g.AddSeenNodeWithEdge(ReceiptNode(receiptId), Edge(AgentHasReceipt, Root(all), ReceiptNode(receiptId)));
  }

  method AddReceipts(g: EvidenceGraph, all: Rows)
    requires g.Valid() && Below(g.Content(), 8) && NoRepeats(all.receipts)
    modifies g`nodes, g`seen, g`edges, g`made
    ensures g.Valid() && g.Content() == old(g.Content()) + Gather(all.receipts, ReceiptItems(all))
    ensures Below(g.Content(), 9)
  {
    var rows := all.receipts;
    ReceiptsApart(all);
    GatherAll(g.Content(), rows, ReceiptItems(all));
    StillBelow(g.Content(), rows, ReceiptItems(all), 8);
    hide EvidenceGraph.Content, EvidenceGraph.Valid, Rank, Below, RankedAt, Apart, New, Gather, ReceiptItems,
         DistinctBy, DistinctChildren, NoRepeats;
    for i := 0 to |rows|
      invariant g.Valid() && g.Content() == old(g.Content()) + Gather(rows[..i], ReceiptItems(all))
    {
      StepIsNew(old(g.Content()), rows, i, ReceiptItems(all), 8);
      assert rows[i] in rows;
      AddReceipt(g, all, rows[i]);
      GatherStep(old(g.Content()), rows, i, ReceiptItems(all));
    }
  }

  lemma SessionUnion(all: Rows, s: SessionRow, content: set<Item>)
    ensures content + SessionItems(all)(s) ==
            content + ({Node(SessionNode(s.sessionId))}
                       + {Link(Edge(AgentHasSession, Root(all), SessionNode(s.sessionId)))})
            + MaybeLink(if s.receiptId != "" && s.receiptId in all.receipts
                        then Some(Edge(ReceiptHasSession, ReceiptNode(s.receiptId), SessionNode(s.sessionId)))
                        else None)
    ensures New(content, SessionItems(all)(s)) ==> Node(SessionNode(s.sessionId)) !in content
  {
    assert Node(SessionNode(s.sessionId)) in SessionItems(all)(s);
  }

  method AddSession(g: EvidenceGraph, all: Rows, s: SessionRow)
    requires g.Valid() && New(g.Content(), SessionItems(all)(s))
    modifies g`nodes, g`seen, g`edges, g`made
    ensures g.Valid() && g.Content() == old(g.Content()) + SessionItems(all)(s)
  {
    var node := SessionNode(s.sessionId);
    assert Rank(Link(Edge(AgentHasSession, Root(all), node))) == 0;
    assert Rank(Link(Edge(ReceiptHasSession, ReceiptNode(s.receiptId), node))) == 0;
    hide *;
    SessionUnion(all, s, g.Content());
    g.AddSeenNodeWithEdge(node, Edge(AgentHasSession, Root(all), node));
    g.AppendMaybe(if s.receiptId != "" && s.receiptId in all.receipts
                  then Some(Edge(ReceiptHasSession, ReceiptNode(s.receiptId), node)) else None);
  }

  method AddSessions(g: EvidenceGraph, all: Rows)
    requires g.Valid() && Below(g.Content(), 9) && DistinctBy(all.sessions, SessionKey())
    modifies g`nodes, g`seen, g`edges, g`made
    ensures g.Valid() && g.Content() == old(g.Content()) + Gather(all.sessions, SessionItems(all))
    ensures Below(g.Content(), 10)
  {
    var rows := all.sessions;
    SessionsApart(all);
    GatherAll(g.Content(), rows, SessionItems(all));
    StillBelow(g.Content(), rows, SessionItems(all), 9);
    hide EvidenceGraph.Content, EvidenceGraph.Valid, Rank, Below, RankedAt, Apart, New, Gather, SessionItems,
         DistinctBy, DistinctChildren, NoRepeats;
    for i := 0 to |rows|
      invariant g.Valid() && g.Content() == old(g.Content()) + Gather(rows[..i], SessionItems(all))
    {
      StepIsNew(old(g.Content()), rows, i, SessionItems(all), 9);
      assert rows[i] in rows;
      AddSession(g, all, rows[i]);
      GatherStep(old(g.Content()), rows, i, SessionItems(all));
    }
  }
}
