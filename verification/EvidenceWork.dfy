/**
 * `_project_authority_execution_rows`, second half: DAG runs, trials, work jobs with their mutations, and LLM usage.
 */
module EvidenceWork {
  import opened Common
  import opened EvidenceRows
  import opened EvidenceSelection
  import opened EvidenceIds
  import opened EvidenceProjection
  import opened EvidenceKeys
  import opened EvidenceExecution

  method AddDagRun(g: EvidenceGraph, all: Rows, runId: string)
    requires g.Valid() && New(g.Content(), DagRunItems()(runId))
    modifies g`nodes, g`seen, g`made
    ensures g.Valid() && g.Content() == old(g.Content()) + DagRunItems()(runId)
  {
    assert DagRunItems()(runId) == {Node(DagRunNode(runId))} && Node(DagRunNode(runId)) !in g.Content();
    hide *;
    g.AddSeenNode(DagRunNode(runId));
  }

  method AddDagRuns(g: EvidenceGraph, all: Rows)
    requires g.Valid() && Below(g.Content(), 10) && NoRepeats(all.dagRuns)
    modifies g`nodes, g`seen, g`made
    ensures g.Valid() && g.Content() == old(g.Content()) + Gather(all.dagRuns, DagRunItems())
    ensures Below(g.Content(), 11)
  {
    var rows := all.dagRuns;
    DagRunsApart(all);
    GatherAll(g.Content(), rows, DagRunItems());
    StillBelow(g.Content(), rows, DagRunItems(), 10);
    hide EvidenceGraph.Content, EvidenceGraph.Valid, Rank, Below, RankedAt, Apart, New, Gather, DagRunItems, DistinctBy,
         DistinctChildren, NoRepeats;
    for i := 0 to |rows|
      invariant g.Valid() && g.Content() == old(g.Content()) + Gather(rows[..i], DagRunItems())
    {
      StepIsNew(old(g.Content()), rows, i, DagRunItems(), 10);
      assert rows[i] in rows;
      AddDagRun(g, all, rows[i]);
      GatherStep(old(g.Content()), rows, i, DagRunItems());
    }
  }

  lemma DagNodeUnion(all: Rows, n: DagNodeRow, content: set<Item>)
    ensures var node := DagNodeNode(n.runId, n.nodeId);
            && content + DagNodeItems(all)(n) ==
               content + ({Node(node)} + {Link(Edge(AgentExecutedDagNode, Root(all), node))})
               + MaybeLink(if n.runId in all.dagRuns then Some(Edge(DagRunHasNode, DagRunNode(n.runId), node))
                           else None)
               + ByGrant(all, GrantAuthorizesDagNode, n.grantId, node)
            && (New(content, DagNodeItems(all)(n)) ==> Node(node) !in content)
  {
    hide ByGrant;
    assert Node(DagNodeNode(n.runId, n.nodeId)) in DagNodeItems(all)(n);
  }

  lemma DagNodeLooks(all: Rows, n: DagNodeRow)
    ensures var node := DagNodeNode(n.runId, n.nodeId);
            && Rank(Link(Edge(AgentExecutedDagNode, Root(all), node))) == 0
            && Rank(Link(Edge(DagRunHasNode, DagRunNode(n.runId), node))) == 0
            && Rank(Arrow(GrantAuthorizesDagNode, GrantNode(n.grantId), node)) == 0
  {}

  method AddDagNode(g: EvidenceGraph, all: Rows, n: DagNodeRow)
    requires g.Valid() && New(g.Content(), DagNodeItems(all)(n))
    modifies g`nodes, g`seen, g`edges, g`made
    ensures g.Valid() && g.Content() == old(g.Content()) + DagNodeItems(all)(n)
  {
    var node := DagNodeNode(n.runId, n.nodeId);
    hide *;
    DagNodeUnion(all, n, g.Content());
    DagNodeLooks(all, n);
    g.AddSeenNodeWithEdge(node, Edge(AgentExecutedDagNode, Root(all), node));
    g.AppendMaybe(if n.runId in all.dagRuns then Some(Edge(DagRunHasNode, DagRunNode(n.runId), node)) else None);
    AppendByGrant(g, all, GrantAuthorizesDagNode, n.grantId, node);
  }

  method AddDagNodes(g: EvidenceGraph, all: Rows)
    requires g.Valid() && Below(g.Content(), 11) && DistinctBy(all.dagNodes, DagNodeKey())
    modifies g`nodes, g`seen, g`edges, g`made
    ensures g.Valid() && g.Content() == old(g.Content()) + Gather(all.dagNodes, DagNodeItems(all))
    ensures Below(g.Content(), 12)
  {
    var rows := all.dagNodes;
    DagNodesApart(all);
    GatherAll(g.Content(), rows, DagNodeItems(all));
    StillBelow(g.Content(), rows, DagNodeItems(all), 11);
    hide EvidenceGraph.Content, EvidenceGraph.Valid, Rank, Below, RankedAt, Apart, New, Gather, DagNodeItems,
         DistinctBy, DistinctChildren, NoRepeats;
    for i := 0 to |rows|
      invariant g.Valid() && g.Content() == old(g.Content()) + Gather(rows[..i], DagNodeItems(all))
    {
      StepIsNew(old(g.Content()), rows, i, DagNodeItems(all), 11);
      assert rows[i] in rows;
      AddDagNode(g, all, rows[i]);
      GatherStep(old(g.Content()), rows, i, DagNodeItems(all));
    }
  }

  method AddDependenciesOf(g: EvidenceGraph, all: Rows, n: DagNodeRow)
    requires g.Valid()
    modifies g`edges, g`made
    ensures g.Valid() && g.Content() == old(g.Content()) + DependencyItems(all)(n)
  {
    hide *;
    NoDependencies(g.Content(), all, n);
    for i := 0 to |n.deps|
      invariant g.Valid() && g.Content() == old(g.Content()) + DependencyItems(all)(n.(deps := n.deps[..i]))
    {
      var dep := n.deps[i];
      OneMoreDependency(old(g.Content()), all, n, i);
      DependencyLooks(n, dep);
      if !IsDagNode(all, n.runId, dep) {
        continue;
      }
      g.AppendEdge(Edge(DagNodeDependsOn, DagNodeNode(n.runId, n.nodeId), DagNodeNode(n.runId, dep)));
    }
  }

  lemma DependencyLooks(n: DagNodeRow, dep: string)
    ensures Rank(Link(Edge(DagNodeDependsOn, DagNodeNode(n.runId, n.nodeId), DagNodeNode(n.runId, dep)))) == 0
  {}

  lemma NoDependencies(before: set<Item>, all: Rows, n: DagNodeRow)
    ensures before + DependencyItems(all)(n.(deps := n.deps[..0])) == before
    ensures n.(deps := n.deps[..|n.deps|]) == n
  {
    hide IsDagNode;
  }

  lemma OneMoreDependency(before: set<Item>, all: Rows, n: DagNodeRow, i: nat)
    requires i < |n.deps|
    ensures before + DependencyItems(all)(n.(deps := n.deps[..i + 1]))
         == if IsDagNode(all, n.runId, n.deps[i])
            then before + DependencyItems(all)(n.(deps := n.deps[..i]))
                 + {Link(Edge(DagNodeDependsOn, DagNodeNode(n.runId, n.nodeId), DagNodeNode(n.runId, n.deps[i])))}
            else before + DependencyItems(all)(n.(deps := n.deps[..i]))
  {
    assert forall d :: d in n.deps[..i + 1] <==> d in n.deps[..i] || d == n.deps[i];
    hide IsDagNode;
  }

  method AddDependencies(g: EvidenceGraph, all: Rows)
    requires g.Valid() && Below(g.Content(), 12)
    modifies g`edges, g`made
    ensures g.Valid() && g.Content() == old(g.Content()) + Gather(all.dagNodes, DependencyItems(all))
    ensures Below(g.Content(), 13)
  {
    var rows := all.dagNodes;
    DependenciesApart(all);
    GatherAll(g.Content(), rows, DependencyItems(all));
    StillBelow(g.Content(), rows, DependencyItems(all), 12);
    hide EvidenceGraph.Content, EvidenceGraph.Valid, Rank, Below, RankedAt, Apart, New, Gather, DependencyItems,
         DistinctBy, DistinctChildren, NoRepeats;
    for i := 0 to |rows|
      invariant g.Valid() && g.Content() == old(g.Content()) + Gather(rows[..i], DependencyItems(all))
    {
      AddDependenciesOf(g, all, rows[i]);
      GatherStep(old(g.Content()), rows, i, DependencyItems(all));
    }
  }

  /** The local set of room ids met so far holds exactly those of the rooms of the graph. */
  ghost predicate RoomsMatch(rooms: set<string>, content: set<Item>)
  {
    forall r: NodeId :: r.TrialRoomNode? ==> (NodeText(r) in rooms <==> Node(r) in content)
  }

  method AddRoom(g: EvidenceGraph, room: NodeId, rooms: set<string>) returns (after: set<string>)
    requires g.Valid() && RoomsMatch(rooms, g.Content()) && room.TrialRoomNode?
    modifies g`nodes, g`seen, g`made
    ensures g.Valid() && g.Content() == old(g.Content()) + {Node(room)} && after == rooms + {NodeText(room)}
  {
    hide NodeText, EvidenceGraph.Content, EvidenceGraph.Valid;
    after := rooms;
    if NodeText(room) !in after {
      g.AddSeenNode(room);
      after := after + {NodeText(room)};
    } else {
      assert g.Content() + {Node(room)} == g.Content() && rooms + {NodeText(room)} == rooms;
    }
  }

  lemma TrialUnion(all: Rows, t: TrialRow, content: set<Item>)
    ensures content + TrialItems(all)(t) ==
            content + {Node(TrialRoomNode(t.room))}
                + ({Node(TrialNode(t.id))} + {Link(Edge(AgentHasTrial, Root(all), TrialNode(t.id)))})
            + {Link(Edge(TrialRoomHasRun, TrialRoomNode(t.room), TrialNode(t.id)))}
            + ByGrant(all, GrantAuthorizesTrial, t.grantId, TrialNode(t.id))
  {
    hide ByGrant;
  }

  lemma TrialIsNew(all: Rows, t: TrialRow, content: set<Item>)
    requires New(content, TrialItems(all)(t))
    ensures Node(TrialNode(t.id)) !in content + {Node(TrialRoomNode(t.room))}
  {
    assert Node(TrialNode(t.id)) in TrialItems(all)(t);
    hide ByGrant;
  }

  lemma TrialLooks(all: Rows, t: TrialRow)
    ensures Rank(Link(Edge(AgentHasTrial, Root(all), TrialNode(t.id)))) == 0
    ensures Rank(Link(Edge(TrialRoomHasRun, TrialRoomNode(t.room), TrialNode(t.id)))) == 0
    ensures Rank(Arrow(GrantAuthorizesTrial, GrantNode(t.grantId), TrialNode(t.id))) == 0
  {}

  method AddTrial(g: EvidenceGraph, all: Rows, t: TrialRow, rooms: set<string>) returns (after: set<string>)
    requires g.Valid() && New(g.Content(), TrialItems(all)(t)) && RoomsMatch(rooms, g.Content())
    modifies g`nodes, g`seen, g`edges, g`made
    ensures g.Valid() && g.Content() == old(g.Content()) + TrialItems(all)(t)
    ensures after == rooms + {NodeText(TrialRoomNode(t.room))}
  {
    hide *;
    var room, trial := TrialRoomNode(t.room), TrialNode(t.id);
    TrialLooks(all, t);
    TrialUnion(all, t, g.Content());
    TrialIsNew(all, t, g.Content());
    after := AddRoom(g, room, rooms);
    g.AddSeenNodeWithEdge(trial, Edge(AgentHasTrial, Root(all), trial));
    g.AppendEdge(Edge(TrialRoomHasRun, room, trial));
    AppendByGrant(g, all, GrantAuthorizesTrial, t.grantId, trial);
  }

  /** A trial brings in its own room and no other. */
  lemma OneRoom(all: Rows, t: TrialRow, rooms: set<string>, content: set<Item>)
    requires RoomsMatch(rooms, content)
    ensures RoomsMatch(rooms + {NodeText(TrialRoomNode(t.room))}, content + TrialItems(all)(t))
  {
    forall r: NodeId | r.TrialRoomNode? ensures Node(r) in TrialItems(all)(t) <==> r == TrialRoomNode(t.room) {}
    hide TrialItems, NodeText;
    forall r: NodeId | r.TrialRoomNode? && NodeText(r) == NodeText(TrialRoomNode(t.room))
        ensures r == TrialRoomNode(t.room) {
      NodeTextDetermines(r, TrialRoomNode(t.room));
    }
  }

  method AddTrials(g: EvidenceGraph, all: Rows)
    requires g.Valid() && Below(g.Content(), 13) && DistinctBy(all.trials, TrialKey()) && RoomsMatch({}, g.Content())
    modifies g`nodes, g`seen, g`edges, g`made
    ensures g.Valid() && g.Content() == old(g.Content()) + Gather(all.trials, TrialItems(all))
    ensures Below(g.Content(), 14)
  {
    hide *;
    var rows := all.trials;
    TrialsApart(all);
    GatherAll(g.Content(), rows, TrialItems(all));
    StillBelow(g.Content(), rows, TrialItems(all), 13);
    var rooms: set<string> := {};
    for i := 0 to |rows|
      invariant g.Valid() && g.Content() == old(g.Content()) + Gather(rows[..i], TrialItems(all))
      invariant RoomsMatch(rooms, g.Content())
    {
      StepIsNew(old(g.Content()), rows, i, TrialItems(all), 13);
      OneRoom(all, rows[i], rooms, g.Content());
      rooms := AddTrial(g, all, rows[i], rooms);
      GatherStep(old(g.Content()), rows, i, TrialItems(all));
    }
  }

  /** `_project_mutation_refs` */
  method ProjectMutationRefs(g: EvidenceGraph, all: Rows, byHash: map<string, NodeId>, origin: Origin, source: NodeId,
                             refs: MutationRefs)
    requires g.Valid() && FindingsMatch(byHash, all.reviews)
    modifies g
    ensures g.Valid() && g.Content() == old(g.Content()) + RefItems(all, origin, source, refs)
    ensures g.chains == old(g.chains) + Remediation(all, origin, source, refs)
    ensures RemediationNames(all, origin, source, refs, g.chains[|old(g.chains)|..])
  {
    hide *;
    RemediationByPosition(all, origin, source, refs);
    AddedPart(g.chains, Remediation(all, origin, source, refs));
    if refs.headSha == "" && refs.deployId == "" && refs.reviewId == "" && refs.proofId == ""
        && refs.findingHash == "" {
      NothingReferred(g.Content(), g.chains, all, origin, source, refs);
      return;
    }
    FindingFound(all, byHash, refs);
    var finding :=
        if refs.findingHash != "" && refs.findingHash in byHash then Some(byHash[refs.findingHash]) else None;
    var deployment := AppendRefs(g, all, origin, source, refs, finding);
    if finding.Some? && refs.headSha != "" && deployment.Some? {
      AppendRemediation(g, all, origin, source, refs, finding.value, deployment.value,
                        ReviewByRef(all.reviews, refs.headSha), ProofByHead(all.proofs, refs.headSha));
    } else {
      NoRemediation(all, origin, source, refs);
      assert g.chains + [] == g.chains;
    }
  }

  lemma AddedPart<T>(before: seq<T>, added: seq<T>)
    ensures (before + added)[|before|..] == added
  {}

  lemma FindingFound(all: Rows, byHash: map<string, NodeId>, refs: MutationRefs)
    requires FindingsMatch(byHash, all.reviews)
    ensures (if refs.findingHash != "" && refs.findingHash in byHash then Some(byHash[refs.findingHash]) else None)
         == Finding(all, refs)
  {
    hide FindingByHash;
  }

  lemma NothingReferred(content: set<Item>, chains: seq<Chain>, all: Rows, origin: Origin, source: NodeId,
                        refs: MutationRefs)
    requires refs.headSha == "" && refs.deployId == "" && refs.reviewId == "" && refs.findingHash == ""
    ensures content + RefItems(all, origin, source, refs) == content
    ensures chains + Remediation(all, origin, source, refs) == chains
  {}

  lemma NoRemediation(all: Rows, origin: Origin, source: NodeId, refs: MutationRefs)
    requires Finding(all, refs).None? || refs.headSha == "" || Triggered(all, refs).None?
    ensures Remediation(all, origin, source, refs) == []
  {}

  lemma RefsLook(origin: Origin, source: NodeId, target: NodeId)
    ensures Rank(Link(Edge(FindingTargetedBy(origin), source, target))) == 0
    ensures Rank(Link(Edge(ReferencesReview(origin), source, target))) == 0
    ensures Rank(Link(Edge(ProducedVersion(origin), source, target))) == 0
    ensures Rank(Link(Edge(TriggeredDeployment(origin), source, target))) == 0
  {}

  /** The edges and the version of a mutation; the deployment it led to. */
  method AppendRefs(g: EvidenceGraph, all: Rows, origin: Origin, source: NodeId, refs: MutationRefs,
                    finding: Option<NodeId>)
    returns (deployment: Option<string>)
    requires g.Valid() && finding == Finding(all, refs)
    modifies g`nodes, g`seen, g`edges, g`made
    ensures g.Valid() && g.Content() == old(g.Content()) + RefItems(all, origin, source, refs)
    ensures deployment == Triggered(all, refs)
  {
    ghost var targeted, reviewed, produced, triggered := RefParts(all, origin, source, refs, g.Content());
    deployment := FindDeployment(all, refs);
    hide *;
    if finding.Some? { RefsLook(origin, finding.value, source); }
    RefsLook(origin, source, ReviewNode(refs.reviewId));
    RefsLook(origin, source, VersionNode(refs.headSha));
    if deployment.Some? { RefsLook(origin, source, DeploymentNode(deployment.value)); }
    g.AppendMaybe(if finding.Some? then Some(Edge(FindingTargetedBy(origin), finding.value, source)) else None);
    g.AppendMaybe(if refs.reviewId != "" && IsReview(all, refs.reviewId)
                   then Some(Edge(ReferencesReview(origin), source, ReviewNode(refs.reviewId))) else None);
    AppendVersion(g, ProducedVersion(origin), source, refs.headSha);
    g.AppendMaybe(if deployment.Some?
                  then Some(Edge(TriggeredDeployment(origin), source, DeploymentNode(deployment.value))) else None);
  }

  method AppendVersion(g: EvidenceGraph, kind: EdgeKind, source: NodeId, ref: string)
    requires g.Valid() && Rank(Link(Edge(kind, source, VersionNode(ref)))) == 0
    modifies g`nodes, g`seen, g`edges, g`made
    ensures g.Valid() && g.Content() == old(g.Content()) + VersionItems(kind, source, ref)
  {
    hide EvidenceGraph.Content, EvidenceGraph.Valid;
    if ref != "" {
      g.AddUnseenNode(VersionNode(ref));
      g.AppendEdge(Edge(kind, source, VersionNode(ref)));
    }
  }

  method FindDeployment(all: Rows, refs: MutationRefs) returns (deployment: Option<string>)
    ensures deployment == Triggered(all, refs)
  {
    deployment := None;
    if refs.deployId != "" && IsDeployment(all, refs.deployId) {
      deployment := Some(refs.deployId);
    } else if refs.headSha != "" && DeploymentByHead(all.deployments, refs.headSha).Some? {
      deployment := DeploymentByHead(all.deployments, refs.headSha);
    }
  }

  lemma RefParts(all: Rows, origin: Origin, source: NodeId, refs: MutationRefs, content: set<Item>)
    returns (targeted: set<Item>, reviewed: set<Item>, produced: set<Item>, triggered: set<Item>)
    ensures content + RefItems(all, origin, source, refs) == content + targeted + reviewed + produced + triggered
    ensures targeted
            == MaybeLink(if Finding(all, refs).Some?
                         then Some(Edge(FindingTargetedBy(origin), Finding(all, refs).value, source))
                                  else None)
    ensures reviewed == MaybeLink(if refs.reviewId != "" && IsReview(all, refs.reviewId)
                                  then Some(Edge(ReferencesReview(origin), source, ReviewNode(refs.reviewId)))
                                  else None)
    ensures produced == VersionItems(ProducedVersion(origin), source, refs.headSha)
    ensures triggered == MaybeLink(if Triggered(all, refs).Some?
              then Some(Edge(TriggeredDeployment(origin), source, DeploymentNode(Triggered(all, refs).value)))
              else None)
  {
    targeted :=
        MaybeLink(if Finding(all, refs).Some?
                  then Some(Edge(FindingTargetedBy(origin), Finding(all, refs).value, source)) else None);
    reviewed := MaybeLink(if refs.reviewId != "" && IsReview(all, refs.reviewId)
                          then Some(Edge(ReferencesReview(origin), source, ReviewNode(refs.reviewId))) else None);
    produced := VersionItems(ProducedVersion(origin), source, refs.headSha);
    triggered := MaybeLink(if Triggered(all, refs).Some?
                           then Some(Edge(TriggeredDeployment(origin), source,
                                          DeploymentNode(Triggered(all, refs).value))) else None);
    UnionOfFour(content, targeted, reviewed, produced, triggered);
    hide Finding, Triggered, IsReview, VersionItems;
  }

  method AppendRemediation(g: EvidenceGraph, all: Rows, origin: Origin, source: NodeId, refs: MutationRefs,
                           finding: NodeId,
                           deployId: string, review: Option<ReviewRow>, proof: Option<ProofRow>)
    requires Some(finding) == Finding(all, refs) && refs.headSha != "" && Some(deployId) == Triggered(all, refs)
    requires review == ReviewByRef(all.reviews, refs.headSha) && proof == ProofByHead(all.proofs, refs.headSha)
    modifies g`chains
    ensures g.chains == old(g.chains) + Remediation(all, origin, source, refs)
  {
    hide Finding, Triggered, ReviewByRef, ProofByHead;
    var version, deployment := VersionNode(refs.headSha), DeploymentNode(deployId);
    var nodes := [finding, source, version, deployment];
    var edges := [Edge(FindingTargetedBy(origin), finding, source), Edge(ProducedVersion(origin), source, version),
                  Edge(TriggeredDeployment(origin), source, deployment)];
    ghost var first := nodes;
    assert first + [] == first && edges + [] == edges;
    if review.Some? {
      nodes := nodes + [ReviewNode(review.value.reviewId)];
      if review.value.deployId == Some(deployId) {
        edges := edges + [Edge(DeploymentReviewedBy, deployment, ReviewNode(review.value.reviewId))];
      }
    }
    assert nodes + [] == nodes;
    if proof.Some? {
      nodes := nodes + [ProofNode(proof.value.id)];
    }
    g.chains := g.chains + [Chain(FailureRemediation, nodes, edges)];
  }

  method AddWorkEvent(g: EvidenceGraph, all: Rows, byHash: map<string, NodeId>, job: NodeId, e: WorkEventRow)
    requires g.Valid() && FindingsMatch(byHash, all.reviews) && Node(WorkEventNode(e.eventId)) !in g.Content()
    modifies g
    ensures g.Valid() && g.Content() == old(g.Content()) + WorkEventItems(all, job)(e)
    ensures g.chains == old(g.chains) + Remediation(all, FromEvent, WorkEventNode(e.eventId), e.refs)
  {
    hide RefItems, FindingsMatch, EvidenceGraph.Content, EvidenceGraph.Valid;
    g.AddSeenNode(WorkEventNode(e.eventId));
    g.AppendEdge(Edge(WorkJobHasEvent, job, WorkEventNode(e.eventId)));
    ProjectMutationRefs(g, all, byHash, FromEvent, WorkEventNode(e.eventId), e.refs);
  }

  /** An event node comes only with its own row. */
  lemma EventComesOnce(all: Rows, job: NodeId, events: seq<WorkEventRow>, i: nat)
    requires NoRepeats(EventIds(events)) && i < |events|
    ensures Node(WorkEventNode(events[i].eventId)) !in Gather(events[..i], WorkEventItems(all, job))
  {
    var x := Node(WorkEventNode(events[i].eventId));
    forall e <- events[..i] ensures x !in WorkEventItems(all, job)(e) {
      var k :| 0 <= k < i && events[k] == e;
      assert EventIds(events)[k] != EventIds(events)[i];
      if x in WorkEventItems(all, job)(e) {
        EventRanks(all, job, e, x);
      }
    }
  }

  lemma EventChainsStep(before: seq<Chain>, all: Rows, events: seq<WorkEventRow>, i: nat)
    requires i < |events|
    ensures before + EventChains(all, events[..i])
            + Remediation(all, FromEvent, WorkEventNode(events[i].eventId), events[i].refs)
         == before + EventChains(all, events[..i + 1])
  {
    hide Remediation;
    assert events[..i + 1][..i] == events[..i];
  }

  ghost predicate EventsAbsent(events: seq<WorkEventRow>, content: set<Item>)
  {
    forall e <- events :: Node(WorkEventNode(e.eventId)) !in content
  }

  lemma NoEventYet(before: seq<Chain>, all: Rows, events: seq<WorkEventRow>)
    ensures events[..0] == [] && events[..|events|] == events && before + EventChains(all, []) == before
  {}

  lemma NextEventIsNew(all: Rows, job: NodeId, events: seq<WorkEventRow>, i: nat, content: set<Item>)
    requires i < |events| && NoRepeats(EventIds(events)) && EventsAbsent(events, content)
    ensures Node(WorkEventNode(events[i].eventId)) !in content + Gather(events[..i], WorkEventItems(all, job))
  {
    EventComesOnce(all, job, events, i);
    hide Gather, WorkEventItems;
    assert events[i] in events;
  }

  method AddWorkEvents(g: EvidenceGraph, all: Rows, byHash: map<string, NodeId>, job: NodeId, events: seq<WorkEventRow>)
    requires g.Valid() && FindingsMatch(byHash, all.reviews) && NoRepeats(EventIds(events))
    requires EventsAbsent(events, g.Content())
    modifies g
    ensures g.Valid() && g.Content() == old(g.Content()) + Gather(events, WorkEventItems(all, job))
    ensures g.chains == old(g.chains) + EventChains(all, events)
  {
    hide *;
    GatherAll(g.Content(), events, WorkEventItems(all, job));
    NoEventYet(g.chains, all, events);
    for i := 0 to |events|
      invariant g.Valid() && g.Content() == old(g.Content()) + Gather(events[..i], WorkEventItems(all, job))
      invariant g.chains == old(g.chains) + EventChains(all, events[..i])
    {
      NextEventIsNew(all, job, events, i, old(g.Content()));
      AddWorkEvent(g, all, byHash, job, events[i]);
      GatherStep(old(g.Content()), events, i, WorkEventItems(all, job));
      EventChainsStep(old(g.chains), all, events, i);
    }
  }

  lemma JobUnion(all: Rows, j: JobRow)
      returns (own: set<Item>, parent: set<Item>, refItems: set<Item>, eventItems: set<Item>)
    ensures JobItems(all)(j) == own + parent + refItems + eventItems
    ensures own == {Node(WorkJobNode(j.jobId))} + {Link(Edge(AgentHasWorkJob, Root(all), WorkJobNode(j.jobId)))}
    ensures parent == MaybeLink(if j.parentId != "" && IsJob(all, j.parentId)
                                then Some(Edge(WorkJobParentOf, WorkJobNode(j.parentId), WorkJobNode(j.jobId)))
                                else None)
    ensures refItems == RefItems(all, FromJob, WorkJobNode(j.jobId), j.refs)
    ensures eventItems == Gather(j.events, WorkEventItems(all, WorkJobNode(j.jobId)))
  {
    var node := WorkJobNode(j.jobId);
    own := {Node(node), Arrow(AgentHasWorkJob, Root(all), node)};
    parent := if j.parentId != "" && IsJob(all, j.parentId) then {Arrow(WorkJobParentOf, WorkJobNode(j.parentId), node)}
        else {};
    refItems := RefItems(all, FromJob, node, j.refs);
    eventItems := Gather(j.events, WorkEventItems(all, node));
    hide RefItems, Gather, WorkEventItems, IsJob;
  }

  /** The parts of a job's items, in the order they are added, and that its events are not there before their turn. */
  lemma JobParts(all: Rows, j: JobRow, content: set<Item>)
    returns (own: set<Item>, parent: set<Item>, refItems: set<Item>, eventItems: set<Item>)
    requires New(content, JobItems(all)(j))
    ensures content + JobItems(all)(j) == content + own + parent + refItems + eventItems
    ensures own == {Node(WorkJobNode(j.jobId))} + {Link(Edge(AgentHasWorkJob, Root(all), WorkJobNode(j.jobId)))}
    ensures parent == MaybeLink(if j.parentId != "" && IsJob(all, j.parentId)
                                then Some(Edge(WorkJobParentOf, WorkJobNode(j.parentId), WorkJobNode(j.jobId)))
                                else None)
    ensures refItems == RefItems(all, FromJob, WorkJobNode(j.jobId), j.refs)
    ensures eventItems == Gather(j.events, WorkEventItems(all, WorkJobNode(j.jobId)))
    ensures Node(WorkJobNode(j.jobId)) !in content
    ensures EventsAbsent(j.events, content + own + parent + refItems)
  {
    var node := WorkJobNode(j.jobId);
    own, parent, refItems, eventItems := JobUnion(all, j);
    UnionOfFour(content, own, parent, refItems, eventItems);
    JobNodeIsNew(all, j, content);
    hide JobItems, RefItems, Gather, WorkEventItems, New, IsJob;
    forall e <- j.events ensures Node(WorkEventNode(e.eventId)) !in content + own + parent + refItems {
      JobEventIsNew(all, j, e, content);
    }
  }

  lemma JobNodeIsNew(all: Rows, j: JobRow, content: set<Item>)
    requires New(content, JobItems(all)(j))
    ensures Node(WorkJobNode(j.jobId)) !in content
  {
    var own, parent, refItems, eventItems := JobUnion(all, j);
    hide JobItems, RefItems;
    assert Node(WorkJobNode(j.jobId)) in own;
  }

  lemma JobEventIsNew(all: Rows, j: JobRow, e: WorkEventRow, content: set<Item>)
    requires New(content, JobItems(all)(j)) && e in j.events
    ensures Node(WorkEventNode(e.eventId)) !in content
    ensures Node(WorkEventNode(e.eventId)) !in RefItems(all, FromJob, WorkJobNode(j.jobId), j.refs)
  {
    var own, parent, refItems, eventItems := JobUnion(all, j);
    hide JobItems, RefItems;
    var x := Node(WorkEventNode(e.eventId));
    assert x in WorkEventItems(all, WorkJobNode(j.jobId))(e);
    assert x in eventItems && Rank(x) == 14;
    if x in refItems {
      RefRanks(all, FromJob, WorkJobNode(j.jobId), j.refs, x);
    }
  }

  lemma JobLooks(all: Rows, j: JobRow)
    ensures Rank(Link(Edge(AgentHasWorkJob, Root(all), WorkJobNode(j.jobId)))) == 0
    ensures Rank(Link(Edge(WorkJobParentOf, WorkJobNode(j.parentId), WorkJobNode(j.jobId)))) == 0
  {}

  method AddJob(g: EvidenceGraph, all: Rows, byHash: map<string, NodeId>, j: JobRow)
    requires g.Valid() && FindingsMatch(byHash, all.reviews)
    requires New(g.Content(), JobItems(all)(j)) && NoRepeats(EventIds(j.events))
    modifies g
    ensures g.Valid() && g.Content() == old(g.Content()) + JobItems(all)(j)
    ensures g.chains == old(g.chains) + Remediation(all, FromJob, WorkJobNode(j.jobId), j.refs)
            + EventChains(all, j.events)
  {
    var node := WorkJobNode(j.jobId);
    hide *;
    JobLooks(all, j);
    ghost var own, parent, refItems, eventItems := JobParts(all, j, g.Content());
    g.AddSeenNodeWithEdge(node, Edge(AgentHasWorkJob, Root(all), node));
    g.AppendMaybe(if j.parentId != "" && IsJob(all, j.parentId)
                  then Some(Edge(WorkJobParentOf, WorkJobNode(j.parentId), node))
                  else None);
    ProjectMutationRefs(g, all, byHash, FromJob, node, j.refs);
    AddWorkEvents(g, all, byHash, node, j.events);
  }

  lemma JobEventsWithoutRepeats(rows: seq<JobRow>)
    requires DistinctChildren(rows, JobEventIds())
    ensures forall j <- rows :: NoRepeats(EventIds(j.events))
  {
    forall j <- rows ensures NoRepeats(EventIds(j.events)) {
      assert JobEventIds()(j) == EventIds(j.events);
    }
  }

  lemma JobChainsStep(before: seq<Chain>, all: Rows, jobs: seq<JobRow>, i: nat)
    requires i < |jobs|
    ensures before + JobChains(all, jobs[..i]) + Remediation(all, FromJob, WorkJobNode(jobs[i].jobId), jobs[i].refs)
            + EventChains(all, jobs[i].events)
         == before + JobChains(all, jobs[..i + 1])
  {
    hide Remediation, EventChains;
    assert jobs[..i + 1][..i] == jobs[..i];
  }

  lemma NoJobYet(before: seq<Chain>, all: Rows, jobs: seq<JobRow>)
    ensures jobs[..0] == [] && jobs[..|jobs|] == jobs && before + JobChains(all, []) == before
  {}

  method AddJobs(g: EvidenceGraph, all: Rows, byHash: map<string, NodeId>)
    requires g.Valid() && Below(g.Content(), 14) && FindingsMatch(byHash, all.reviews)
    requires DistinctBy(all.jobs, JobKey()) && DistinctChildren(all.jobs, JobEventIds())
    modifies g
    ensures g.Valid() && g.Content() == old(g.Content()) + Gather(all.jobs, JobItems(all))
    ensures Below(g.Content(), 15) && g.chains == old(g.chains) + JobChains(all, all.jobs)
  {
    hide *;
    var rows := all.jobs;
    JobsApart(all);
    JobEventsWithoutRepeats(rows);
    GatherAll(g.Content(), rows, JobItems(all));
    StillBelow(g.Content(), rows, JobItems(all), 14);
    NoJobYet(g.chains, all, rows);
    for i := 0 to |rows|
      invariant g.Valid() && g.Content() == old(g.Content()) + Gather(rows[..i], JobItems(all))
      invariant g.chains == old(g.chains) + JobChains(all, rows[..i])
    {
      StepIsNew(old(g.Content()), rows, i, JobItems(all), 14);
      assert rows[i] in rows;
      AddJob(g, all, byHash, rows[i]);
      GatherStep(old(g.Content()), rows, i, JobItems(all));
      JobChainsStep(old(g.chains), all, rows, i);
    }
  }

  lemma UsageUnion(all: Rows, u: UsageRow, content: set<Item>, byGrant: Option<Edge>, byRun: Option<Edge>,
                   byAgent: Option<Edge>)
    requires byGrant == (if u.grantId != "" && IsGrant(all, u.grantId)
                         then Some(Edge(GrantHasLlmUsage, GrantNode(u.grantId), LlmUsageNode(u.id))) else None)
    requires byRun == (if u.dagRunId != "" && u.dagRunId in all.dagRuns
                       then Some(Edge(DagRunHasLlmUsage, DagRunNode(u.dagRunId), LlmUsageNode(u.id))) else None)
    requires byAgent
             == (if u.agentName == all.agentName then Some(Edge(AgentHasLlmUsage, Root(all), LlmUsageNode(u.id)))
                 else None)
    ensures content + UsageItems(all)(u) ==
            content + {Node(LlmUsageNode(u.id))} + MaybeLink(byGrant) + MaybeLink(byRun) + MaybeLink(byAgent)
            + MaybeLink(if byGrant.None? && byRun.None? && byAgent.None?
                        then Some(Edge(AgentHasInferredLlmUsage, Root(all), LlmUsageNode(u.id))) else None)
  {
    hide IsGrant;
    var joins := MaybeLink(byGrant) + MaybeLink(byRun) + MaybeLink(byAgent);
    assert joins == {} <==> byGrant.None? && byRun.None? && byAgent.None?;
    assert UsageItems(all)(u) == {Node(LlmUsageNode(u.id))}
                                 + if joins == {} then {Arrow(AgentHasInferredLlmUsage, Root(all), LlmUsageNode(u.id))}
                                      else joins;
    hide UsageItems;
  }

  lemma UsageLooks(all: Rows, u: UsageRow, content: set<Item>)
    ensures var node := LlmUsageNode(u.id);
            && (New(content, UsageItems(all)(u)) ==> Node(node) !in content)
            && Rank(Link(Edge(GrantHasLlmUsage, GrantNode(u.grantId), node))) == 0
            && Rank(Link(Edge(DagRunHasLlmUsage, DagRunNode(u.dagRunId), node))) == 0
            && Rank(Link(Edge(AgentHasLlmUsage, Root(all), node))) == 0
            && Rank(Link(Edge(AgentHasInferredLlmUsage, Root(all), node))) == 0
  {
    hide IsGrant;
    assert Node(LlmUsageNode(u.id)) in UsageItems(all)(u);
  }

  method AddUsage(g: EvidenceGraph, all: Rows, u: UsageRow)
    requires g.Valid() && New(g.Content(), UsageItems(all)(u))
    modifies g`nodes, g`seen, g`edges, g`made
    ensures g.Valid() && g.Content() == old(g.Content()) + UsageItems(all)(u)
  {
    var node := LlmUsageNode(u.id);
    hide *;
    UsageLooks(all, u, g.Content());
    g.AddSeenNode(node);
    var byGrant := if u.grantId != "" && IsGrant(all, u.grantId)
        then Some(Edge(GrantHasLlmUsage, GrantNode(u.grantId), node)) else None;
    var byRun := if u.dagRunId != "" && u.dagRunId in all.dagRuns
        then Some(Edge(DagRunHasLlmUsage, DagRunNode(u.dagRunId), node))
                 else None;
    var byAgent := if u.agentName == all.agentName then Some(Edge(AgentHasLlmUsage, Root(all), node)) else None;
    UsageUnion(all, u, old(g.Content()), byGrant, byRun, byAgent);
    g.AppendMaybe(byGrant);
    g.AppendMaybe(byRun);
    g.AppendMaybe(byAgent);
    var edgeAdded := byGrant.Some? || byRun.Some? || byAgent.Some?;
    g.AppendMaybe(if edgeAdded then None else Some(Edge(AgentHasInferredLlmUsage, Root(all), node)));
  }

  method AddUsages(g: EvidenceGraph, all: Rows)
    requires g.Valid() && Below(g.Content(), 15) && DistinctBy(all.usages, UsageKey())
    modifies g`nodes, g`seen, g`edges, g`made
    ensures g.Valid() && g.Content() == old(g.Content()) + Gather(all.usages, UsageItems(all))
    ensures Below(g.Content(), 16)
  {
    var rows := all.usages;
    UsagesApart(all);
    GatherAll(g.Content(), rows, UsageItems(all));
    StillBelow(g.Content(), rows, UsageItems(all), 15);
    hide EvidenceGraph.Content, EvidenceGraph.Valid, Rank, Below, RankedAt, Apart, New, Gather, UsageItems, DistinctBy,
         DistinctChildren, NoRepeats;
    for i := 0 to |rows|
      invariant g.Valid() && g.Content() == old(g.Content()) + Gather(rows[..i], UsageItems(all))
    {
      StepIsNew(old(g.Content()), rows, i, UsageItems(all), 15);
      assert rows[i] in rows;
      AddUsage(g, all, rows[i]);
      GatherStep(old(g.Content()), rows, i, UsageItems(all));
    }
  }
}
