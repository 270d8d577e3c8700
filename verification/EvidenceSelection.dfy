/**
 * Which rows the chains name, by position in their lists: the first or the last one that fits, and none if none does.
 */
module EvidenceSelection {
  import opened Common
  import opened EvidenceRows

  // A position, or nothing when no row fits.

  ghost predicate FirstReviewOf(all: Rows, deployId: string, at: Option<nat>)
  {
    match at
    case None => forall r <- all.reviews :: r.deployId != Some(deployId)
    case Some(i) =>
      && i < |all.reviews| && all.reviews[i].deployId == Some(deployId)
      && forall j :: 0 <= j < i ==> all.reviews[j].deployId != Some(deployId)
  }

  ghost predicate FirstProofOfCommit(all: Rows, headSha: string, at: Option<nat>)
  {
    match at
    case None => headSha == "" || forall p <- all.proofs :: p.headSha != headSha
    case Some(i) =>
      && headSha != "" && i < |all.proofs| && all.proofs[i].headSha == headSha
      && forall j :: 0 <= j < i ==> all.proofs[j].headSha != headSha
  }

  ghost predicate LastReviewOfCommit(all: Rows, headSha: string, at: Option<nat>)
  {
    match at
    case None => forall r <- all.reviews :: r.ref != headSha
    case Some(i) =>
      && i < |all.reviews| && all.reviews[i].ref == headSha
      && forall j :: i < j < |all.reviews| ==> all.reviews[j].ref != headSha
  }

  ghost predicate LastProofOfCommit(all: Rows, headSha: string, at: Option<nat>)
  {
    match at
    case None => forall p <- all.proofs :: p.headSha != headSha
    case Some(i) =>
      && i < |all.proofs| && all.proofs[i].headSha == headSha
      && forall j :: i < j < |all.proofs| ==> all.proofs[j].headSha != headSha
  }

  ghost predicate LastReviewWithFinding(all: Rows, hash: string, at: Option<nat>)
  {
    match at
    case None => hash == "" || forall r <- all.reviews :: hash !in r.findings
    case Some(i) =>
      && hash != "" && i < |all.reviews| && hash in all.reviews[i].findings
      && forall j :: i < j < |all.reviews| ==> hash !in all.reviews[j].findings
  }

  ghost predicate FirstNodeOfGrant(all: Rows, grantId: string, at: Option<nat>)
  {
    match at
    case None => grantId == "" || forall n <- all.dagNodes :: n.grantId != grantId
    case Some(i) =>
      && grantId != "" && i < |all.dagNodes| && all.dagNodes[i].grantId == grantId
      && forall j :: 0 <= j < i ==> all.dagNodes[j].grantId != grantId
  }

  ghost predicate LastProofOfGrant(all: Rows, grantId: string, at: Option<nat>)
  {
    match at
    case None => grantId == "" || forall p <- all.proofs :: p.grantId != grantId
    case Some(i) =>
      && grantId != "" && i < |all.proofs| && all.proofs[i].grantId == grantId
      && forall j :: i < j < |all.proofs| ==> all.proofs[j].grantId != grantId
  }

  /** The deployment a mutation names, otherwise the last one of its commit. */
  ghost predicate LedTo(all: Rows, refs: MutationRefs, at: Option<nat>)
  {
    var named := refs.deployId != "" && exists d <- all.deployments :: d.deployId == refs.deployId;
    match at
    case None => !named && (refs.headSha == "" || forall d <- all.deployments :: d.headSha != refs.headSha)
    case Some(i) =>
      && i < |all.deployments|
      && if named then all.deployments[i].deployId == refs.deployId
         else && refs.headSha != "" && all.deployments[i].headSha == refs.headSha
              && forall j :: i < j < |all.deployments| ==> all.deployments[j].headSha != refs.headSha
  }

  // The chains, over those positions.

  /**
   * One trust chain from the latest deployment exactly when it has a review or a proof of its commit: the first of
   * each, and the edge to the review.
   */
  ghost predicate TrustNames(all: Rows, chains: seq<Chain>)
  {
    if all.deployments == [] then chains == []
    else
      var deployId := all.deployments[0].deployId;
      exists r: Option<nat>, p: Option<nat> ::
        && FirstReviewOf(all, deployId, r) && FirstProofOfCommit(all, all.deployments[0].headSha, p)
        && chains == if r.None? && p.None? then []
                     else [Chain(VersionTrust,
                                 [DeploymentNode(deployId)]
                                 + (if r.Some? then [ReviewNode(all.reviews[r.value].reviewId)] else [])
                                 + (if p.Some? then [ProofNode(all.proofs[p.value].id)] else []),
                                 if r.None? then []
                                 else [Edge(DeploymentReviewedBy, DeploymentNode(deployId),
                                            ReviewNode(all.reviews[r.value].reviewId))])]
  }

  lemma FirstReviewIsFirst(all: Rows, deployId: string) returns (at: Option<nat>)
    ensures FirstReviewOf(all, deployId, at)
    ensures var review := FirstReview(all.reviews, deployId);
            if at.Some? then review == Some(all.reviews[at.value]) else review == None
  {
    var review := FirstReview(all.reviews, deployId);
    if review.Some? {
      var i :| 0 <= i < |all.reviews| && all.reviews[i].deployId == Some(deployId) && review.value == all.reviews[i]
               && forall j :: 0 <= j < i ==> all.reviews[j].deployId != Some(deployId);
      at := Some(i);
    } else {
      at := None;
    }
  }

  lemma FirstProofIsFirst(all: Rows, headSha: string) returns (at: Option<nat>)
    ensures FirstProofOfCommit(all, headSha, at)
    ensures var proof := FirstProof(all.proofs, headSha);
            if at.Some? then proof == Some(all.proofs[at.value]) else proof == None
  {
    var proof := FirstProof(all.proofs, headSha);
    if proof.Some? {
      var i :| 0 <= i < |all.proofs| && all.proofs[i].headSha == headSha && proof.value == all.proofs[i]
               && forall j :: 0 <= j < i ==> all.proofs[j].headSha != headSha;
      at := Some(i);
    } else {
      at := None;
    }
  }

  lemma TrustByPosition(all: Rows)
    ensures TrustNames(all, Trust(all))
  {
    if all.deployments != [] {
      hide FirstReview, FirstProof;
      var r := FirstReviewIsFirst(all, all.deployments[0].deployId);
      var p := FirstProofIsFirst(all, all.deployments[0].headSha);
      hide FirstReviewOf, FirstProofOfCommit;
    }
  }

  /**
   * One chain from a grant exactly when it authorised something: its handoff run if there is one, its first DAG node
   * and its last proof, and the edge to each.
   */
  ghost predicate AuthorityNames(all: Rows, grantId: string, chains: seq<Chain>)
  {
    var grant, run := GrantNode(grantId), SubagentRunNode(grantId);
    var handed := exists s <- all.subagents :: s.grantId == grantId;
    exists n: Option<nat>, p: Option<nat> ::
      && FirstNodeOfGrant(all, grantId, n) && LastProofOfGrant(all, grantId, p)
      && var ids := (if handed then [run] else [])
                    + (if n.Some? then [DagNodeNode(all.dagNodes[n.value].runId, all.dagNodes[n.value].nodeId)] else [])
                    + (if p.Some? then [ProofNode(all.proofs[p.value].id)] else []);
         var edges := (if handed then [Edge(GrantAuthorizesSubagentRun, grant, run)] else [])
                      + (if n.None? then []
                         else [Edge(GrantAuthorizesDagNode, grant,
                                    DagNodeNode(all.dagNodes[n.value].runId, all.dagNodes[n.value].nodeId))])
                      + (if p.Some? then [Edge(GrantAuthorizesProof, grant, ProofNode(all.proofs[p.value].id))]
                         else []);
         chains == if ids == [] then [] else [Chain(AuthorityExecution, [grant] + ids, edges)]
  }

  lemma FirstNodeIsFirst(all: Rows, grantId: string) returns (at: Option<nat>)
    ensures FirstNodeOfGrant(all, grantId, at)
    ensures var node := if grantId != "" then DagNodeByGrant(all.dagNodes, grantId) else None;
            if at.Some? then node == Some(all.dagNodes[at.value]) else node == None
  {
    var node := if grantId != "" then DagNodeByGrant(all.dagNodes, grantId) else None;
    if node.Some? {
      var i :| 0 <= i < |all.dagNodes| && all.dagNodes[i].grantId == grantId && node.value == all.dagNodes[i]
               && forall j :: 0 <= j < i ==> all.dagNodes[j].grantId != grantId;
      at := Some(i);
    } else {
      at := None;
    }
  }

  lemma LastGrantProofIsLast(all: Rows, grantId: string) returns (at: Option<nat>)
    ensures LastProofOfGrant(all, grantId, at)
    ensures var proof := if grantId != "" then ProofByGrant(all.proofs, grantId) else None;
            if at.Some? then proof == Some(all.proofs[at.value]) else proof == None
  {
    var proof := if grantId != "" then ProofByGrant(all.proofs, grantId) else None;
    if proof.Some? {
      var i :| 0 <= i < |all.proofs| && all.proofs[i].grantId == grantId && proof.value == all.proofs[i]
               && forall j :: i < j < |all.proofs| ==> all.proofs[j].grantId != grantId;
      at := Some(i);
    } else {
      at := None;
    }
  }

  lemma AuthorityByPosition(all: Rows, grantId: string)
    ensures AuthorityNames(all, grantId, Authority(all, grantId))
  {
    hide DagNodeByGrant, ProofByGrant;
    var n := FirstNodeIsFirst(all, grantId);
    var p := LastGrantProofIsLast(all, grantId);
    hide FirstNodeOfGrant, LastProofOfGrant;
    var handed := exists s <- all.subagents :: s.grantId == grantId;
    var run := if handed then [SubagentRunNode(grantId)] else [];
    var nodes := if n.Some? then [DagNodeNode(all.dagNodes[n.value].runId, all.dagNodes[n.value].nodeId)] else [];
    var proofs := if p.Some? then [ProofNode(all.proofs[p.value].id)] else [];
    Assoc([GrantNode(grantId)] + run, nodes, proofs);
    Assoc([GrantNode(grantId)], run, nodes + proofs);
    Assoc(run, nodes, proofs);
  }

  /** Every grant id once, in the order in which the ids first appear. */
  ghost predicate FirstSeen(grants: seq<GrantRow>, ids: seq<string>)
  {
    && (forall id :: id in ids <==> exists g <- grants :: g.grantId == id)
    && (forall a, b :: 0 <= a < b < |ids| ==> ids[a] != ids[b] && SeenBefore(grants, ids[a], ids[b]))
  }

  ghost predicate SeenBefore(grants: seq<GrantRow>, earlier: string, later: string)
  {
    exists i :: 0 <= i < |grants| && grants[i].grantId == earlier && forall j ::
        0 <= j <= i ==> grants[j].grantId != later
  }

  /** The chains of the grants in turn. */
  function PerGrant(all: Rows, ids: seq<string>): (chains: seq<seq<Chain>>)
    ensures |chains| == |ids| && forall i :: 0 <= i < |ids| ==> chains[i] == Authority(all, ids[i])
  {
    seq(|ids|, i requires 0 <= i < |ids| => Authority(all, ids[i]))
  }

  lemma {:induction false} AuthorityInOrder(all: Rows, grants: seq<GrantRow>) returns (ids: seq<string>)
    ensures FirstSeen(grants, ids) && AuthorityChains(all, grants) == Flatten(PerGrant(all, ids))
    decreases |grants|
  {
    hide Authority;
    if grants == [] {
      ids := [];
    } else {
      var front, last := grants[..|grants| - 1], grants[|grants| - 1];
      ids := AuthorityInOrder(all, front);
      assert grants == front + [last];
      if last.grantId in ids {
        SeenAgain(front, last, ids);
        NothingAdded(AuthorityChains(all, front));
      } else {
        SeenFirst(front, last, ids);
        assert PerGrant(all, ids + [last.grantId]) == PerGrant(all, ids) + [Authority(all, last.grantId)];
        FlattenSnoc(PerGrant(all, ids), Authority(all, last.grantId));
        ids := ids + [last.grantId];
      }
    }
  }

  lemma SeenBeforeLater(front: seq<GrantRow>, last: GrantRow, earlier: string, later: string)
    requires SeenBefore(front, earlier, later)
    ensures SeenBefore(front + [last], earlier, later)
  {
    var i :| 0 <= i < |front| && front[i].grantId == earlier && forall j :: 0 <= j <= i ==> front[j].grantId != later;
    assert (front + [last])[i] == front[i];
    assert forall j :: 0 <= j <= i ==> (front + [last])[j] == front[j];
  }

  lemma SeenAgain(front: seq<GrantRow>, last: GrantRow, ids: seq<string>)
    requires FirstSeen(front, ids) && last.grantId in ids
    ensures FirstSeen(front + [last], ids)
  {
    forall a, b | 0 <= a < b < |ids| ensures SeenBefore(front + [last], ids[a], ids[b]) {
      SeenBeforeLater(front, last, ids[a], ids[b]);
    }
    hide SeenBefore;
    assert forall g :: g in front + [last] <==> g in front || g == last;
  }

  lemma SeenFirst(front: seq<GrantRow>, last: GrantRow, ids: seq<string>)
    requires FirstSeen(front, ids) && last.grantId !in ids
    ensures FirstSeen(front + [last], ids + [last.grantId])
  {
    var after := ids + [last.grantId];
    assert forall g :: g in front + [last] <==> g in front || g == last;
    forall a, b | 0 <= a < b < |after| ensures after[a] != after[b] && SeenBefore(front + [last], after[a], after[b]) {
      if b < |ids| {
        SeenBeforeLater(front, last, ids[a], ids[b]);
      } else {
        assert ids[a] in ids;
        var i :| 0 <= i < |front| && front[i].grantId == ids[a];
        assert forall j :: 0 <= j <= i ==> front[j] in front && front[j].grantId != last.grantId;
        assert SeenBefore(front, ids[a], last.grantId);
        SeenBeforeLater(front, last, ids[a], last.grantId);
      }
    }
    hide SeenBefore;
    forall id ensures id in after <==> exists g <- front + [last] :: g.grantId == id {
      assert id in after <==> id in ids || id == last.grantId;
    }
  }

  /**
   * One chain from a mutation exactly when it targets a known finding, names a commit and led to a deployment: the
   * finding of the last review that has it, the mutation, the version, the deployment, then the last review and the
   * last proof of the commit; the edges between the first four, and the one to the review when it reviewed that
   * deployment.
   */
  ghost predicate RemediationNames(all: Rows, origin: Origin, source: NodeId, refs: MutationRefs, chains: seq<Chain>)
  {
    exists f: Option<nat>, d: Option<nat>, r: Option<nat>, p: Option<nat> ::
      RemediationAt(all, origin, source, refs, chains, f, d, r, p)
  }

  ghost predicate RemediationAt(all: Rows, origin: Origin, source: NodeId, refs: MutationRefs, chains: seq<Chain>,
                                f: Option<nat>, d: Option<nat>, r: Option<nat>, p: Option<nat>)
  {
    && LastReviewWithFinding(all, refs.findingHash, f) && LedTo(all, refs, d)
    && LastReviewOfCommit(all, refs.headSha, r) && LastProofOfCommit(all, refs.headSha, p)
    && chains == if f.None? || refs.headSha == "" || d.None? then []
                 else RemediationOf(origin, source, refs, all.reviews[f.value], all.deployments[d.value].deployId,
                                    if r.Some? then Some(all.reviews[r.value]) else None,
                                    if p.Some? then Some(all.proofs[p.value]) else None)
  }

  ghost function RemediationOf(origin: Origin, source: NodeId, refs: MutationRefs, found: ReviewRow, deployId: string,
                               review: Option<ReviewRow>, proof: Option<ProofRow>): seq<Chain>
  {
    var finding, version := FindingNode(found.reviewId, refs.findingHash), VersionNode(refs.headSha);
    var deployment := DeploymentNode(deployId);
    var linked := review.Some? && review.value.deployId == Some(deployId);
    [Chain(FailureRemediation,
           [finding, source, version, deployment]
           + (if review.Some? then [ReviewNode(review.value.reviewId)] else [])
           + (if proof.Some? then [ProofNode(proof.value.id)] else []),
           [Edge(FindingTargetedBy(origin), finding, source), Edge(ProducedVersion(origin), source, version),
            Edge(TriggeredDeployment(origin), source, deployment)]
           + if linked then [Edge(DeploymentReviewedBy, deployment, ReviewNode(review.value.reviewId))] else [])]
  }

  lemma FindingIsLast(all: Rows, refs: MutationRefs) returns (at: Option<nat>)
    ensures LastReviewWithFinding(all, refs.findingHash, at)
    ensures if at.Some? then Finding(all, refs) == Some(FindingNode(all.reviews[at.value].reviewId, refs.findingHash))
            else Finding(all, refs) == None
  {
    if Finding(all, refs).Some? {
      var rows, hash := all.reviews, refs.findingHash;
      var i :| 0 <= i < |rows| && hash in rows[i].findings
               && Finding(all, refs).value == FindingNode(rows[i].reviewId, hash)
               && forall j :: i < j < |rows| ==> hash !in rows[j].findings;
      at := Some(i);
    } else {
      at := None;
    }
  }

  lemma TriggeredIsLast(all: Rows, refs: MutationRefs) returns (at: Option<nat>)
    ensures LedTo(all, refs, at)
    ensures if at.Some? then Triggered(all, refs) == Some(all.deployments[at.value].deployId)
            else Triggered(all, refs) == None
  {
    var rows := all.deployments;
    if refs.deployId != "" && IsDeployment(all, refs.deployId) {
      var i :| 0 <= i < |rows| && rows[i].deployId == refs.deployId;
      at := Some(i);
    } else if Triggered(all, refs).Some? {
      var i :| 0 <= i < |rows| && rows[i].headSha == refs.headSha && Triggered(all, refs).value == rows[i].deployId
               && forall j :: i < j < |rows| ==> rows[j].headSha != refs.headSha;
      at := Some(i);
    } else {
      at := None;
    }
  }

  lemma FollowUpReviewIsLast(all: Rows, headSha: string) returns (at: Option<nat>)
    ensures LastReviewOfCommit(all, headSha, at)
    ensures ReviewByRef(all.reviews, headSha) == if at.Some? then Some(all.reviews[at.value]) else None
  {
    var review := ReviewByRef(all.reviews, headSha);
    if review.Some? {
      var i :| 0 <= i < |all.reviews| && all.reviews[i].ref == headSha && review.value == all.reviews[i]
               && forall j :: i < j < |all.reviews| ==> all.reviews[j].ref != headSha;
      at := Some(i);
    } else {
      at := None;
    }
  }

  lemma FollowUpProofIsLast(all: Rows, headSha: string) returns (at: Option<nat>)
    ensures LastProofOfCommit(all, headSha, at)
    ensures ProofByHead(all.proofs, headSha) == if at.Some? then Some(all.proofs[at.value]) else None
  {
    var proof := ProofByHead(all.proofs, headSha);
    if proof.Some? {
      var i :| 0 <= i < |all.proofs| && all.proofs[i].headSha == headSha && proof.value == all.proofs[i]
               && forall j :: i < j < |all.proofs| ==> all.proofs[j].headSha != headSha;
      at := Some(i);
    } else {
      at := None;
    }
  }

  lemma RemediationOfRow(all: Rows, origin: Origin, source: NodeId, refs: MutationRefs, found: ReviewRow)
    requires Finding(all, refs) == Some(FindingNode(found.reviewId, refs.findingHash))
    requires refs.headSha != "" && Triggered(all, refs).Some?
    ensures Remediation(all, origin, source, refs)
         == RemediationOf(origin, source, refs, found, Triggered(all, refs).value,
                          ReviewByRef(all.reviews, refs.headSha), ProofByHead(all.proofs, refs.headSha))
  {
    hide Finding, Triggered, ReviewByRef, ProofByHead;
  }

  lemma NoRemediation(all: Rows, origin: Origin, source: NodeId, refs: MutationRefs)
    requires Finding(all, refs).None? || refs.headSha == "" || Triggered(all, refs).None?
    ensures Remediation(all, origin, source, refs) == []
  {
    hide Finding, Triggered;
  }

  lemma RemediationByPosition(all: Rows, origin: Origin, source: NodeId, refs: MutationRefs)
    ensures RemediationNames(all, origin, source, refs, Remediation(all, origin, source, refs))
  {
    hide *;
    var f := FindingIsLast(all, refs);
    var d := TriggeredIsLast(all, refs);
    var r := FollowUpReviewIsLast(all, refs.headSha);
    var p := FollowUpProofIsLast(all, refs.headSha);
    if f.None? || refs.headSha == "" || d.None? {
      NoRemediation(all, origin, source, refs);
    } else {
      RemediationInRange(all, refs, f, d);
      RemediationOfRow(all, origin, source, refs, all.reviews[f.value]);
    }
    RemediationIsAt(all, origin, source, refs, Remediation(all, origin, source, refs), f, d, r, p);
  }

  lemma RemediationIsAt(all: Rows, origin: Origin, source: NodeId, refs: MutationRefs, chains: seq<Chain>,
                        f: Option<nat>, d: Option<nat>, r: Option<nat>, p: Option<nat>)
    requires LastReviewWithFinding(all, refs.findingHash, f) && LedTo(all, refs, d)
    requires LastReviewOfCommit(all, refs.headSha, r) && LastProofOfCommit(all, refs.headSha, p)
    requires f.None? || refs.headSha == "" || d.None? ==> chains == []
    requires f.Some? && refs.headSha != "" && d.Some? ==>
               chains == RemediationOf(origin, source, refs, all.reviews[f.value], all.deployments[d.value].deployId,
                                       if r.Some? then Some(all.reviews[r.value]) else None,
                                       if p.Some? then Some(all.proofs[p.value]) else None)
    ensures RemediationNames(all, origin, source, refs, chains)
  {
    hide RemediationOf, LastReviewWithFinding, LedTo, LastReviewOfCommit, LastProofOfCommit;
    assert RemediationAt(all, origin, source, refs, chains, f, d, r, p);
  }

  lemma RemediationInRange(all: Rows, refs: MutationRefs, f: Option<nat>, d: Option<nat>)
    requires LastReviewWithFinding(all, refs.findingHash, f) && LedTo(all, refs, d)
    ensures f.Some? ==> f.value < |all.reviews|
    ensures d.Some? ==> d.value < |all.deployments|
  {}
}
