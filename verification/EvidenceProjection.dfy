/**
 * The projection itself (`build_evidence_dag`, `_project_authority_execution_rows`, `_project_mutation_refs`), loop by
 * loop.
 */
module EvidenceProjection {
  import opened Common
  import opened EvidenceRows
  import opened EvidenceIds

  predicate NoRepeats<T(==)>(xs: seq<T>)
  {
    forall i, j :: 0 <= i < j < |xs| ==> xs[i] != xs[j]
  }

  lemma NoRepeatsSnoc<T>(xs: seq<T>, x: T)
    requires NoRepeats(xs) && x !in xs
    ensures NoRepeats(xs + [x])
  {}

  /**
   * Items that are appended without a look at what is there already, by the phase that appends them; 0 for all others.
   * That the graph holds them once has to come from the keys of the rows.
   */
  function Rank(item: Item): nat
  {
    match item
    case Node(id) =>
      (match id
       case DeploymentNode(_) => 1
       case DeploymentEventNode(_) => 1
       case ReviewNode(_) => 2
       case ProofNode(_) => 3
       case SubagentRunNode(_) => 5
       case SubagentEventNode(_) => 5
       case ReceiptNode(_) => 8
       case SessionNode(_) => 9
       case DagRunNode(_) => 10
       case DagNodeNode(_, _) => 11
       case TrialNode(_) => 13
       case WorkJobNode(_) => 14
       case WorkEventNode(_) => 14
       case LlmUsageNode(_) => 15
       case _ => 0)
    case Link(edge) =>
      (match edge.kind
       case AgentHasDeployment => 1
       case DeploymentDeploysVersion => 1
       case DeploymentHasEvent => 1
       case DeploymentReviewedBy => 2
       case AgentHasProof => 3
       case ProofTestsVersion => 3
       case _ => 0)
  }

  /** Nothing of a later phase is there yet. */
  ghost predicate Below(content: set<Item>, phase: nat)
  {
    forall x <- content :: Rank(x) < phase || Rank(x) == 0
  }

  /** None of the items that will be appended blindly is there yet. */
  ghost predicate New(content: set<Item>, items: set<Item>)
  {
    forall x <- items :: Rank(x) > 0 ==> x !in content
  }

  ghost predicate RankedAt<R(!new)>(rows: seq<R>, emits: R -> set<Item>, phase: nat)
  {
    forall row <- rows :: forall x <- emits(row) :: Rank(x) == 0 || Rank(x) == phase
  }

  /** No two rows call for the same blind append. */
  ghost predicate Apart<R(!new)>(rows: seq<R>, emits: R -> set<Item>)
  {
    forall i, j :: 0 <= i < j < |rows| ==> New(emits(rows[i]), emits(rows[j]))
  }

  lemma StepIsNew<R(!new)>(before: set<Item>, rows: seq<R>, i: nat, emits: R -> set<Item>, phase: nat)
    requires Below(before, phase) && RankedAt(rows, emits, phase) && Apart(rows, emits) && i < |rows|
    ensures New(before + Gather(rows[..i], emits), emits(rows[i]))
  {
    hide Rank;
    forall x <- emits(rows[i]) | Rank(x) > 0 ensures x !in before + Gather(rows[..i], emits) {
      assert rows[i] in rows;
      forall row <- rows[..i] ensures x !in emits(row) {
        var j :| 0 <= j < i && rows[j] == row;
        assert New(emits(rows[j]), emits(rows[i]));
      }
    }
  }

  lemma StillBelow<R(!new)>(before: set<Item>, rows: seq<R>, emits: R -> set<Item>, phase: nat)
    requires Below(before, phase) && RankedAt(rows, emits, phase)
    ensures Below(before + Gather(rows, emits), phase + 1)
  {
    hide Rank;
  }

  function MaybeLink(e: Option<Edge>): set<Item>
  {
    if e.Some? then {Link(e.value)} else {}
  }

  // What the lists of a graph have to do with what was called for. Ids are compared as text.

  /** `any(existing.id == text for existing in ...)` */
  predicate Drawn(edges: seq<Edge>, text: string)
  {
    exists e <- edges :: EdgeText(e) == text
  }

  predicate Named(nodes: seq<NodeId>, text: string)
  {
    exists id <- nodes :: NodeText(id) == text
  }

  /** No id twice, but for DAG nodes, whose ids join two fields. */
  ghost predicate NodesApart(nodes: seq<NodeId>)
  {
    forall i, j :: 0 <= i < j < |nodes| && NodeText(nodes[i]) == NodeText(nodes[j]) ==> nodes[j].DagNodeNode?
  }

  /** No id twice, but for edges appended without a look. */
  ghost predicate EdgesApart(edges: seq<Edge>)
  {
    forall i, j :: 0 <= i < j < |edges| && EdgeText(edges[i]) == EdgeText(edges[j]) ==> Rank(Link(edges[j])) > 0
  }

  /** Every node is one that was called for; every one called for is there, findings under their id. */
  ghost predicate NodesFit(nodes: seq<NodeId>, seen: set<string>, made: set<Item>)
  {
    && NoRepeats(nodes) && NodesApart(nodes)
    && (forall id <- nodes :: Node(id) in made)
    && (forall id :: Node(id) in made ==> if id.FindingNode? then Named(nodes, NodeText(id)) else id in nodes)
    && (forall text <- seen :: Named(nodes, text))
    && (forall id <- nodes :: Rank(Node(id)) == 0 ==> NodeText(id) in seen)
  }

  /** The same for edges, where only those appended without a look are surely there themselves. */
  ghost predicate EdgesFit(edges: seq<Edge>, made: set<Item>)
  {
    && NoRepeats(edges) && EdgesApart(edges)
    && (forall e <- edges :: Link(e) in made)
    && (forall e :: Link(e) in made ==> if Rank(Link(e)) > 0 then e in edges else Drawn(edges, EdgeText(e)))
  }

  lemma NodeAdded(nodes: seq<NodeId>, seen: set<string>, made: set<Item>, id: NodeId, mark: bool)
    requires NodesFit(nodes, seen, made) && id !in nodes && (id.FindingNode? ==> !Named(nodes, NodeText(id)))
    requires Rank(Node(id)) == 0 ==> mark
    ensures NodesFit(nodes + [id], if mark then seen + {NodeText(id)} else seen, made + {Node(id)})
  {
    hide Rank, NodeText;
    NoRepeatsSnoc(nodes, id);
    var after := nodes + [id];
    assert after[|nodes|] == id && forall i :: 0 <= i < |nodes| ==> after[i] == nodes[i];
    forall i | 0 <= i < |nodes| && NodeText(nodes[i]) == NodeText(id) ensures id.DagNodeNode? {
      NodeTextDetermines(nodes[i], id);
      assert nodes[i] in nodes;
    }
    assert forall text :: Named(nodes, text) || text == NodeText(id) ==> Named(after, text);
  }

  /** A marked node is there already. */
  lemma NodeThere(nodes: seq<NodeId>, seen: set<string>, made: set<Item>, id: NodeId)
    requires NodesFit(nodes, seen, made) && Rank(Node(id)) == 0 && NodeText(id) in seen
    ensures NodesFit(nodes, seen, made + {Node(id)})
  {
    var n :| n in nodes && NodeText(n) == NodeText(id);
    NodeTextDetermines(n, id);
    hide NodeText;
  }

  lemma NodeUnmarked(nodes: seq<NodeId>, seen: set<string>, made: set<Item>, id: NodeId)
    requires NodesFit(nodes, seen, made) && Rank(Node(id)) == 0 && NodeText(id) !in seen
    ensures id !in nodes && !Named(nodes, NodeText(id))
  {
    if Named(nodes, NodeText(id)) {
      var n :| n in nodes && NodeText(n) == NodeText(id);
      NodeTextDetermines(n, id);
      hide NodeText;
    }
  }

  lemma EdgeAdded(edges: seq<Edge>, made: set<Item>, e: Edge)
    requires EdgesFit(edges, made) && e !in edges && (Rank(Link(e)) == 0 ==> !Drawn(edges, EdgeText(e)))
    ensures EdgesFit(edges + [e], made + {Link(e)})
  {
    hide Rank, EdgeText;
    NoRepeatsSnoc(edges, e);
    var after := edges + [e];
    assert after[|edges|] == e && forall i :: 0 <= i < |edges| ==> after[i] == edges[i];
    assert forall text :: Drawn(edges, text) || text == EdgeText(e) ==> Drawn(after, text);
  }

  lemma EdgeThere(edges: seq<Edge>, made: set<Item>, e: Edge)
    requires EdgesFit(edges, made) && Drawn(edges, EdgeText(e)) && Rank(Link(e)) == 0
    ensures EdgesFit(edges, made + {Link(e)})
  {
    hide Rank, EdgeText;
  }

  lemma LinksKeepNodes(nodes: seq<NodeId>, seen: set<string>, made: set<Item>, e: Edge)
    ensures NodesFit(nodes, seen, made) ==> NodesFit(nodes, seen, made + {Link(e)})
  {
    hide Rank, NodeText, Named, NoRepeats, NodesApart;
  }

  lemma NodesKeepLinks(edges: seq<Edge>, made: set<Item>, id: NodeId)
    ensures EdgesFit(edges, made) ==> EdgesFit(edges, made + {Node(id)})
  {
    hide Rank, EdgeText, Drawn, NoRepeats, EdgesApart;
  }

  /** The lists of nodes, edges and chains as they grow, with the ids marked in `seen_nodes`. */
  class EvidenceGraph {
    var nodes: seq<NodeId>
    var edges: seq<Edge>
    var chains: seq<Chain>
    var seen: set<string>
    ghost var made: set<Item>

    /** Everything called for so far. */
    ghost function Content(): set<Item>
      reads this`made
    {
      made
    }

    ghost predicate Valid()
      reads this`nodes, this`edges, this`seen, this`made
    {
      NodesFit(nodes, seen, made) && EdgesFit(edges, made)
    }

    constructor (root: NodeId)
      requires Rank(Node(root)) == 0 && !root.FindingNode?
      ensures Valid() && Content() == {Node(root)} && nodes == [root] && edges == [] && chains == []
    {
      nodes, edges, chains, seen, made := [root], [], [], {NodeText(root)}, {Node(root)};
    }

    /** `nodes.append(...)` */
    method AddNode(id: NodeId)
      requires Valid() && Node(id) !in Content() && Rank(Node(id)) > 0
      modifies this`nodes, this`made
      ensures Valid() && Content() == old(Content()) + {Node(id)} && nodes == old(nodes) + [id]
    {
      assert !id.FindingNode?;
      hide Rank, NodesApart, EdgesApart, NoRepeats, NodeText, EdgeText;
      NodeAdded(nodes, seen, made, id, false);
      NodesKeepLinks(edges, made, id);
      nodes, made := nodes + [id], made + {Node(id)};
    }

    /** `nodes.append(...)` and `seen_nodes.add(...)`; findings are only ever added behind the check below. */
    method AddSeenNode(id: NodeId)
      requires Valid() && Node(id) !in Content() && !id.FindingNode?
      modifies this`nodes, this`seen, this`made
      ensures Valid() && Content() == old(Content()) + {Node(id)} && nodes == old(nodes) + [id]
    {
      hide Rank, NodesApart, EdgesApart, NoRepeats, NodeText, EdgeText;
      NodeAdded(nodes, seen, made, id, true);
      NodesKeepLinks(edges, made, id);
      nodes, seen, made := nodes + [id], seen + {NodeText(id)}, made + {Node(id)};
    }

    /** The same behind `if node_id not in seen_nodes`; `_add_version_node` is this for a version. */
    method AddUnseenNode(id: NodeId)
      requires Valid() && Rank(Node(id)) == 0
      modifies this`nodes, this`seen, this`made
      ensures Valid() && Content() == old(Content()) + {Node(id)}
      ensures nodes == if Named(old(nodes), NodeText(id)) then old(nodes) else old(nodes) + [id]
    {
      hide Rank, NodesApart, EdgesApart, NoRepeats, NodeText, EdgeText;
      NodesKeepLinks(edges, made, id);
      if NodeText(id) !in seen {
        NodeUnmarked(nodes, seen, made, id);
        NodeAdded(nodes, seen, made, id, true);
        nodes, seen := nodes + [id], seen + {NodeText(id)};
      } else {
        NodeThere(nodes, seen, made, id);
      }
      made := made + {Node(id)};
    }

    /** `edges.append(...)` */
    method PushEdge(e: Edge)
      requires Valid() && Link(e) !in Content() && Rank(Link(e)) > 0
      modifies this`edges, this`made
      ensures Valid() && Content() == old(Content()) + {Link(e)} && edges == old(edges) + [e]
    {
      hide Rank, NodesApart, EdgesApart, NoRepeats, NodeText, EdgeText;
      EdgeAdded(edges, made, e);
      LinksKeepNodes(nodes, seen, made, e);
      edges, made := edges + [e], made + {Link(e)};
    }

    /** A marked node and an edge behind its check, as most rows begin. */
    method AddSeenNodeWithEdge(id: NodeId, e: Edge)
      requires Valid() && Node(id) !in Content() && !id.FindingNode? && Rank(Link(e)) == 0
      modifies this`nodes, this`seen, this`edges, this`made
      ensures Valid() && Content() == old(Content()) + ({Node(id)} + {Link(e)})
    {
      hide *;
      ghost var before := Content();
      AddSeenNode(id);
      AppendEdge(e);
      assert before + {Node(id)} + {Link(e)} == before + ({Node(id)} + {Link(e)});
    }

    /** `_append_edge` behind a condition. */
    method AppendMaybe(e: Option<Edge>)
      requires Valid() && (e.Some? ==> Rank(Link(e.value)) == 0)
      modifies this`edges, this`made
      ensures Valid() && Content() == old(Content()) + MaybeLink(e)
    {
      hide EvidenceGraph.Content, EvidenceGraph.Valid;
      if e.Some? {
        AppendEdge(e.value);
      } else {
        assert Content() + {} == Content();
      }
    }

    /** `_append_edge`. No kind of edge is appended both with and without this look. */
    method AppendEdge(e: Edge)
      requires Valid() && Rank(Link(e)) == 0
      modifies this`edges, this`made
      ensures Valid() && Content() == old(Content()) + {Link(e)}
      ensures edges == if Drawn(old(edges), EdgeText(e)) then old(edges) else old(edges) + [e]
    {
      hide Rank, NodesApart, EdgesApart, NoRepeats, NodeText, EdgeText;
      LinksKeepNodes(nodes, seen, made, e);
      if !Drawn(edges, EdgeText(e)) {
        EdgeAdded(edges, made, e);
        edges := edges + [e];
      } else {
        EdgeThere(edges, made, e);
      }
      made := made + {Link(e)};
    }
  }
}
