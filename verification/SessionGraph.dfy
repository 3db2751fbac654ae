/** The session graph as it is kept: fields updated in place, each method proved against the function of its name. */
module SessionGraphs {
  import opened Wrappers
  import Ordered
  import Text
  import opened GraphTypes
  import GraphIndex
  import GraphReads

  lemma {:induction false} RemoveFirstAt(ids: seq<NodeId>, id: NodeId, position: nat)
    requires position <= |ids| && forall i | 0 <= i < position :: ids[i] != id
    requires position < |ids| ==> ids[position] == id
    ensures GraphIndex.RemoveFirst(ids, id) == if position < |ids| then ids[..position] + ids[position + 1..] else ids
  {
    if position > 0 {
      RemoveFirstAt(ids[1..], id, position - 1);
      assert [ids[0]] + ids[1..] == ids && [ids[0]] + ids[1..][..position - 1] == ids[..position];
      assert position < |ids| ==> ids[1..][position..] == ids[position + 1..];
    }
  }

  /** Takes the first occurrence of `id` out, if there is one. */
  method RemoveVecEntry(ids: seq<NodeId>, id: NodeId) returns (r: seq<NodeId>)
    ensures r == GraphIndex.RemoveFirst(ids, id)
  {
    var position := 0;
    while position < |ids| && ids[position] != id
      invariant position <= |ids| && forall i | 0 <= i < position :: ids[i] != id
    {
      position := position + 1;
    }
    RemoveFirstAt(ids, id, position);
    r := if position < |ids| then ids[..position] + ids[position + 1..] else ids;
  }

  method RemoveIndexEntry<K(==)>(index: map<K, seq<NodeId>>, key: K, id: NodeId) returns (r: map<K, seq<NodeId>>)
    ensures r == GraphIndex.RemoveEntry(index, key, id)
  {
    r := index;
    if key in r {
      var ids := RemoveVecEntry(r[key], id);
      r := r[key := ids];
      if ids == [] {
        r := r - {key};
        assert r == index - {key};
      }
    }
  }

  method PushIndexEntry<K(==), V>(index: map<K, seq<V>>, key: K, value: V) returns (r: map<K, seq<V>>)
    ensures r == GraphIndex.PushEntry(index, key, value)
  {
    r := index;
    if key !in r {
      r := r[key := []];
    }
    r := r[key := r[key] + [value]];
  }

  method PushPosition(index: map<NodeId, seq<nat>>, id: NodeId, position: nat) returns (r: map<NodeId, seq<nat>>)
    ensures r == GraphIndex.PushEntry(index, id, position)
  {
    r := PushIndexEntry(index, id, position);
  }

  /** One node after the other. */
  method SaveListed(nodes: Nodes, ids: seq<NodeId>) returns (saved: seq<NodeSnapshot>)
    requires forall i | 0 <= i < |ids| :: ids[i] in nodes
    ensures |saved| == |ids| && forall i | 0 <= i < |ids| :: saved[i] == SaveNode(nodes[ids[i]])
  {
    saved := [];
    for i := 0 to |ids|
      invariant |saved| == i && forall j | 0 <= j < i :: saved[j] == SaveNode(nodes[ids[j]])
    {
      saved := saved + [SaveNode(nodes[ids[i]])];
    }
  }

  class SessionGraph {
    var nodes: Nodes
    var edges: seq<Edge>
    var outgoing: map<NodeId, seq<nat>>
    var incoming: map<NodeId, seq<nat>>
    var commands: map<SequenceNo, seq<NodeId>>
    var derived: map<SequenceNo, seq<NodeId>>
    var nested: map<SequenceNo, seq<NodeId>>
    var semantics: map<SequenceNo, seq<NodeId>>
    var pathFacts: seq<NodeId>
    var pathFactsAt: map<string, seq<NodeId>>
    var contents: seq<NodeId>
    var contentsAt: map<string, seq<NodeId>>

    function Value(): GraphIndex.Graph
      reads this
    {
      GraphIndex.Graph(nodes, edges, outgoing, incoming, commands, derived, nested, semantics, pathFacts, pathFactsAt,
                       contents, contentsAt)
    }

    /** Every index answers as a scan would. */
    ghost predicate Valid()
      reads this
    {
      GraphIndex.WellIndexed(Value())
    }

    constructor ()
      ensures Valid() && Value() == GraphIndex.EMPTY
    {
      nodes, edges, outgoing, incoming := map[], [], map[], map[];
      commands, derived, nested, semantics := map[], map[], map[], map[];
      pathFacts, pathFactsAt, contents, contentsAt := [], map[], [], map[];
      new;
      GraphIndex.EmptyIsWellIndexed();
    }

    /** The first defining unit in edge order, by walking the node's incoming edges. */
    method ExecutionSemanticsSequenceNo(id: NodeId) returns (r: Option<SequenceNo>)
      requires GraphIndex.PositionsInRange(Value())
      ensures r == GraphIndex.SemanticsSequenceNo(Value(), nodes, id)
    {
      var positions := GraphIndex.Bucket(incoming, id);
      for i := 0 to |positions|
        invariant GraphIndex.FirstDefiningSequenceNo(nodes, edges, positions[i..])
               == GraphIndex.FirstDefiningSequenceNo(nodes, edges, positions)
      {
        var edge := edges[positions[i]];
        assert positions[i..][1..] == positions[i + 1..];
        if edge.kind == Defines {
          var sequenceNo := GraphIndex.UnitSequenceNo(nodes, edge.source);
          if sequenceNo.Some? {
            return sequenceNo;
          }
        }
      }
      r := None;
    }

    /** Looks at the kind of the replaced node; the new node is already in `nodes`. */
    method RemoveNodeIndexes(node: GraphNode)
      requires GraphIndex.PositionsInRange(Value())
      modifies `commands, `derived, `nested, `semantics, `pathFacts, `pathFactsAt, `contents, `contentsAt
      ensures commands == GraphIndex.RemoveUnder(old(commands), GraphIndex.CommandKey(node.kind), node.id)
      ensures derived == GraphIndex.RemoveUnder(old(derived), GraphIndex.DerivedKey(node.kind), node.id)
      ensures nested == GraphIndex.RemoveUnder(old(nested), GraphIndex.NestedKey(node.kind), node.id)
      ensures pathFactsAt == GraphIndex.RemoveUnder(old(pathFactsAt), GraphIndex.PathFactKey(node.kind), node.id)
      ensures contentsAt == GraphIndex.RemoveUnder(old(contentsAt), GraphIndex.ContentKey(node.kind), node.id)
      ensures pathFacts == GraphIndex.RemoveIf(old(pathFacts), GraphIndex.IsPathFact(node.kind), node.id)
      ensures contents == GraphIndex.RemoveIf(old(contents), GraphIndex.IsPathContent(node.kind), node.id)
      ensures semantics == GraphIndex.RemoveUnder(old(semantics), GraphIndex.SemanticsKey(old(Value()), nodes, node), node.id)
    {
      if node.kind.CommandInvocation? {
        commands := RemoveIndexEntry(commands, node.kind.sequenceNo, node.id);
      } else if node.kind.DerivedInvocation? {
        derived := RemoveIndexEntry(derived, node.kind.rootSequenceNo, node.id);
      } else if node.kind.NestedPayload? {
        nested := RemoveIndexEntry(nested, node.kind.rootSequenceNo, node.id);
      } else if node.kind.ExecutionSemantics? {
        var sequenceNo := ExecutionSemanticsSequenceNo(node.id);
        if sequenceNo.Some? {
          semantics := RemoveIndexEntry(semantics, sequenceNo.value, node.id);
        }
      } else {
        RemovePathIndexes(node);
      }
    }

    /** The kinds that are filed under a path. */
    method RemovePathIndexes(node: GraphNode)
      modifies `pathFacts, `pathFactsAt, `contents, `contentsAt
      ensures pathFactsAt == GraphIndex.RemoveUnder(old(pathFactsAt), GraphIndex.PathFactKey(node.kind), node.id)
      ensures contentsAt == GraphIndex.RemoveUnder(old(contentsAt), GraphIndex.ContentKey(node.kind), node.id)
      ensures pathFacts == GraphIndex.RemoveIf(old(pathFacts), GraphIndex.IsPathFact(node.kind), node.id)
      ensures contents == GraphIndex.RemoveIf(old(contents), GraphIndex.IsPathContent(node.kind), node.id)
    {
      if node.kind.PathFact? {
        pathFacts := RemoveVecEntry(pathFacts, node.id);
        var path := node.kind.pathResolution.ConcretePath();
        if path.Some? {
          pathFactsAt := RemoveIndexEntry(pathFactsAt, path.value, node.id);
        }
      } else if node.kind.ProvenanceArtifact? && node.kind.artifact.PathContent? {
        contents := RemoveVecEntry(contents, node.id);
        contentsAt := RemoveIndexEntry(contentsAt, node.kind.artifact.path, node.id);
      }
    }

    method IndexNode(node: GraphNode)
      requires GraphIndex.PositionsInRange(Value())
      modifies `commands, `derived, `nested, `semantics, `pathFacts, `pathFactsAt, `contents, `contentsAt
      ensures commands == GraphIndex.PushUnder(old(commands), GraphIndex.CommandKey(node.kind), node.id)
      ensures derived == GraphIndex.PushUnder(old(derived), GraphIndex.DerivedKey(node.kind), node.id)
      ensures nested == GraphIndex.PushUnder(old(nested), GraphIndex.NestedKey(node.kind), node.id)
      ensures pathFactsAt == GraphIndex.PushUnder(old(pathFactsAt), GraphIndex.PathFactKey(node.kind), node.id)
      ensures contentsAt == GraphIndex.PushUnder(old(contentsAt), GraphIndex.ContentKey(node.kind), node.id)
      ensures pathFacts == GraphIndex.PushIf(old(pathFacts), GraphIndex.IsPathFact(node.kind), node.id)
      ensures contents == GraphIndex.PushIf(old(contents), GraphIndex.IsPathContent(node.kind), node.id)
      ensures semantics == GraphIndex.PushUnder(old(semantics), GraphIndex.SemanticsKey(old(Value()), nodes, node), node.id)
    {
      if node.kind.CommandInvocation? {
        commands := PushIndexEntry(commands, node.kind.sequenceNo, node.id);
      } else if node.kind.DerivedInvocation? {
        derived := PushIndexEntry(derived, node.kind.rootSequenceNo, node.id);
      } else if node.kind.NestedPayload? {
        nested := PushIndexEntry(nested, node.kind.rootSequenceNo, node.id);
      } else if node.kind.ExecutionSemantics? {
        var sequenceNo := ExecutionSemanticsSequenceNo(node.id);
        if sequenceNo.Some? {
          semantics := PushIndexEntry(semantics, sequenceNo.value, node.id);
        }
      } else {
        IndexPathNode(node);
      }
    }

    /** The kinds that are filed under a path. */
    method IndexPathNode(node: GraphNode)
      modifies `pathFacts, `pathFactsAt, `contents, `contentsAt
      ensures pathFactsAt == GraphIndex.PushUnder(old(pathFactsAt), GraphIndex.PathFactKey(node.kind), node.id)
      ensures contentsAt == GraphIndex.PushUnder(old(contentsAt), GraphIndex.ContentKey(node.kind), node.id)
      ensures pathFacts == GraphIndex.PushIf(old(pathFacts), GraphIndex.IsPathFact(node.kind), node.id)
      ensures contents == GraphIndex.PushIf(old(contents), GraphIndex.IsPathContent(node.kind), node.id)
    {
      if node.kind.PathFact? {
        pathFacts := pathFacts + [node.id];
        var path := node.kind.pathResolution.ConcretePath();
        if path.Some? {
          pathFactsAt := PushIndexEntry(pathFactsAt, path.value, node.id);
        }
      } else if node.kind.ProvenanceArtifact? && node.kind.artifact.PathContent? {
        contents := contents + [node.id];
        contentsAt := PushIndexEntry(contentsAt, node.kind.artifact.path, node.id);
      }
    }

    /** Inserts or replaces, and says what was replaced. */
    method AddNode(node: GraphNode) returns (replaced: Option<GraphNode>)
      requires GraphIndex.PositionsInRange(Value()) && (node.id in nodes ==> nodes[node.id].id == node.id)
      modifies `nodes, `commands, `derived, `nested, `semantics, `pathFacts, `pathFactsAt, `contents, `contentsAt
      ensures Value() == GraphIndex.AddNode(old(Value()), node)
      ensures replaced == if node.id in old(nodes) then Some(old(nodes[node.id])) else None
    {
      ghost var before := Value();
      replaced := if node.id in nodes then Some(nodes[node.id]) else None;
      nodes := nodes[node.id := node];
      if replaced.Some? {
        assert replaced.value.id == node.id;
        RemoveNodeIndexes(replaced.value);
      }
      IndexNode(node);
      assert Value() == GraphIndex.AddNode(before, node);
    }

    method IndexEdge(edge: Edge)
      modifies `semantics
      ensures semantics == GraphIndex.IndexedEdge(old(semantics), nodes, edge)
    {
      if edge.kind != Defines {
        return;
      }
      if edge.target !in nodes {
        return;
      }
      if !nodes[edge.target].kind.ExecutionSemantics? {
        return;
      }
      var sequenceNo := GraphIndex.UnitSequenceNo(nodes, edge.source);
      if sequenceNo.None? {
        return;
      }
      var ids := GraphIndex.Bucket(semantics, sequenceNo.value);
      if edge.target !in ids {
        ids := ids + [edge.target];
      }
      semantics := semantics[sequenceNo.value := ids];
    }

    method AddEdge(edge: Edge) returns (r: Result<(), GraphIndex.GraphError>)
      modifies `edges, `outgoing, `incoming, `semantics
      ensures r.Success? ==> GraphIndex.AddEdge(old(Value()), edge) == Success(Value())
      ensures r.Failure? ==> GraphIndex.AddEdge(old(Value()), edge) == Failure(r.error) && Value() == old(Value())
    {
      if edge.source !in nodes {
        return Failure(GraphIndex.MissingSourceNode(edge.source));
      }
      if edge.target !in nodes {
        return Failure(GraphIndex.MissingTargetNode(edge.target));
      }
      AppendEdge(edge);
      r := Success(());
    }

    /** The edge goes last, and its position into the indexes of both its ends. */
    method AppendEdge(edge: Edge)
      modifies `edges, `outgoing, `incoming, `semantics
      ensures edges == old(edges) + [edge]
      ensures outgoing == GraphIndex.PushEntry(old(outgoing), edge.source, |old(edges)|)
      ensures incoming == GraphIndex.PushEntry(old(incoming), edge.target, |old(edges)|)
      ensures semantics == GraphIndex.IndexedEdge(old(semantics), nodes, edge)
    {
      var position: nat := |edges|;
      var more := PushPosition(outgoing, edge.source, position);
      outgoing := more;
      more := PushPosition(incoming, edge.target, position);
      incoming, edges := more, edges + [edge];
      IndexEdge(edge);
    }

    /** All nodes in id order, then the edges as they are. */
    method ToSnapshot() returns (r: GraphSnapshot)
      ensures r == GraphReads.ToSnapshot(Value())
    {
      var savedNodes := SaveNodes();
      var savedEdges := SaveEdges();
      r := GraphSnapshot(savedNodes, savedEdges);
    }

    /** One by one, in id order. */
    method SaveNodes() returns (saved: seq<NodeSnapshot>)
      ensures saved == GraphReads.ToSnapshot(Value()).nodes
    {
      Ordered.StringOrder();
      var ids := Ordered.Ascending(nodes.Keys, Text.StrLess);
      assert forall i | 0 <= i < |ids| :: ids[i] in ids;
      saved := SaveListed(nodes, ids);
      assert saved == GraphReads.ToSnapshot(Value()).nodes;
    }

    method SaveEdges() returns (saved: seq<EdgeSnapshot>)
      ensures saved == GraphReads.SaveEdges(edges)
    {
      saved := [];
      for i := 0 to |edges|
        invariant saved == GraphReads.SaveEdges(edges)[..i]
      {
        saved := saved + [SaveEdge(edges[i])];
      }
    }

    /** The listed nodes that the graph has, in list order. */
    method IndexedNodes(ids: seq<NodeId>) returns (r: seq<GraphNode>)
      ensures r == GraphReads.Held(nodes, ids)
    {
      r := [];
      for i := 0 to |ids|
        invariant r + GraphReads.Held(nodes, ids[i..]) == GraphReads.Held(nodes, ids)
      {
        assert ids[i..][1..] == ids[i + 1..];
        if ids[i] in nodes {
          r := r + [nodes[ids[i]]];
        }
      }
    }

    /** The nodes of one of the sequence indexes between excluded bounds; `None` is the panic on crossed bounds. */
    method NodesInWindowFromIndex(index: map<SequenceNo, seq<NodeId>>, after: Option<SequenceNo>,
                                  before: Option<SequenceNo>)
      returns (r: Option<seq<GraphNode>>)
      ensures r == GraphReads.NodesInWindow(Value(), index, after, before)
    {
      if after.Some? && before.Some? && after.value >= before.value {
        return None;
      }
      var found := ReadBuckets(index, GraphReads.WindowKeys(index, after, before));
      r := Some(found);
    }

    /** The nodes of the given buckets, one bucket after the other. */
    method ReadBuckets(index: map<SequenceNo, seq<NodeId>>, keys: seq<SequenceNo>) returns (found: seq<GraphNode>)
      requires forall i | 0 <= i < |keys| :: keys[i] in index
      ensures found == GraphReads.IndexedNodes(nodes, GraphReads.Entries(index, keys))
    {
      found := [];
      for i := 0 to |keys|
        invariant found == GraphReads.IndexedNodes(nodes, GraphReads.Entries(index, keys[..i]))
      {
        var bucket := IndexedNodes(index[keys[i]]);
        found := found + bucket;
        GraphReads.OneMoreKey(nodes, index, keys, i);
      }
      assert keys[..|keys|] == keys;
    }

    /** Between two sequence numbers: exactly the command nodes there, once each and in order. */
    method CommandNodesInWindow(after: Option<SequenceNo>, before: Option<SequenceNo>) returns (r: seq<GraphNode>)
      requires Valid() && (after.Some? && before.Some? ==> after.value < before.value)
      ensures GraphIndex.NoDuplicates(r) && GraphReads.InOrder(r, GraphIndex.CommandKey)
      ensures forall n: GraphNode :: n in r <==>
                n in nodes.Values && n.kind.CommandInvocation? && GraphReads.InWindow(n.kind.sequenceNo, after, before)
    {
      var found := NodesInWindowFromIndex(commands, after, before);
      GraphReads.NodeWindowIsScan(Value(), commands, GraphIndex.CommandKey, after, before);
      r := found.value;
    }
  }

  method LoadNodes(graph: SessionGraph, saved: seq<NodeSnapshot>)
    requires graph.Value() == GraphIndex.EMPTY
    modifies graph
    ensures graph.Value() == GraphReads.LoadNodes(saved)
  {
    for i := 0 to |saved|
      invariant graph.Value() == GraphReads.LoadNodes(saved[..i])
    {
      GraphReads.LoadOneNode(saved, i);
      var _ := graph.AddNode(LoadNode(saved[i]));
    }
    assert saved[..|saved|] == saved;
  }

  /** Adds the edge bare, then writes its semantics into the last element. */
  method LoadEdge(graph: SessionGraph, edge: EdgeSnapshot) returns (r: Result<(), GraphIndex.GraphError>)
    modifies graph
    ensures r.Success? ==> GraphReads.LoadEdge(old(graph.Value()), edge) == Success(graph.Value())
    ensures r.Failure? ==> GraphReads.LoadEdge(old(graph.Value()), edge) == Failure(r.error)
  {
    r := graph.AddEdge(Edge(edge.source, edge.target, LoadEdgeKind(edge.kind), None));
    if r.Success? {
      var last := |graph.edges| - 1;
      graph.edges := graph.edges[last := graph.edges[last].(semantics := edge.semantics)];
    }
  }

  /** Nodes first, then edges, stopping at the first edge that is refused. */
  method FromSnapshot(snapshot: GraphSnapshot) returns (r: Result<SessionGraph, GraphIndex.GraphError>)
    ensures r.Success? ==> fresh(r.value) && GraphReads.FromSnapshot(snapshot) == Success(r.value.Value())
    ensures r.Failure? ==> GraphReads.FromSnapshot(snapshot) == Failure(r.error)
  {
    var graph := new SessionGraph();
    LoadNodes(graph, snapshot.nodes);
    ghost var loaded := graph.Value();
    for i := 0 to |snapshot.edges|
      invariant GraphReads.LoadEdges(loaded, snapshot.edges[..i]) == Success(graph.Value())
    {
      GraphReads.LoadOneEdge(loaded, snapshot.edges, i);
      var added := LoadEdge(graph, snapshot.edges[i]);
      if added.Failure? {
        return Failure(added.error);
      }
    }
    assert snapshot.edges[..|snapshot.edges|] == snapshot.edges;
    r := Success(graph);
  }
}
