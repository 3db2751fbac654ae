/** What readers of a session graph get: sequence windows, and the snapshot that is persisted. */
module GraphReads {
  import opened Wrappers
  import opened Ordered
  import Text
  import opened GraphTypes
  import opened GraphIndex
  import opened ExecutionSemanticsIndex

  predicate InWindow(k: SequenceNo, after: Option<SequenceNo>, before: Option<SequenceNo>) {
    (after.Some? ==> after.value < k) && (before.Some? ==> k < before.value)
  }

  /** Bucket by bucket, the entries of the given keys. */
  function Entries(index: map<SequenceNo, seq<NodeId>>, keys: seq<SequenceNo>): seq<(SequenceNo, NodeId)>
    requires forall i | 0 <= i < |keys| :: keys[i] in index
  {
    if keys == [] then []
    else
      var k := keys[0];
      Labelled(k, index[k]) + Entries(index, keys[1..])
  }

  function Labelled(k: SequenceNo, ids: seq<NodeId>): seq<(SequenceNo, NodeId)> {
    seq(|ids|, i requires 0 <= i < |ids| => (k, ids[i]))
  }

  lemma HeadEntries(k: SequenceNo, ids: seq<NodeId>)
    ensures forall x: SequenceNo, id :: (x, id) in Labelled(k, ids) <==> x == k && id in ids
    ensures NoDuplicates(ids) ==> NoDuplicates(Labelled(k, ids))
  {
    forall id | id in ids ensures (k, id) in Labelled(k, ids) {
      var i :| 0 <= i < |ids| && ids[i] == id;
      assert Labelled(k, ids)[i] == (k, id);
    }
  }

  /** The keys in the window, ascending. */
  function WindowKeys(index: map<SequenceNo, seq<NodeId>>, after: Option<SequenceNo>, before: Option<SequenceNo>)
    : (r: seq<SequenceNo>)
    ensures forall i | 0 <= i < |r| :: r[i] in index
    ensures forall k: SequenceNo :: k in r <==> k in index && InWindow(k, after, before)
    ensures Sorted(r, NatLess)
  {
    var r := Ascending((set k | k in index && InWindow(k, after, before)), NatLess);
    assert forall i | 0 <= i < |r| :: r[i] in r;
    r
  }

  /** The map's range between excluded bounds; equal or crossed bounds make the range panic. */
  function WindowEntries(index: map<SequenceNo, seq<NodeId>>, after: Option<SequenceNo>, before: Option<SequenceNo>)
    : Option<seq<(SequenceNo, NodeId)>>
  {
    if after.Some? && before.Some? && after.value >= before.value then None
    else Some(Entries(index, WindowKeys(index, after, before)))
  }

  /** The listed nodes that the graph has. */
  function Held(nodes: Nodes, ids: seq<NodeId>): seq<GraphNode> {
    if ids == [] then []
    else (if ids[0] in nodes then [nodes[ids[0]]] else []) + Held(nodes, ids[1..])
  }

  function Ids(entries: seq<(SequenceNo, NodeId)>): seq<NodeId> {
    seq(|entries|, i requires 0 <= i < |entries| => entries[i].1)
  }

  function IndexedNodes(nodes: Nodes, entries: seq<(SequenceNo, NodeId)>): seq<GraphNode> {
    Held(nodes, Ids(entries))
  }

  function NodesInWindow(g: Graph, index: map<SequenceNo, seq<NodeId>>,
                         after: Option<SequenceNo>, before: Option<SequenceNo>): Option<seq<GraphNode>> {
    match WindowEntries(index, after, before)
    case None => None
    case Some(entries) => Some(IndexedNodes(g.nodes, entries))
  }

  lemma {:induction false} EntriesExact(index: map<SequenceNo, seq<NodeId>>, keys: seq<SequenceNo>)
    requires Clean(index) && Sorted(keys, NatLess) && forall i | 0 <= i < |keys| :: keys[i] in index
    ensures NoDuplicates(Entries(index, keys))
    ensures forall k: SequenceNo, id :: (k, id) in Entries(index, keys) <==> k in keys && InBucket(index, k, id)
    ensures forall i, j | 0 <= i < j < |Entries(index, keys)| :: Entries(index, keys)[i].0 <= Entries(index, keys)[j].0
  {
    if keys != [] {
      var k := keys[0];
      EntriesExact(index, keys[1..]);
      var head, rest := Labelled(k, index[k]), Entries(index, keys[1..]);
      HeadEntries(k, index[k]);
      assert Entries(index, keys) == head + rest;
      forall j | 0 <= j < |rest| ensures k < rest[j].0 {
        assert (rest[j].0, rest[j].1) in rest;
        var i :| 0 <= i < |keys[1..]| && keys[1..][i] == rest[j].0;
        assert NatLess(keys[0], keys[i + 1]);
      }
      assert forall x :: x in keys <==> x == k || x in keys[1..];
    }
  }

  /** A window lists, once each and in sequence order, exactly the entries strictly between its bounds. */
  lemma WindowExact(index: map<SequenceNo, seq<NodeId>>, after: Option<SequenceNo>, before: Option<SequenceNo>)
    requires Clean(index)
    ensures match WindowEntries(index, after, before)
            case None => after.Some? && before.Some? && before.value <= after.value
            case Some(r) =>
              && NoDuplicates(r)
              && (forall k: SequenceNo, id :: (k, id) in r <==> InBucket(index, k, id) && InWindow(k, after, before))
              && (forall i, j | 0 <= i < j < |r| :: r[i].0 <= r[j].0)
  {
    if WindowEntries(index, after, before).Some? {
      EntriesExact(index, WindowKeys(index, after, before));
    }
  }

  lemma {:induction false} AllHeld(nodes: Nodes, ids: seq<NodeId>)
    requires forall i | 0 <= i < |ids| :: ids[i] in nodes
    ensures |Held(nodes, ids)| == |ids|
    ensures forall i | 0 <= i < |ids| :: Held(nodes, ids)[i] == nodes[ids[i]]
  {
    if ids != [] {
      AllHeld(nodes, ids[1..]);
    }
  }

  lemma AllIndexed(nodes: Nodes, entries: seq<(SequenceNo, NodeId)>)
    requires forall i | 0 <= i < |entries| :: entries[i].1 in nodes
    ensures |IndexedNodes(nodes, entries)| == |entries|
    ensures forall i | 0 <= i < |entries| :: IndexedNodes(nodes, entries)[i] == nodes[entries[i].1]
  {
    AllHeld(nodes, Ids(entries));
  }

  ghost predicate InOrder(r: seq<GraphNode>, key: NodeKind -> Option<SequenceNo>) {
    forall i, j | 0 <= i < j < |r| :: key(r[i].kind).Some? && key(r[j].kind).Some?
                                      && key(r[i].kind).value <= key(r[j].kind).value
  }

  /** A window over a node index answers as a scan over all nodes does, in sequence order. */
  lemma NodeWindowIsScan(g: Graph, index: map<SequenceNo, seq<NodeId>>, key: NodeKind -> Option<SequenceNo>,
                         after: Option<SequenceNo>, before: Option<SequenceNo>)
    requires Agrees(index, g.nodes, key) && NodesInWindow(g, index, after, before).Some?
    requires forall id | id in g.nodes :: g.nodes[id].id == id
    ensures var r := NodesInWindow(g, index, after, before).value;
            && NoDuplicates(r) && InOrder(r, key)
            && forall n: GraphNode :: n in r <==>
                 n.id in g.nodes && g.nodes[n.id] == n
                 && key(n.kind).Some? && InWindow(key(n.kind).value, after, before)
  {
    WindowExact(index, after, before);
    var entries := WindowEntries(index, after, before).value;
    var r := NodesInWindow(g, index, after, before).value;
    forall i | 0 <= i < |entries|
      ensures entries[i].1 in g.nodes && key(g.nodes[entries[i].1].kind) == Some(entries[i].0)
      ensures InWindow(entries[i].0, after, before)
    {
      assert (entries[i].0, entries[i].1) in entries;
      assert InBucket(index, entries[i].0, entries[i].1);
    }
    AllIndexed(g.nodes, entries);
    forall n: GraphNode | n.id in g.nodes && g.nodes[n.id] == n && key(n.kind).Some? && InWindow(key(n.kind).value, after, before)
      ensures n in r
    {
      assert InBucket(index, key(n.kind).value, n.id);
      assert (key(n.kind).value, n.id) in entries;
      var i :| 0 <= i < |entries| && entries[i] == (key(n.kind).value, n.id);
      assert r[i] == n;
    }
  }

  lemma {:induction false} EntriesConcat(index: map<SequenceNo, seq<NodeId>>, a: seq<SequenceNo>, b: seq<SequenceNo>)
    requires forall i | 0 <= i < |a| :: a[i] in index
    requires forall i | 0 <= i < |b| :: b[i] in index
    ensures Entries(index, a + b) == Entries(index, a) + Entries(index, b)
  {
    if a == [] {
      assert a + b == b;
    } else {
      assert (a + b)[1..] == a[1..] + b;
      EntriesConcat(index, a[1..], b);
    }
  }

  lemma {:induction false} HeldConcat(nodes: Nodes, a: seq<NodeId>, b: seq<NodeId>)
    ensures Held(nodes, a + b) == Held(nodes, a) + Held(nodes, b)
  {
    if a == [] {
      assert a + b == b;
    } else {
      assert (a + b)[1..] == a[1..] + b;
      HeldConcat(nodes, a[1..], b);
    }
  }

  /** Reading one key more appends the nodes of its bucket. */
  lemma OneMoreKey(nodes: Nodes, index: map<SequenceNo, seq<NodeId>>, keys: seq<SequenceNo>, i: nat)
    requires i < |keys| && forall j | 0 <= j < |keys| :: keys[j] in index
    ensures IndexedNodes(nodes, Entries(index, keys[..i + 1]))
         == IndexedNodes(nodes, Entries(index, keys[..i])) + Held(nodes, index[keys[i]])
  {
    var before, bucket := Entries(index, keys[..i]), Labelled(keys[i], index[keys[i]]);
    assert keys[..i + 1] == keys[..i] + [keys[i]];
    EntriesConcat(index, keys[..i], [keys[i]]);
    assert Entries(index, [keys[i]]) == bucket;
    assert Ids(before + bucket) == Ids(before) + index[keys[i]];
    HeldConcat(nodes, Ids(before), index[keys[i]]);
  }

  /** Keys below `m`, then keys from `m` on. */
  lemma KeysConcatenate(index: map<SequenceNo, seq<NodeId>>, after: Option<SequenceNo>, m: SequenceNo,
                        before: Option<SequenceNo>)
    requires m > 0 && (after.Some? ==> after.value < m) && (before.Some? ==> m <= before.value)
    ensures WindowKeys(index, after, before)
         == WindowKeys(index, after, Some(m)) + WindowKeys(index, Some(m - 1), before)
  {
    var low, high := WindowKeys(index, after, Some(m)), WindowKeys(index, Some(m - 1), before);
    SortedConcat(low, high, m);
    forall k: SequenceNo
      ensures k in index && InWindow(k, after, before)
          <==> k in index && (InWindow(k, after, Some(m)) || InWindow(k, Some(m - 1), before))
    {
    }
    SortedUnique(WindowKeys(index, after, before), low + high, NatLess);
  }

  lemma SortedConcat(low: seq<SequenceNo>, high: seq<SequenceNo>, m: SequenceNo)
    requires Sorted(low, NatLess) && Sorted(high, NatLess)
    requires forall k: SequenceNo | k in low :: k < m
    requires forall k: SequenceNo | k in high :: m <= k
    ensures Sorted(low + high, NatLess)
  {
    forall i, j | 0 <= i < j < |low + high| ensures NatLess((low + high)[i], (low + high)[j]) {
      assert i < |low| ==> low[i] in low;
      assert j >= |low| ==> high[j - |low|] in high;
    }
  }

  /** Reading up to `m` and then from `m` on is reading everything, in order. */
  lemma WindowsConcatenate(index: map<SequenceNo, seq<NodeId>>, after: Option<SequenceNo>, m: SequenceNo,
                           before: Option<SequenceNo>)
    requires m > 0 && (after.Some? ==> after.value < m) && (before.Some? ==> m <= before.value)
    ensures WindowEntries(index, after, Some(m)).Some? && WindowEntries(index, Some(m - 1), before).Some?
    ensures WindowEntries(index, after, before) ==
            Some(WindowEntries(index, after, Some(m)).value + WindowEntries(index, Some(m - 1), before).value)
  {
    KeysConcatenate(index, after, m, before);
    EntriesConcat(index, WindowKeys(index, after, Some(m)), WindowKeys(index, Some(m - 1), before));
  }

  const MAX_U64: nat := 0xffff_ffff_ffff_ffff

  /** The window that the decision trace asks for: from `s - 1`, saturating at 0, to `s + 1`, both excluded. */
  function ExactWindow(s: SequenceNo): (Option<SequenceNo>, Option<SequenceNo>)
    requires s < MAX_U64
  {
    (Some(if s == 0 then 0 else s - 1), Some(s + 1))
  }

  /** It never panics, and is the bucket of `s` exactly when `s` is not 0 or nothing is filed under 0. */
  lemma ExactWindowIsBucket(index: map<SequenceNo, seq<NodeId>>, s: SequenceNo)
    requires s < MAX_U64 && Clean(index)
    ensures WindowEntries(index, ExactWindow(s).0, ExactWindow(s).1).Some?
    ensures (forall k: SequenceNo, id :: (k, id) in WindowEntries(index, ExactWindow(s).0, ExactWindow(s).1).value
                             <==> k == s && InBucket(index, s, id))
            <==> s >= 1 || 0 !in index
  {
    WindowExact(index, ExactWindow(s).0, ExactWindow(s).1);
    if s == 0 && 0 in index {
      var id := index[0][0];
      assert InBucket(index, 0, id) && !InWindow(0, ExactWindow(s).0, ExactWindow(s).1);
    }
  }

  // Snapshots.

  /** Nodes in id order, then the edges as they are. */
  function ToSnapshot(g: Graph): GraphSnapshot {
    StringOrder();
    var ids := Ascending(g.nodes.Keys, Text.StrLess);
    GraphSnapshot(
      seq(|ids|, i requires 0 <= i < |ids| => assert ids[i] in ids; SaveNode(g.nodes[ids[i]])),
      SaveEdges(g.edges))
  }

  function LoadNodes(nodes: seq<NodeSnapshot>): (g: Graph)
    ensures WellIndexed(g) && PositionsInRange(g) && g.edges == []
  {
    if nodes == [] then
      EmptyIsWellIndexed();
      EMPTY
    else
      var g := LoadNodes(nodes[..|nodes| - 1]);
      var node := LoadNode(nodes[|nodes| - 1]);
      AddNodeKeepsIndexes(g, node);
      WellIndexedInRange(AddNode(g, node));
      AddNode(g, node)
  }

  lemma LoadOneNode(saved: seq<NodeSnapshot>, i: nat)
    requires i < |saved|
    ensures var g := LoadNodes(saved[..i]);
            && PositionsInRange(g)
            && (saved[i].id in g.nodes ==> g.nodes[saved[i].id].id == saved[i].id)
            && LoadNodes(saved[..i + 1]) == AddNode(g, LoadNode(saved[i]))
  {
    assert saved[..i + 1][..i] == saved[..i];
  }

  /** The edge is added without its semantics, which are then written into the last element. */
  function LoadEdge(g: Graph, edge: EdgeSnapshot): Result<Graph, GraphError> {
    match AddEdge(g, Edge(edge.source, edge.target, LoadEdgeKind(edge.kind), None))
    case Failure(error) => Failure(error)
    case Success(added) =>
      var last := |added.edges| - 1;
      Success(added.(edges := added.edges[last := added.edges[last].(semantics := edge.semantics)]))
  }

  function LoadEdges(g: Graph, edges: seq<EdgeSnapshot>): Result<Graph, GraphError> {
    if edges == [] then Success(g)
    else match LoadEdges(g, edges[..|edges| - 1])
      case Failure(error) => Failure(error)
      case Success(loaded) => LoadEdge(loaded, edges[|edges| - 1])
  }

  lemma {:induction false} ErrorStays(g: Graph, edges: seq<EdgeSnapshot>, n: nat)
    requires n <= |edges| && LoadEdges(g, edges[..n]).Failure?
    ensures LoadEdges(g, edges) == LoadEdges(g, edges[..n])
    decreases |edges|
  {
    if n == |edges| {
      assert edges[..n] == edges;
    } else {
      var front := edges[..|edges| - 1];
      assert front[..n] == edges[..n];
      ErrorStays(g, front, n);
    }
  }

  lemma LoadOneEdge(g: Graph, edges: seq<EdgeSnapshot>, i: nat)
    requires i < |edges| && LoadEdges(g, edges[..i]).Success?
    ensures LoadEdges(g, edges[..i + 1]) == LoadEdge(LoadEdges(g, edges[..i]).value, edges[i])
    ensures LoadEdges(g, edges[..i + 1]).Failure? ==> LoadEdges(g, edges) == LoadEdges(g, edges[..i + 1])
  {
    assert edges[..i + 1][..i] == edges[..i];
    if LoadEdges(g, edges[..i + 1]).Failure? {
      ErrorStays(g, edges, i + 1);
    }
  }

  function FromSnapshot(snapshot: GraphSnapshot): Result<Graph, GraphError> {
    LoadEdges(LoadNodes(snapshot.nodes), snapshot.edges)
  }

  /** The record of a kind: of the same name, and each field under its own. */
  predicate RecordOf(r: NodeKindSnapshot, k: NodeKind) {
    match k
    case RequestAnchor(_, _, _, _, _) =>
      r.RequestAnchorSnapshot? && r.sessionId == k.sessionId && r.sequenceNo == k.sequenceNo && r.rawText == k.rawText
      && r.cwdBefore == k.cwdBefore && r.shellKind == k.shellKind
    case CommandInvocation(_, _, _, _, _) =>
      r.CommandInvocationSnapshot? && r.sessionId == k.sessionId && r.sequenceNo == k.sequenceNo
      && r.rawText == k.rawText && r.cwdBefore == k.cwdBefore && r.shellKind == k.shellKind
    case ShellStateReconciliationAnchor(_) =>
      r.ShellStateReconciliationAnchorSnapshot? && r.sequenceNo == k.sequenceNo
    case DerivedInvocation(_, _, _, _, _, _, _) =>
      r.DerivedInvocationSnapshot? && r.rootSequenceNo == k.rootSequenceNo && r.origin == k.origin
      && r.index == k.index && r.rawText == k.rawText && r.commandName == k.commandName && r.shellKind == k.shellKind
      && r.depth == k.depth
    case NestedPayload(_, _, _, _, _, _, _, _, _) =>
      r.NestedPayloadSnapshot? && r.rootSequenceNo == k.rootSequenceNo && r.rootIndex == k.rootIndex
      && r.recordId == k.recordId && r.depth == k.depth && r.language == k.language && r.source == k.source
      && r.origin == k.origin && r.input == k.input && r.resolution == k.resolution
    case PathFact(_, _, _, _, _, _) =>
      r.PathFactSnapshot? && r.pathResolution == k.pathResolution && r.role == k.role && r.purpose == k.purpose
      && r.slotName == k.slotName && r.normalizedCommandName == k.normalizedCommandName
      && r.metadataMutation == k.metadataMutation
    case MutationScopeFact(_, _, _, _) =>
      r.MutationScopeFactSnapshot? && r.scopeResolution == k.scopeResolution && r.operation == k.operation
      && r.slotName == k.slotName && r.normalizedCommandName == k.normalizedCommandName
    case ProvenanceArtifact(_) =>
      r.ProvenanceArtifactSnapshot? && r.artifact == k.artifact
    case ExecutionSemantics(_) =>
      r.ExecutionSemanticsSnapshot? && r.semantics == k.semantics
    case VariableBindingIntent(_, _) =>
      r.VariableBindingIntentSnapshot? && r.name == k.name && r.runtimeInputSource == k.runtimeInputSource
    case EnvBinding(_, _, _, _) =>
      r.EnvBindingSnapshot? && r.name == k.name && r.valueRepr == k.valueRepr && r.exported == k.exported
      && r.version == k.version
    case AliasBinding(_, _, _) =>
      r.AliasBindingSnapshot? && r.name == k.name && r.body == k.body && r.version == k.version
    case AliasMutation(_, _, _) =>
      r.AliasMutationSnapshot? && r.name == k.name && r.action == k.action && r.version == k.version
    case FunctionBinding(_, _, _) =>
      r.FunctionBindingSnapshot? && r.name == k.name && r.bodyRepr == k.bodyRepr && r.version == k.version
    case DirectoryState(_, _) =>
      r.DirectoryStateSnapshot? && r.path == k.path && r.version == k.version
    case CapabilityEvidence(_, _) =>
      r.CapabilityEvidenceSnapshot? && r.capability == k.capability && r.evidenceSource == k.evidenceSource
    case FlowEvidence(_, _, _) =>
      r.FlowEvidenceSnapshot? && r.flowKind == k.flowKind && r.sourceKind == k.sourceKind && r.sinkKind == k.sinkKind
    case DecisionRecord(_, _) =>
      r.DecisionRecordSnapshot? && r.decision == k.decision && r.reasonSummary == k.reasonSummary
  }

  /** The record of an edge's kind has the same name. */
  predicate EdgeRecordOf(r: EdgeKindSnapshot, k: EdgeKind) {
    && (k.Defines? ==> r.DefinesSnapshot?) && (k.Reads? ==> r.ReadsSnapshot?)
    && (k.Writes? ==> r.WritesSnapshot?) && (k.MutatesMetadata? ==> r.MutatesMetadataSnapshot?)
    && (k.Targets? ==> r.TargetsSnapshot?) && (k.Consumes? ==> r.ConsumesSnapshot?)
    && (k.Produces? ==> r.ProducesSnapshot?) && (k.Dispatches? ==> r.DispatchesSnapshot?)
    && (k.ExpandsTo? ==> r.ExpandsToSnapshot?) && (k.DependsOn? ==> r.DependsOnSnapshot?)
    && (k.FlowsTo? ==> r.FlowsToSnapshot?) && (k.ChangesCwdTo? ==> r.ChangesCwdToSnapshot?)
    && (k.InheritsFrom? ==> r.InheritsFromSnapshot?) && (k.TriggeredBy? ==> r.TriggeredBySnapshot?)
  }

  /** The snapshot has a record of every node, each once and in id order, and of every edge where the edge is. */
  lemma SnapshotRecords(g: Graph)
    requires forall id | id in g.nodes :: g.nodes[id].id == id
    ensures var saved := ToSnapshot(g).nodes;
            && |saved| == |g.nodes|
            && (forall i | 0 <= i < |saved| ::
                  saved[i].id in g.nodes && RecordOf(saved[i].kind, g.nodes[saved[i].id].kind))
            && (forall i, j | 0 <= i < j < |saved| :: Text.StrLess(saved[i].id, saved[j].id))
    ensures var saved := ToSnapshot(g).edges;
            && |saved| == |g.edges|
            && forall i | 0 <= i < |saved| ::
                 && saved[i].source == g.edges[i].source && saved[i].target == g.edges[i].target
                 && EdgeRecordOf(saved[i].kind, g.edges[i].kind) && saved[i].semantics == g.edges[i].semantics
  {
    StringOrder();
    var ids := Ascending(g.nodes.Keys, Text.StrLess);
    forall i | 0 <= i < |ids|
      ensures ids[i] in g.nodes && RecordOf(SaveNode(g.nodes[ids[i]]).kind, g.nodes[ids[i]].kind)
    {
      assert ids[i] in ids;
    }
    assert |g.nodes.Keys| == |g.nodes|;
  }

  lemma NodeRoundTrip(node: GraphNode, saved: NodeSnapshot)
    ensures LoadNode(SaveNode(node)) == node && SaveNode(LoadNode(saved)) == saved
  {
  }

  /** Patching the semantics afterwards is adding the whole edge. */
  lemma LoadEdgeIsAddEdge(g: Graph, edge: Edge)
    ensures LoadEdge(g, SaveEdge(edge)) == AddEdge(g, edge)
  {
    var bare := edge.(semantics := None);
    if AddEdge(g, bare).Success? {
      assert (g.edges + [bare])[|g.edges| := edge] == g.edges + [edge];
    }
  }

  lemma NodeStep(g: Graph, node: GraphNode)
    requires WellIndexed(g) && SemanticsAgrees(g) && g.edges == []
    ensures PositionsInRange(g)
    ensures AddNode(g, node).nodes == g.nodes[node.id := node] && SemanticsAgrees(AddNode(g, node))
  {
    AddNodeKeepsSemanticsExactly(g, node);
    if node.id in g.nodes {
      forall s: SequenceNo, x ensures SafeAt(g, node, s, x) {}
    }
  }

  /** `nodes` holds exactly what the saved nodes load to. */
  ghost predicate HoldsExactly(nodes: Nodes, saved: seq<NodeSnapshot>) {
    && (forall i | 0 <= i < |saved| :: saved[i].id in nodes && nodes[saved[i].id] == LoadNode(saved[i]))
    && (forall id | id in nodes :: exists i | 0 <= i < |saved| :: saved[i].id == id)
  }

  lemma HoldsOneMore(nodes: Nodes, saved: seq<NodeSnapshot>, last: NodeSnapshot)
    requires HoldsExactly(nodes, saved) && forall i | 0 <= i < |saved| :: saved[i].id != last.id
    ensures HoldsExactly(nodes[last.id := LoadNode(last)], saved + [last])
  {
    var nodes', saved' := nodes[last.id := LoadNode(last)], saved + [last];
    forall id | id in nodes' ensures exists i | 0 <= i < |saved'| :: saved'[i].id == id {
      if id == last.id {
        assert saved'[|saved|].id == id;
      } else {
        var i :| 0 <= i < |saved| && saved[i].id == id;
        assert saved'[i].id == id;
      }
    }
  }

  lemma LoadNodesStep(saved: seq<NodeSnapshot>, last: NodeSnapshot, g: Graph)
    requires g == LoadNodes(saved) && HoldsExactly(g.nodes, saved) && SemanticsAgrees(g)
    requires forall i | 0 <= i < |saved| :: saved[i].id != last.id
    ensures HoldsExactly(LoadNodes(saved + [last]).nodes, saved + [last])
    ensures SemanticsAgrees(LoadNodes(saved + [last]))
  {
    assert (saved + [last])[..|saved|] == saved;
    NodeStep(g, LoadNode(last));
    HoldsOneMore(g.nodes, saved, last);
    assert LoadNodes(saved + [last]) == AddNode(g, LoadNode(last));
  }

  /** Loading nodes with distinct ids gives exactly those nodes; no edge is there to define anything. */
  lemma {:induction false} LoadNodesExact(saved: seq<NodeSnapshot>)
    requires forall i, j | 0 <= i < j < |saved| :: saved[i].id != saved[j].id
    ensures HoldsExactly(LoadNodes(saved).nodes, saved) && SemanticsAgrees(LoadNodes(saved))
  {
    if saved != [] {
      var n := |saved| - 1;
      var front, last := saved[..n], saved[n];
      assert saved == front + [last];
      assert forall i | 0 <= i < |front| :: front[i].id != last.id;
      LoadNodesExact(front);
      LoadNodesStep(front, last, LoadNodes(front));
    }
  }

  function SaveEdges(edges: seq<Edge>): seq<EdgeSnapshot> {
    seq(|edges|, i requires 0 <= i < |edges| => SaveEdge(edges[i]))
  }

  lemma EdgeStep(g: Graph, edge: Edge)
    requires WellIndexed(g) && edge.source in g.nodes && edge.target in g.nodes
    ensures LoadEdge(g, SaveEdge(edge)).Success? && Grown(g, LoadEdge(g, SaveEdge(edge)).value, [edge])
  {
    LoadEdgeIsAddEdge(g, edge);
    AddEdgeExact(g, edge);
  }

  lemma LoadOneMore(g: Graph, front: seq<Edge>, last: Edge)
    requires LoadEdges(g, SaveEdges(front)).Success? && Grown(g, LoadEdges(g, SaveEdges(front)).value, front)
    requires last.source in g.nodes && last.target in g.nodes
    ensures LoadEdges(g, SaveEdges(front + [last])).Success?
    ensures Grown(g, LoadEdges(g, SaveEdges(front + [last])).value, front + [last])
  {
    assert SaveEdges(front + [last])[..|front|] == SaveEdges(front);
    var loaded := LoadEdges(g, SaveEdges(front)).value;
    EdgeStep(loaded, last);
    GrownTwice(g, loaded, LoadEdge(loaded, SaveEdge(last)).value, front, [last]);
  }

  lemma {:induction false} LoadEdgesExact(g: Graph, edges: seq<Edge>)
    requires WellIndexed(g) && forall e | e in edges :: e.source in g.nodes && e.target in g.nodes
    ensures LoadEdges(g, SaveEdges(edges)).Success? && Grown(g, LoadEdges(g, SaveEdges(edges)).value, edges)
  {
    if edges == [] {
      assert g.edges + [] == g.edges;
    } else {
      var front, last := edges[..|edges| - 1], edges[|edges| - 1];
      assert edges == front + [last] && last in edges && forall e | e in front :: e in edges;
      LoadEdgesExact(g, front);
      LoadOneMore(g, front, last);
    }
  }

  ghost predicate SameMembers<K(!new)>(a: map<K, seq<NodeId>>, b: map<K, seq<NodeId>>) {
    forall k, id :: InBucket(a, k, id) <==> InBucket(b, k, id)
  }

  lemma SameAdjacency(a: map<NodeId, seq<nat>>, b: map<NodeId, seq<nat>>, edges: seq<Edge>, end: Edge -> NodeId)
    requires Adjacency(a, edges, end) && Adjacency(b, edges, end)
    ensures a == b
  {
    forall id ensures (id in a <==> id in b) && (id in a ==> a[id] == b[id]) {
      assert Bucket(a, id) == Bucket(b, id);
    }
  }

  lemma SavedNodes(g: Graph)
    requires WellIndexed(g)
    ensures var saved := ToSnapshot(g).nodes;
            && (forall i, j | 0 <= i < j < |saved| :: saved[i].id != saved[j].id)
            && HoldsExactly(g.nodes, saved)
  {
    StringOrder();
    var ids := Ascending(g.nodes.Keys, Text.StrLess);
    var saved := ToSnapshot(g).nodes;
    forall i | 0 <= i < |ids| ensures ids[i] in g.nodes && saved[i].id == ids[i] && LoadNode(saved[i]) == g.nodes[ids[i]] {
      assert ids[i] in ids;
      NodeRoundTrip(g.nodes[ids[i]], saved[i]);
    }
    forall id | id in g.nodes ensures exists i | 0 <= i < |saved| :: saved[i].id == id {
      var i :| 0 <= i < |ids| && ids[i] == id;
      assert saved[i].id == id;
    }
    assert forall i, j | 0 <= i < j < |ids| :: Text.StrLess(ids[i], ids[j]);
  }

  lemma SameHoldings(a: Nodes, b: Nodes, saved: seq<NodeSnapshot>)
    requires HoldsExactly(a, saved) && HoldsExactly(b, saved)
    ensures a == b
  {
  }

  lemma SameBuckets<K(!new)>(a: map<K, seq<NodeId>>, b: map<K, seq<NodeId>>, nodes: Nodes,
                             key: NodeKind -> Option<K>)
    requires Agrees(a, nodes, key) && Agrees(b, nodes, key)
    ensures SameMembers(a, b)
  {
  }

  /**
   * Restoring what was saved never fails and gives back nodes, edges, adjacency and every node index; the
   * execution-semantics index is given back exactly if it was right in the first place.
   */
  lemma RoundTrip(g: Graph) returns (r: Graph)
    requires WellIndexed(g)
    ensures FromSnapshot(ToSnapshot(g)) == Success(r)
    ensures r.nodes == g.nodes && r.edges == g.edges && r.outgoing == g.outgoing && r.incoming == g.incoming
    ensures WellIndexed(r) && SemanticsAgrees(r)
    ensures SameMembers(r.commands, g.commands) && SameMembers(r.derived, g.derived) && SameMembers(r.nested, g.nested)
    ensures SameMembers(r.pathFactsAt, g.pathFactsAt) && SameMembers(r.contentsAt, g.contentsAt)
    ensures forall id :: (id in r.pathFacts <==> id in g.pathFacts) && (id in r.contents <==> id in g.contents)
    ensures Clean(g.semantics) && SameMembers(r.semantics, g.semantics) <==> SemanticsAgrees(g)
  {
    SavedNodes(g);
    var saved := ToSnapshot(g);
    LoadNodesExact(saved.nodes);
    var loaded := LoadNodes(saved.nodes);
    SameHoldings(loaded.nodes, g.nodes, saved.nodes);
    LoadEdgesExact(loaded, g.edges);
    r := LoadEdges(loaded, saved.edges).value;
    IndexesRestored(r, g);
    SemanticsRestored(r, g);
  }

  lemma IndexesRestored(r: Graph, g: Graph)
    requires WellIndexed(r) && WellIndexed(g) && r.nodes == g.nodes && r.edges == g.edges
    ensures r.outgoing == g.outgoing && r.incoming == g.incoming
    ensures SameMembers(r.commands, g.commands) && SameMembers(r.derived, g.derived) && SameMembers(r.nested, g.nested)
    ensures SameMembers(r.pathFactsAt, g.pathFactsAt) && SameMembers(r.contentsAt, g.contentsAt)
    ensures forall id :: (id in r.pathFacts <==> id in g.pathFacts) && (id in r.contents <==> id in g.contents)
  {
    SameAdjacency(r.outgoing, g.outgoing, g.edges, Source);
    SameAdjacency(r.incoming, g.incoming, g.edges, Target);
    SameBuckets(r.commands, g.commands, g.nodes, CommandKey);
    SameBuckets(r.derived, g.derived, g.nodes, DerivedKey);
    SameBuckets(r.nested, g.nested, g.nodes, NestedKey);
    SameBuckets(r.pathFactsAt, g.pathFactsAt, g.nodes, PathFactKey);
    SameBuckets(r.contentsAt, g.contentsAt, g.nodes, ContentKey);
  }

  lemma SemanticsRestored(r: Graph, g: Graph)
    requires SemanticsAgrees(r) && r.nodes == g.nodes && r.edges == g.edges
    ensures Clean(g.semantics) && SameMembers(r.semantics, g.semantics) <==> SemanticsAgrees(g)
  {
    forall s: SequenceNo, id ensures InBucket(r.semantics, s, id) <==> Scanned(g.nodes, g.edges, s, id) {}
    if SemanticsAgrees(g) {
      forall s: SequenceNo, id ensures InBucket(r.semantics, s, id) <==> InBucket(g.semantics, s, id) {}
    }
  }

  /** A second round trip changes nothing at all, bucket order included. */
  lemma SecondRoundTrip(g: Graph, r: Graph)
    requires WellIndexed(g) && FromSnapshot(ToSnapshot(g)) == Success(r)
    ensures FromSnapshot(ToSnapshot(r)) == Success(r)
  {
    var r' := RoundTrip(g);
    assert ToSnapshot(r) == ToSnapshot(g);
  }
}
