/** What each insertion does to a session graph and to every index kept beside it. */
module GraphIndex {
  import opened Wrappers
  import opened GraphTypes

  datatype Graph = Graph(
    nodes: Nodes,
    edges: seq<Edge>,
    outgoing: map<NodeId, seq<nat>>,
    incoming: map<NodeId, seq<nat>>,
    commands: map<SequenceNo, seq<NodeId>>,
    derived: map<SequenceNo, seq<NodeId>>,
    nested: map<SequenceNo, seq<NodeId>>,
    semantics: map<SequenceNo, seq<NodeId>>,
    pathFacts: seq<NodeId>,
    pathFactsAt: map<string, seq<NodeId>>,
    contents: seq<NodeId>,
    contentsAt: map<string, seq<NodeId>>)

  datatype GraphError = MissingSourceNode(id: NodeId) | MissingTargetNode(id: NodeId)

  const EMPTY: Graph := Graph(map[], [], map[], map[], map[], map[], map[], map[], [], map[], [], map[])

  // The key of a node in each index, if the index lists nodes of its kind at all.

  function CommandKey(kind: NodeKind): Option<SequenceNo> {
    if kind.CommandInvocation? then Some(kind.sequenceNo) else None
  }

  function DerivedKey(kind: NodeKind): Option<SequenceNo> {
    if kind.DerivedInvocation? then Some(kind.rootSequenceNo) else None
  }

  function NestedKey(kind: NodeKind): Option<SequenceNo> {
    if kind.NestedPayload? then Some(kind.rootSequenceNo) else None
  }

  function PathFactKey(kind: NodeKind): Option<string> {
    if kind.PathFact? then kind.pathResolution.ConcretePath() else None
  }

  function ContentKey(kind: NodeKind): Option<string> {
    if kind.ProvenanceArtifact? && kind.artifact.PathContent? then Some(kind.artifact.path) else None
  }

  predicate IsPathFact(kind: NodeKind) { kind.PathFact? }

  predicate IsPathContent(kind: NodeKind) { kind.ProvenanceArtifact? && kind.artifact.PathContent? }

  predicate IsSemantics(kind: NodeKind) { kind.ExecutionSemantics? }

  /** Sequence number of an execution unit: a command or a derived invocation. */
  function UnitSequenceNo(nodes: Nodes, id: NodeId): Option<SequenceNo> {
    if id !in nodes then None
    else match nodes[id].kind
      case CommandInvocation(_, sequenceNo, _, _, _) => Some(sequenceNo)
      case DerivedInvocation(rootSequenceNo, _, _, _, _, _, _) => Some(rootSequenceNo)
      case _ => None
  }

  /** Sequence number of the first unit, in edge order, that defines a node. */
  function FirstDefiningSequenceNo(nodes: Nodes, edges: seq<Edge>, positions: seq<nat>)
    : Option<SequenceNo>
    requires forall i | 0 <= i < |positions| :: positions[i] < |edges|
  {
    if positions == [] then None
    else
      var edge := edges[positions[0]];
      if edge.kind == Defines && UnitSequenceNo(nodes, edge.source).Some?
      then UnitSequenceNo(nodes, edge.source)
      else FirstDefiningSequenceNo(nodes, edges, positions[1..])
  }

  function Bucket<K, V>(index: map<K, seq<V>>, key: K): seq<V> {
    if key in index then index[key] else []
  }

  predicate InBucket<K, V(==)>(index: map<K, seq<V>>, key: K, value: V) {
    key in index && value in index[key]
  }

  function RemoveFirst(ids: seq<NodeId>, id: NodeId): (r: seq<NodeId>) {
    if ids == [] then []
    else if ids[0] == id then ids[1..]
    else [ids[0]] + RemoveFirst(ids[1..], id)
  }

  /** Takes `id` out of one bucket; an emptied bucket disappears. */
  function RemoveEntry<K>(index: map<K, seq<NodeId>>, key: K, id: NodeId): map<K, seq<NodeId>> {
    if key !in index then index
    else
      var rest := RemoveFirst(index[key], id);
      if rest == [] then index - {key} else index[key := rest]
  }

  function PushEntry<K, V>(index: map<K, seq<V>>, key: K, value: V): map<K, seq<V>> {
    index[key := Bucket(index, key) + [value]]
  }

  function RemoveUnder<K>(index: map<K, seq<NodeId>>, key: Option<K>, id: NodeId): map<K, seq<NodeId>> {
    if key.Some? then RemoveEntry(index, key.value, id) else index
  }

  function PushUnder<K>(index: map<K, seq<NodeId>>, key: Option<K>, id: NodeId): map<K, seq<NodeId>> {
    if key.Some? then PushEntry(index, key.value, id) else index
  }

  /** Moves `id` from its old key to its new one, each if any. */
  function Rekey<K>(index: map<K, seq<NodeId>>, before: Option<K>, after: Option<K>, id: NodeId): map<K, seq<NodeId>> {
    PushUnder(RemoveUnder(index, before, id), after, id)
  }

  function RemoveIf(list: seq<NodeId>, held: bool, id: NodeId): seq<NodeId> {
    if held then RemoveFirst(list, id) else list
  }

  function PushIf(list: seq<NodeId>, holds: bool, id: NodeId): seq<NodeId> {
    if holds then list + [id] else list
  }

  function Relist(list: seq<NodeId>, before: bool, after: bool, id: NodeId): seq<NodeId> {
    PushIf(RemoveIf(list, before, id), after, id)
  }

  function KeyBefore<K>(g: Graph, id: NodeId, key: NodeKind -> Option<K>): Option<K> {
    if id in g.nodes then key(g.nodes[id].kind) else None
  }

  predicate HeldBefore(g: Graph, id: NodeId, holds: NodeKind -> bool) {
    id in g.nodes && holds(g.nodes[id].kind)
  }

  predicate PositionsInRange(g: Graph) {
    forall id | id in g.incoming ::
      forall i | 0 <= i < |g.incoming[id]| :: g.incoming[id][i] < |g.edges|
  }

  /** The sequence number under which the semantics index files or clears a node, with `nodes` as they then are. */
  function SemanticsSequenceNo(g: Graph, nodes: Nodes, id: NodeId): Option<SequenceNo>
    requires PositionsInRange(g)
  {
    FirstDefiningSequenceNo(nodes, g.edges, Bucket(g.incoming, id))
  }

  /** The sequence number under which a node's kind puts it in the semantics index. */
  function SemanticsKey(g: Graph, nodes: Nodes, node: GraphNode): Option<SequenceNo>
    requires PositionsInRange(g)
  {
    if IsSemantics(node.kind) then SemanticsSequenceNo(g, nodes, node.id) else None
  }

  function SemanticsKeyBefore(g: Graph, nodes: Nodes, id: NodeId): Option<SequenceNo>
    requires PositionsInRange(g)
  {
    if HeldBefore(g, id, IsSemantics) then SemanticsSequenceNo(g, nodes, id) else None
  }

  /** Inserting or replacing a node moves it in every index, from its old key to its new one. */
  function AddNode(g: Graph, node: GraphNode): Graph
    requires PositionsInRange(g)
  {
    var id, kind := node.id, node.kind;
    var nodes := g.nodes[id := node];
    g.(nodes := nodes,
       commands := Rekey(g.commands, KeyBefore(g, id, CommandKey), CommandKey(kind), id),
       derived := Rekey(g.derived, KeyBefore(g, id, DerivedKey), DerivedKey(kind), id),
       nested := Rekey(g.nested, KeyBefore(g, id, NestedKey), NestedKey(kind), id),
       semantics := Rekey(g.semantics, SemanticsKeyBefore(g, nodes, id), SemanticsKey(g, nodes, node), id),
       pathFacts := Relist(g.pathFacts, HeldBefore(g, id, IsPathFact), IsPathFact(kind), id),
       pathFactsAt := Rekey(g.pathFactsAt, KeyBefore(g, id, PathFactKey), PathFactKey(kind), id),
       contents := Relist(g.contents, HeldBefore(g, id, IsPathContent), IsPathContent(kind), id),
       contentsAt := Rekey(g.contentsAt, KeyBefore(g, id, ContentKey), ContentKey(kind), id))
  }

  /** The bucket that a new edge adds its target to, if it defines execution semantics from a unit. */
  function NewSemanticsKey(nodes: Nodes, edge: Edge): Option<SequenceNo> {
    if edge.kind == Defines && edge.target in nodes && IsSemantics(nodes[edge.target].kind)
    then UnitSequenceNo(nodes, edge.source)
    else None
  }

  function IndexedEdge(semantics: map<SequenceNo, seq<NodeId>>, nodes: Nodes, edge: Edge)
    : map<SequenceNo, seq<NodeId>>
  {
    var key := NewSemanticsKey(nodes, edge);
    if key.Some? && !InBucket(semantics, key.value, edge.target)
    then PushEntry(semantics, key.value, edge.target)
    else semantics
  }

  function AddEdge(g: Graph, edge: Edge): Result<Graph, GraphError> {
    if edge.source !in g.nodes then Failure(MissingSourceNode(edge.source))
    else if edge.target !in g.nodes then Failure(MissingTargetNode(edge.target))
    else Success(InsertEdge(g, edge))
  }

  function InsertEdge(g: Graph, edge: Edge): Graph {
    g.(edges := g.edges + [edge],
       outgoing := PushEntry(g.outgoing, edge.source, |g.edges|),
       incoming := PushEntry(g.incoming, edge.target, |g.edges|),
       semantics := IndexedEdge(g.semantics, g.nodes, edge))
  }

  // What the indexes are for: the answers of a scan over all nodes and edges.

  predicate NoDuplicates<T(==)>(s: seq<T>) {
    forall i, j | 0 <= i < j < |s| :: s[i] != s[j]
  }

  /** No bucket is empty and none lists a node twice. */
  ghost predicate Clean<K(!new)>(index: map<K, seq<NodeId>>) {
    forall k | k in index :: index[k] != [] && NoDuplicates(index[k])
  }

  /** Each node sits exactly once in the bucket of its own key, and nowhere else. */
  ghost predicate Agrees<K(!new)>(index: map<K, seq<NodeId>>, nodes: Nodes,
                                  key: NodeKind -> Option<K>) {
    && Clean(index)
    && forall k, id :: InBucket(index, k, id) <==> id in nodes && key(nodes[id].kind) == Some(k)
  }

  ghost predicate ListAgrees(list: seq<NodeId>, nodes: Nodes, holds: NodeKind -> bool) {
    && NoDuplicates(list)
    && forall id :: id in list <==> id in nodes && holds(nodes[id].kind)
  }

  function Source(edge: Edge): NodeId { edge.source }

  function Target(edge: Edge): NodeId { edge.target }

  /** Positions of the edges with the given end, in increasing order. */
  function Positions(edges: seq<Edge>, end: Edge -> NodeId, id: NodeId): (r: seq<nat>)
    ensures forall i, j | 0 <= i < j < |r| :: r[i] < r[j]
    ensures forall i :: i in r <==> 0 <= i < |edges| && end(edges[i]) == id
  {
    if edges == [] then []
    else
      var n := |edges| - 1;
      var before := Positions(edges[..n], end, id);
      assert forall i | 0 <= i < |before| :: before[i] in before;
      if end(edges[n]) == id then before + [n] else before
  }

  ghost predicate Adjacency(index: map<NodeId, seq<nat>>, edges: seq<Edge>, end: Edge -> NodeId) {
    && (forall id | id in index :: index[id] != [])
    && forall id :: Bucket(index, id) == Positions(edges, end, id)
  }

  /** Every index but the execution-semantics one answers as a scan would, and every edge has both ends. */
  ghost predicate WellIndexed(g: Graph) {
    && (forall id | id in g.nodes :: g.nodes[id].id == id)
    && (forall e | e in g.edges :: e.source in g.nodes && e.target in g.nodes)
    && Adjacency(g.outgoing, g.edges, Source)
    && Adjacency(g.incoming, g.edges, Target)
    && Agrees(g.commands, g.nodes, CommandKey)
    && Agrees(g.derived, g.nodes, DerivedKey)
    && Agrees(g.nested, g.nodes, NestedKey)
    && Agrees(g.pathFactsAt, g.nodes, PathFactKey)
    && Agrees(g.contentsAt, g.nodes, ContentKey)
    && ListAgrees(g.pathFacts, g.nodes, IsPathFact)
    && ListAgrees(g.contents, g.nodes, IsPathContent)
  }

  lemma WellIndexedInRange(g: Graph)
    requires WellIndexed(g)
    ensures PositionsInRange(g)
  {
    forall id, i | id in g.incoming && 0 <= i < |g.incoming[id]| ensures g.incoming[id][i] < |g.edges| {
      assert Bucket(g.incoming, id) == g.incoming[id];
      assert g.incoming[id][i] in Positions(g.edges, Target, id);
    }
  }

  lemma {:induction false} RemoveFirstMembership(ids: seq<NodeId>, id: NodeId)
    requires NoDuplicates(ids)
    ensures NoDuplicates(RemoveFirst(ids, id))
    ensures forall x :: x in RemoveFirst(ids, id) <==> x in ids && x != id
  {
    if ids != [] {
      RemoveFirstMembership(ids[1..], id);
      assert forall x :: x in ids <==> x == ids[0] || x in ids[1..];
      assert ids[0] !in ids[1..];
      assert forall i | 0 <= i < |RemoveFirst(ids[1..], id)| ::
          RemoveFirst(ids[1..], id)[i] in RemoveFirst(ids[1..], id);
    }
  }

  /** Who is in which bucket after a move. */
  lemma RekeyMembership<K(!new)>(index: map<K, seq<NodeId>>, before: Option<K>, after: Option<K>, id: NodeId)
    requires Clean(index)
    requires after.Some? && InBucket(index, after.value, id) ==> before == after
    ensures Clean(Rekey(index, before, after, id))
    ensures forall k, x :: InBucket(Rekey(index, before, after, id), k, x) <==>
              (if x == id then (InBucket(index, k, id) && before != Some(k)) || after == Some(k)
               else InBucket(index, k, x))
  {
    if before.Some? && before.value in index {
      RemoveFirstMembership(index[before.value], id);
      assert forall x | x in index[before.value] :: x == id || x in RemoveFirst(index[before.value], id);
    }
    var removed := RemoveUnder(index, before, id);
    assert Clean(removed);
    assert forall k, x :: InBucket(removed, k, x) <==> InBucket(index, k, x) && !(x == id && before == Some(k));
    if after.Some? {
      var bucket := Bucket(removed, after.value);
      assert id !in bucket by {
        assert id in bucket ==> InBucket(removed, after.value, id);
      }
      assert forall i | 0 <= i < |bucket| :: bucket[i] in bucket;
      assert NoDuplicates(bucket + [id]);
    }
  }

  lemma RelistMembership(list: seq<NodeId>, before: bool, after: bool, id: NodeId)
    requires NoDuplicates(list) && (id in list <==> before)
    ensures NoDuplicates(Relist(list, before, after, id))
    ensures forall x :: x in Relist(list, before, after, id) <==> if x == id then after else x in list
  {
    RemoveFirstMembership(list, id);
  }

  lemma RekeyAgrees<K(!new)>(g: Graph, index: map<K, seq<NodeId>>, key: NodeKind -> Option<K>, node: GraphNode)
    requires Agrees(index, g.nodes, key)
    ensures Agrees(Rekey(index, KeyBefore(g, node.id, key), key(node.kind), node.id), g.nodes[node.id := node], key)
  {
    RekeyMembership(index, KeyBefore(g, node.id, key), key(node.kind), node.id);
  }

  lemma RelistAgrees(g: Graph, list: seq<NodeId>, holds: NodeKind -> bool, node: GraphNode)
    requires ListAgrees(list, g.nodes, holds)
    ensures ListAgrees(Relist(list, HeldBefore(g, node.id, holds), holds(node.kind), node.id),
                       g.nodes[node.id := node], holds)
  {
    RelistMembership(list, HeldBefore(g, node.id, holds), holds(node.kind), node.id);
  }

  /** Insertion and replacement, whatever the old and new kinds and keys, keep the indexes equal to a scan. */
  lemma AddNodeKeepsIndexes(g: Graph, node: GraphNode)
    requires WellIndexed(g)
    ensures PositionsInRange(g) && WellIndexed(AddNode(g, node))
  {
    WellIndexedInRange(g);
    RekeyAgrees(g, g.commands, CommandKey, node);
    RekeyAgrees(g, g.derived, DerivedKey, node);
    RekeyAgrees(g, g.nested, NestedKey, node);
    RekeyAgrees(g, g.pathFactsAt, PathFactKey, node);
    RekeyAgrees(g, g.contentsAt, ContentKey, node);
    RelistAgrees(g, g.pathFacts, IsPathFact, node);
    RelistAgrees(g, g.contents, IsPathContent, node);
  }

  lemma PushKeepsAdjacency(index: map<NodeId, seq<nat>>, edges: seq<Edge>, end: Edge -> NodeId, edge: Edge)
    requires Adjacency(index, edges, end)
    ensures Adjacency(PushEntry(index, end(edge), |edges|), edges + [edge], end)
  {
    assert (edges + [edge])[..|edges|] == edges;
    forall id ensures Bucket(PushEntry(index, end(edge), |edges|), id) == Positions(edges + [edge], end, id) {
      assert Bucket(index, id) == Positions(edges, end, id);
    }
  }

  /** An edge is refused exactly when an end is missing; an accepted one keeps the indexes equal to a scan. */
  lemma AddEdgeKeepsIndexes(g: Graph, edge: Edge)
    requires WellIndexed(g)
    ensures AddEdge(g, edge).Success? <==> edge.source in g.nodes && edge.target in g.nodes
    ensures AddEdge(g, edge).Success? ==> WellIndexed(AddEdge(g, edge).value)
  {
    PushKeepsAdjacency(g.outgoing, g.edges, Source, edge);
    PushKeepsAdjacency(g.incoming, g.edges, Target, edge);
  }

  lemma EmptyIsWellIndexed()
    ensures WellIndexed(EMPTY)
  {
  }

  datatype GraphOp = NodeOp(node: GraphNode) | EdgeOp(edge: Edge)

  /** One operation; a refused edge changes nothing. */
  function Apply(g: Graph, op: GraphOp): Graph
    requires PositionsInRange(g)
  {
    match op
    case NodeOp(node) => AddNode(g, node)
    case EdgeOp(edge) => if AddEdge(g, edge).Success? then AddEdge(g, edge).value else g
  }

  /** The graph built by a sequence of operations. */
  function Build(ops: seq<GraphOp>): (g: Graph)
    ensures WellIndexed(g) && PositionsInRange(g)
  {
    if ops == [] then
      EmptyIsWellIndexed();
      EMPTY
    else
      var g := Build(ops[..|ops| - 1]);
      var op := ops[|ops| - 1];
      BuildStep(g, op);
      Apply(g, op)
  }

  lemma BuildStep(g: Graph, op: GraphOp)
    requires WellIndexed(g)
    ensures PositionsInRange(g) && WellIndexed(Apply(g, op)) && PositionsInRange(Apply(g, op))
  {
    WellIndexedInRange(g);
    match op {
      case NodeOp(node) => AddNodeKeepsIndexes(g, node);
      case EdgeOp(edge) => AddEdgeKeepsIndexes(g, edge);
    }
    WellIndexedInRange(Apply(g, op));
  }
}
