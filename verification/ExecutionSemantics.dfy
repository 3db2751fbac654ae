/** The one index that depends on edges and on the kinds of other nodes. */
module ExecutionSemanticsIndex {
  import opened Wrappers
  import opened GraphTypes
  import opened GraphIndex

  /** Some edge says that a unit of sequence `s` defines `id`. */
  ghost predicate DefinedBy(nodes: Nodes, edges: seq<Edge>, id: NodeId, s: SequenceNo) {
    exists i | 0 <= i < |edges| ::
      edges[i].kind == Defines && edges[i].target == id && UnitSequenceNo(nodes, edges[i].source) == Some(s)
  }

  /** What a scan would file under `s`. */
  ghost predicate Scanned(nodes: Nodes, edges: seq<Edge>, s: SequenceNo, id: NodeId) {
    id in nodes && IsSemantics(nodes[id].kind) && DefinedBy(nodes, edges, id, s)
  }

  /** Each node sits exactly once under each sequence number whose unit defines it, and nowhere else. */
  ghost predicate Matches(index: map<SequenceNo, seq<NodeId>>, nodes: Nodes, edges: seq<Edge>) {
    && Clean(index)
    && forall s, id :: InBucket(index, s, id) <==> Scanned(nodes, edges, s, id)
  }

  ghost predicate SemanticsAgrees(g: Graph) {
    Matches(g.semantics, g.nodes, g.edges)
  }

  lemma {:induction false} FirstIsDefining(nodes: Nodes, edges: seq<Edge>, positions: seq<nat>)
    requires forall i | 0 <= i < |positions| :: positions[i] < |edges|
    ensures var first := FirstDefiningSequenceNo(nodes, edges, positions);
            && (first.Some? ==> exists p | p in positions :: p < |edges| && edges[p].kind == Defines
                                   && UnitSequenceNo(nodes, edges[p].source) == first)
            && (first.None? ==> forall p | p in positions :: p < |edges| && !(edges[p].kind == Defines
                                   && UnitSequenceNo(nodes, edges[p].source).Some?))
  {
    if positions != [] {
      FirstIsDefining(nodes, edges, positions[1..]);
      assert forall p :: p in positions <==> p == positions[0] || p in positions[1..];
    }
  }

  /** The number that removal and re-indexing look at is one that defines the node, if any does. */
  lemma FirstDefines(g: Graph, nodes: Nodes, id: NodeId)
    requires WellIndexed(g)
    ensures PositionsInRange(g)
    ensures match SemanticsSequenceNo(g, nodes, id)
            case Some(s) => DefinedBy(nodes, g.edges, id, s)
            case None => forall s :: !DefinedBy(nodes, g.edges, id, s)
  {
    WellIndexedInRange(g);
    var positions := Bucket(g.incoming, id);
    assert positions == Positions(g.edges, Target, id);
    FirstIsDefining(nodes, g.edges, positions);
    forall s, i | SemanticsSequenceNo(g, nodes, id).None? && 0 <= i < |g.edges| && g.edges[i].target == id
      ensures !(g.edges[i].kind == Defines && UnitSequenceNo(nodes, g.edges[i].source) == Some(s))
    {
      assert i in positions;
    }
  }

  /** What the replacement must leave alone for one node and one sequence number; no index is mentioned. */
  ghost predicate SafeAt(g: Graph, node: GraphNode, s: SequenceNo, x: NodeId)
    requires PositionsInRange(g) && node.id in g.nodes
  {
    var nodes := g.nodes[node.id := node];
    var defined, redefined := DefinedBy(g.nodes, g.edges, x, s), DefinedBy(nodes, g.edges, x, s);
    var before, after := IsSemantics(g.nodes[node.id].kind), IsSemantics(node.kind);
    var first := SemanticsSequenceNo(g, nodes, node.id);
    if x != node.id then x in g.nodes && IsSemantics(g.nodes[x].kind) ==> (redefined <==> defined)
    else if before && !after then defined ==> first == Some(s)
    else if !before && after then redefined ==> first == Some(s)
    else true
  }

  /** What `AddNode` can be asked to do without the index going stale. */
  ghost predicate SafeReplacement(g: Graph, node: GraphNode)
    requires PositionsInRange(g)
  {
    node.id in g.nodes ==> forall s, x :: SafeAt(g, node, s, x)
  }

  /** Replacing one semantics node by another leaves its own defining units alone. */
  lemma OwnKindIrrelevant(g: Graph, node: GraphNode, s: SequenceNo)
    requires node.id in g.nodes && IsSemantics(g.nodes[node.id].kind) && IsSemantics(node.kind)
    ensures DefinedBy(g.nodes[node.id := node], g.edges, node.id, s) <==> DefinedBy(g.nodes, g.edges, node.id, s)
  {
    assert forall x :: UnitSequenceNo(g.nodes[node.id := node], x) == UnitSequenceNo(g.nodes, x);
  }

  /** A node that no edge mentions is defined by nothing and defines nothing. */
  lemma FreshNode(g: Graph, node: GraphNode, x: NodeId, s: SequenceNo)
    requires WellIndexed(g) && node.id !in g.nodes
    ensures DefinedBy(g.nodes[node.id := node], g.edges, x, s) <==> DefinedBy(g.nodes, g.edges, x, s)
    ensures !DefinedBy(g.nodes[node.id := node], g.edges, node.id, s)
  {
    assert forall i | 0 <= i < |g.edges| :: g.edges[i] in g.edges;
  }

  /** Membership after moving `id` from key `before` to key `after`. */
  ghost predicate Moved(g: Graph, id: NodeId, before: Option<SequenceNo>, after: Option<SequenceNo>,
                        s: SequenceNo, x: NodeId) {
    if x == id then (Scanned(g.nodes, g.edges, s, x) && before != Some(s)) || after == Some(s)
    else Scanned(g.nodes, g.edges, s, x)
  }

  /** Where `AddNode` takes the node out and where it puts it back. */
  function SemanticsMove(g: Graph, node: GraphNode): (Option<SequenceNo>, Option<SequenceNo>)
    requires PositionsInRange(g)
  {
    var nodes := g.nodes[node.id := node];
    (SemanticsKeyBefore(g, nodes, node.id), SemanticsKey(g, nodes, node))
  }

  ghost predicate MoveMatches(g: Graph, node: GraphNode, s: SequenceNo, x: NodeId)
    requires PositionsInRange(g)
  {
    Moved(g, node.id, SemanticsMove(g, node).0, SemanticsMove(g, node).1, s, x)
    <==> Scanned(g.nodes[node.id := node], g.edges, s, x)
  }

  /** After the move the index matches a scan exactly when moving is what a scan would see. */
  lemma MatchesAfterMove(g: Graph, node: GraphNode)
    requires WellIndexed(g) && SemanticsAgrees(g) && PositionsInRange(g)
    ensures var (before, after) := SemanticsMove(g, node);
            Matches(Rekey(g.semantics, before, after, node.id), g.nodes[node.id := node], g.edges)
            <==> forall s, x :: MoveMatches(g, node, s, x)
  {
    var (before, after) := SemanticsMove(g, node);
    var index, nodes := Rekey(g.semantics, before, after, node.id), g.nodes[node.id := node];
    if after.Some? && InBucket(g.semantics, after.value, node.id) {
      assert Scanned(g.nodes, g.edges, after.value, node.id);
    }
    RekeyMembership(g.semantics, before, after, node.id);
    forall s: SequenceNo, x
      ensures MoveMatches(g, node, s, x) <==> (InBucket(index, s, x) <==> Scanned(nodes, g.edges, s, x))
    {
      assert InBucket(g.semantics, s, x) <==> Scanned(g.nodes, g.edges, s, x);
    }
  }

  /** For one node and one number, the move is what a scan sees exactly when the replacement is safe there. */
  lemma SafeMember(g: Graph, node: GraphNode, s: SequenceNo, x: NodeId)
    requires WellIndexed(g) && PositionsInRange(g)
    ensures node.id !in g.nodes ==> MoveMatches(g, node, s, x)
    ensures node.id in g.nodes ==> (MoveMatches(g, node, s, x) <==> SafeAt(g, node, s, x))
  {
    if node.id in g.nodes {
      HeldMember(g, node, s, x);
    } else {
      FreshMember(g, node, s, x);
    }
  }

  lemma FreshMember(g: Graph, node: GraphNode, s: SequenceNo, x: NodeId)
    requires WellIndexed(g) && PositionsInRange(g) && node.id !in g.nodes
    ensures MoveMatches(g, node, s, x)
  {
    FirstDefines(g, g.nodes[node.id := node], node.id);
    FreshNode(g, node, x, s);
  }

  lemma HeldMember(g: Graph, node: GraphNode, s: SequenceNo, x: NodeId)
    requires WellIndexed(g) && PositionsInRange(g) && node.id in g.nodes
    ensures MoveMatches(g, node, s, x) <==> SafeAt(g, node, s, x)
  {
    if x == node.id {
      HeldItself(g, node, s);
    }
  }

  lemma HeldItself(g: Graph, node: GraphNode, s: SequenceNo)
    requires WellIndexed(g) && PositionsInRange(g) && node.id in g.nodes
    ensures MoveMatches(g, node, s, node.id) <==> SafeAt(g, node, s, node.id)
  {
    FirstDefines(g, g.nodes[node.id := node], node.id);
    if IsSemantics(g.nodes[node.id].kind) && IsSemantics(node.kind) {
      OwnKindIrrelevant(g, node, s);
    }
  }

  /** Inserting or replacing a node keeps this index equal to a scan exactly when the replacement is safe. */
  lemma AddNodeKeepsSemanticsExactly(g: Graph, node: GraphNode)
    requires WellIndexed(g) && SemanticsAgrees(g)
    ensures PositionsInRange(g)
    ensures SemanticsAgrees(AddNode(g, node)) <==> SafeReplacement(g, node)
  {
    WellIndexedInRange(g);
    MatchesAfterMove(g, node);
    var (before, after) := SemanticsMove(g, node);
    assert AddNode(g, node).semantics == Rekey(g.semantics, before, after, node.id);
    SafeEverywhere(g, node);
  }

  lemma SafeEverywhere(g: Graph, node: GraphNode)
    requires WellIndexed(g) && PositionsInRange(g)
    ensures SafeReplacement(g, node) <==> forall s, x :: MoveMatches(g, node, s, x)
  {
    forall s, x ensures MoveMatches(g, node, s, x) <==> (node.id in g.nodes ==> SafeAt(g, node, s, x)) {
      SafeMember(g, node, s, x);
    }
  }

  /** A new edge always keeps this index equal to a scan. */
  lemma AddEdgeKeepsSemantics(g: Graph, edge: Edge)
    requires SemanticsAgrees(g) && AddEdge(g, edge).Success?
    ensures SemanticsAgrees(AddEdge(g, edge).value)
  {
    var g' := AddEdge(g, edge).value;
    var key := NewSemanticsKey(g.nodes, edge);
    forall x, s: SequenceNo ensures DefinedBy(g'.nodes, g'.edges, x, s) <==>
        DefinedBy(g.nodes, g.edges, x, s)
        || (edge.kind == Defines && edge.target == x && UnitSequenceNo(g.nodes, edge.source) == Some(s))
    {
      assert g'.edges[|g.edges|] == edge;
      forall i | 0 <= i < |g.edges| ensures g'.edges[i] == g.edges[i] {}
    }
    if key.Some? && !InBucket(g.semantics, key.value, edge.target) {
      RekeyMembership(g.semantics, None, key, edge.target);
      assert g'.semantics == Rekey(g.semantics, None, key, edge.target);
    }
  }

  /** `r` is `g` with these edges appended, and its indexes are no worse. */
  ghost predicate Grown(g: Graph, r: Graph, edges: seq<Edge>) {
    r.nodes == g.nodes && r.edges == g.edges + edges && WellIndexed(r) && (SemanticsAgrees(g) ==> SemanticsAgrees(r))
  }

  lemma GrownTwice(g: Graph, h: Graph, r: Graph, a: seq<Edge>, b: seq<Edge>)
    requires Grown(g, h, a) && Grown(h, r, b)
    ensures Grown(g, r, a + b)
  {
    assert g.edges + a + b == g.edges + (a + b);
  }

  /** An edge between nodes of the graph is accepted, appended, and changes no node. */
  lemma AddEdgeExact(g: Graph, edge: Edge)
    requires WellIndexed(g) && edge.source in g.nodes && edge.target in g.nodes
    ensures AddEdge(g, edge).Success? && Grown(g, AddEdge(g, edge).value, [edge])
  {
    AddEdgeKeepsIndexes(g, edge);
    if SemanticsAgrees(g) {
      AddEdgeKeepsSemantics(g, edge);
    }
  }

  /** A replacement that keeps the unit's sequence number and keeps whether the node is an execution-semantics node. */
  predicate Disciplined(g: Graph, node: GraphNode) {
    node.id in g.nodes ==>
      && UnitSequenceNo(g.nodes, node.id) == UnitSequenceNo(g.nodes[node.id := node], node.id)
      && IsSemantics(g.nodes[node.id].kind) == IsSemantics(node.kind)
  }

  lemma DisciplinedIsSafe(g: Graph, node: GraphNode)
    requires PositionsInRange(g) && Disciplined(g, node)
    ensures SafeReplacement(g, node)
  {
    if node.id in g.nodes {
      assert forall x :: UnitSequenceNo(g.nodes[node.id := node], x) == UnitSequenceNo(g.nodes, x);
    }
  }

  /** Every replacement in the sequence is safe for the graph it meets. */
  ghost predicate SafeOps(ops: seq<GraphOp>) {
    ops != [] ==>
      && SafeOps(ops[..|ops| - 1])
      && (ops[|ops| - 1].NodeOp? ==> SafeReplacement(Build(ops[..|ops| - 1]), ops[|ops| - 1].node))
  }

  /** Any graph built by safe operations answers semantics queries as a scan does. */
  lemma {:induction false} BuildKeepsSemantics(ops: seq<GraphOp>)
    requires SafeOps(ops)
    ensures SemanticsAgrees(Build(ops))
  {
    if ops != [] {
      BuildKeepsSemantics(ops[..|ops| - 1]);
      var g, op := Build(ops[..|ops| - 1]), ops[|ops| - 1];
      match op {
        case NodeOp(node) => AddNodeKeepsSemanticsExactly(g, node);
        case EdgeOp(edge) =>
          if AddEdge(g, edge).Success? {
            AddEdgeKeepsSemantics(g, edge);
          }
      }
    }
  }

  // What the indexes answer, told from nodes and edges only.

  /** The node indexes by sequence number. */
  lemma SequenceBucketsExactly(g: Graph)
    requires WellIndexed(g)
    ensures forall s, x :: InBucket(g.commands, s, x) <==>
              x in g.nodes && g.nodes[x].kind.CommandInvocation? && g.nodes[x].kind.sequenceNo == s
    ensures forall s, x :: InBucket(g.derived, s, x) <==>
              x in g.nodes && g.nodes[x].kind.DerivedInvocation? && g.nodes[x].kind.rootSequenceNo == s
    ensures forall s, x :: InBucket(g.nested, s, x) <==>
              x in g.nodes && g.nodes[x].kind.NestedPayload? && g.nodes[x].kind.rootSequenceNo == s
  {
  }

  /** The resolution says exactly this path: found as such, by a tool's convention, or derived. */
  predicate NamesPath(resolution: PathResolution, path: string) {
    || resolution == PathResolution.Concrete(path)
    || (resolution.ToolConvention? && resolution.path == path)
    || (resolution.DerivedConcrete? && resolution.path == path)
  }

  /** The lists of path facts and path contents, and their indexes by path. */
  lemma PathBucketsExactly(g: Graph)
    requires WellIndexed(g)
    ensures forall x :: x in g.pathFacts <==> x in g.nodes && g.nodes[x].kind.PathFact?
    ensures forall p, x :: InBucket(g.pathFactsAt, p, x) <==>
              x in g.nodes && g.nodes[x].kind.PathFact? && NamesPath(g.nodes[x].kind.pathResolution, p)
    ensures forall x :: x in g.contents <==>
              x in g.nodes && g.nodes[x].kind.ProvenanceArtifact? && g.nodes[x].kind.artifact.PathContent?
    ensures forall p, x :: InBucket(g.contentsAt, p, x) <==>
              x in g.nodes && exists version :: g.nodes[x].kind == ProvenanceArtifact(PathContent(p, version))
  {
    forall p, x
      ensures InBucket(g.contentsAt, p, x) <==>
              x in g.nodes && exists version :: g.nodes[x].kind == ProvenanceArtifact(PathContent(p, version))
    {
      if x in g.nodes && ContentKey(g.nodes[x].kind) == Some(p) {
        assert g.nodes[x].kind == ProvenanceArtifact(PathContent(p, g.nodes[x].kind.artifact.contentVersion));
      }
    }
  }

  /** The adjacency lists: the positions of the edges from a node, and of those into it, ascending. */
  lemma AdjacencyExactly(g: Graph, id: NodeId)
    requires WellIndexed(g)
    ensures var (from, into) := (Bucket(g.outgoing, id), Bucket(g.incoming, id));
            && (forall i: nat :: i in from <==> i < |g.edges| && g.edges[i].source == id)
            && (forall i: nat :: i in into <==> i < |g.edges| && g.edges[i].target == id)
            && (forall i, j | 0 <= i < j < |from| :: from[i] < from[j])
            && (forall i, j | 0 <= i < j < |into| :: into[i] < into[j])
  {
    assert Bucket(g.outgoing, id) == Positions(g.edges, Source, id);
    assert Bucket(g.incoming, id) == Positions(g.edges, Target, id);
  }

  /** The kind is that of an execution unit of sequence `s`: a command's own number, a derived invocation's root's. */
  predicate UnitOf(kind: NodeKind, s: SequenceNo) {
    || (kind.CommandInvocation? && kind.sequenceNo == s)
    || (kind.DerivedInvocation? && kind.rootSequenceNo == s)
  }

  /** Some edge says that a unit of sequence `s` defines `x`, which the graph has as a semantics node. */
  ghost predicate DefinedIn(g: Graph, s: SequenceNo, x: NodeId) {
    && x in g.nodes && g.nodes[x].kind.ExecutionSemantics?
    && exists i | 0 <= i < |g.edges| && g.edges[i].target == x && g.edges[i].source in g.nodes ::
         g.edges[i].kind == Defines && UnitOf(g.nodes[g.edges[i].source].kind, s)
  }

  lemma SemanticsBucketsExactly(g: Graph)
    requires SemanticsAgrees(g)
    ensures forall s: SequenceNo, x :: InBucket(g.semantics, s, x) <==> DefinedIn(g, s, x)
  {
    forall s: SequenceNo, x ensures InBucket(g.semantics, s, x) <==> DefinedIn(g, s, x) {
      forall i | 0 <= i < |g.edges|
        ensures UnitSequenceNo(g.nodes, g.edges[i].source) == Some(s)
                <==> g.edges[i].source in g.nodes && UnitOf(g.nodes[g.edges[i].source].kind, s)
      {
      }
      assert x in g.nodes && g.nodes[x].kind.ExecutionSemantics? ==>
          (DefinedBy(g.nodes, g.edges, x, s) <==> DefinedIn(g, s, x));
    }
  }

  /** Of every graph that safe operations build: a node is filed under a number exactly when a unit of it defines it. */
  lemma BuildFilesExactly(ops: seq<GraphOp>)
    requires SafeOps(ops)
    ensures var g := Build(ops); forall s: SequenceNo, x :: InBucket(g.semantics, s, x) <==> DefinedIn(g, s, x)
  {
    BuildKeepsSemantics(ops);
    SemanticsBucketsExactly(Build(ops));
  }

  // Replacements that leave stale entries.

  function Command(id: NodeId, s: SequenceNo): GraphNode {
    GraphNode(id, CommandInvocation("s", s, "", "", "Bash"))
  }

  /** Safe operations can build these nodes and edges. */
  ghost predicate Buildable(nodes: Nodes, edges: seq<Edge>) {
    exists ops: seq<GraphOp> :: SafeOps(ops) && Build(ops).nodes == nodes && Build(ops).edges == edges
  }

  lemma BuildPush(ops: seq<GraphOp>, op: GraphOp)
    ensures Build(ops + [op]) == Apply(Build(ops), op)
    ensures SafeOps(ops) && (op.NodeOp? ==> SafeReplacement(Build(ops), op.node)) ==> SafeOps(ops + [op])
  {
    assert (ops + [op])[..|ops|] == ops;
  }

  lemma GrowNode(nodes: Nodes, edges: seq<Edge>, node: GraphNode)
    requires Buildable(nodes, edges) && node.id !in nodes
    ensures Buildable(nodes[node.id := node], edges)
  {
    var ops: seq<GraphOp> :| SafeOps(ops) && Build(ops).nodes == nodes && Build(ops).edges == edges;
    BuildPush(ops, NodeOp(node));
    AddedNode(Build(ops), node);
    BuildableBy(ops + [NodeOp(node)]);
  }

  lemma GrowEdge(nodes: Nodes, edges: seq<Edge>, edge: Edge)
    requires Buildable(nodes, edges) && edge.source in nodes && edge.target in nodes
    ensures Buildable(nodes, edges + [edge])
  {
    var ops: seq<GraphOp> :| SafeOps(ops) && Build(ops).nodes == nodes && Build(ops).edges == edges;
    BuildPush(ops, EdgeOp(edge));
    AddedEdge(Build(ops), edge);
    BuildableBy(ops + [EdgeOp(edge)]);
  }

  lemma BuildableBy(ops: seq<GraphOp>)
    requires SafeOps(ops)
    ensures Buildable(Build(ops).nodes, Build(ops).edges)
  {
  }

  lemma AddedNode(g: Graph, node: GraphNode)
    requires WellIndexed(g) && node.id !in g.nodes
    ensures PositionsInRange(g) && SafeReplacement(g, node)
    ensures Apply(g, NodeOp(node)).nodes == g.nodes[node.id := node] && Apply(g, NodeOp(node)).edges == g.edges
  {
    WellIndexedInRange(g);
  }

  lemma AddedEdge(g: Graph, edge: Edge)
    requires WellIndexed(g) && edge.source in g.nodes && edge.target in g.nodes
    ensures PositionsInRange(g)
    ensures Apply(g, EdgeOp(edge)).nodes == g.nodes && Apply(g, EdgeOp(edge)).edges == g.edges + [edge]
  {
    WellIndexedInRange(g);
  }

  lemma EmptyBuildable()
    ensures Buildable(map[], [])
  {
    assert SafeOps([]) && Build([]).nodes == map[] && Build([]).edges == [];
  }

  const TO_X: seq<Edge> := [Edge("a", "x", Defines, None), Edge("b", "x", Defines, None)]

  const DEFINED_TWICE: Nodes :=
    map["a" := Command("a", 1), "b" := Command("b", 2), "x" := GraphNode("x", ExecutionSemantics(""))]

  /** Two commands define one semantics node. */
  lemma TwiceDefined()
    ensures Buildable(DEFINED_TWICE, TO_X)
  {
    ThreeNodes();
    TwoEdges(DEFINED_TWICE, TO_X[0], TO_X[1]);
  }

  lemma TwoEdges(nodes: Nodes, first: Edge, second: Edge)
    requires Buildable(nodes, []) && first.source in nodes && first.target in nodes
    requires second.source in nodes && second.target in nodes
    ensures Buildable(nodes, [first, second])
  {
    assert [] + [first] == [first] && [first] + [second] == [first, second];
    GrowEdge(nodes, [], first);
    GrowEdge(nodes, [first], second);
  }

  lemma ThreeNodes()
    ensures Buildable(DEFINED_TWICE, [])
  {
    var a, b, x := DEFINED_TWICE["a"], DEFINED_TWICE["b"], DEFINED_TWICE["x"];
    EmptyBuildable();
    GrowNode(map[], [], a);
    GrowNode(map[][a.id := a], [], b);
    GrowNode(map[][a.id := a][b.id := b], [], x);
    assert DEFINED_TWICE == map[][a.id := a][b.id := b][x.id := x];
  }

  /**
   * Each half of the discipline is needed: renumbering a unit, and giving up the semantics kind, leave stale
   * entries.
   */
  lemma DisciplineIsNeeded() returns (ops: seq<GraphOp>)
    ensures SafeOps(ops) && SemanticsAgrees(Build(ops))
    ensures !SemanticsAgrees(AddNode(Build(ops), Command("a", 3)))
    ensures !SemanticsAgrees(AddNode(Build(ops), GraphNode("x", DecisionRecord("", ""))))
  {
    TwiceDefined();
    ops :| SafeOps(ops) && Build(ops).nodes == DEFINED_TWICE && Build(ops).edges == TO_X;
    BuildKeepsSemantics(ops);
    StaleEntries(Build(ops));
    AddNodeKeepsSemanticsExactly(Build(ops), Command("a", 3));
    AddNodeKeepsSemanticsExactly(Build(ops), GraphNode("x", DecisionRecord("", "")));
  }

  lemma StaleEntries(g: Graph)
    requires WellIndexed(g) && PositionsInRange(g) && g.edges == TO_X && g.nodes == DEFINED_TWICE
    ensures !SafeReplacement(g, Command("a", 3))
    ensures !SafeReplacement(g, GraphNode("x", DecisionRecord("", "")))
  {
    BothDefine(g.nodes, g.edges);
    RenumberedUnit(g);
    assert !SafeAt(g, Command("a", 3), 1, "x");
    DemotedNode(g, GraphNode("x", DecisionRecord("", "")));
  }

  lemma BothDefine(nodes: Nodes, edges: seq<Edge>)
    requires edges == TO_X && nodes == DEFINED_TWICE
    ensures DefinedBy(nodes, edges, "x", 1) && DefinedBy(nodes, edges, "x", 2)
  {
    assert edges[0].kind == Defines && edges[1].kind == Defines;
    assert UnitSequenceNo(nodes, edges[0].source) == Some(1) && UnitSequenceNo(nodes, edges[1].source) == Some(2);
  }

  /** Removal looks at one defining edge, so with two of them one entry stays behind. */
  lemma DemotedNode(g: Graph, demoted: GraphNode)
    requires PositionsInRange(g) && demoted.id in g.nodes
    requires IsSemantics(g.nodes[demoted.id].kind) && !IsSemantics(demoted.kind)
    requires DefinedBy(g.nodes, g.edges, demoted.id, 1) && DefinedBy(g.nodes, g.edges, demoted.id, 2)
    ensures !SafeReplacement(g, demoted)
  {
    assert !SafeAt(g, demoted, 1, demoted.id) || !SafeAt(g, demoted, 2, demoted.id);
  }

  lemma RenumberedUnit(g: Graph)
    requires g.edges == TO_X && g.nodes == DEFINED_TWICE
    ensures !DefinedBy(g.nodes["a" := Command("a", 3)], g.edges, "x", 1)
  {
  }
}
