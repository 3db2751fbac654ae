/** The staged changes of one request: what each does to the graph and to the summary. */
module Mutations {
  import opened Wrappers
  import Text
  import opened GraphTypes
  import opened GraphIndex
  import opened SessionSummary

  predicate IsFactKind(kind: NodeKind) {
    kind.PathFact? || kind.MutationScopeFact? || kind.ProvenanceArtifact? || kind.DerivedInvocation?
    || kind.ExecutionSemantics? || kind.VariableBindingIntent?
  }

  type FactNode = n: GraphNode | IsFactKind(n.kind) witness GraphNode("", ExecutionSemantics(""))

  type NestedNode = n: GraphNode | n.kind.NestedPayload? witness GraphNode("", NestedPayload(0, 0, 0, 0, "", "", "", "", ""))

  datatype Mutation =
    | AddRequestAnchor(nodeId: NodeId, sessionId: string, sequenceNo: SequenceNo, rawText: string, cwdBefore: string,
                       shellKind: Payload)
    | AddTopLevelCommandInvocation(nodeId: NodeId, sessionId: string, sequenceNo: SequenceNo, commandIndex: nat,
                                   rawText: string, cwdBefore: string, shellKind: Payload)
    | AddShellStateReconciliationAnchor(nodeId: NodeId, sequenceNo: SequenceNo)
    | AddFact(sourceId: NodeId, fact: FactNode, relation: EdgeKind, semantics: Option<Payload>)
    | ReplaceProvenanceArtifact(nodeId: NodeId, artifact: Artifact)
    | AddNestedPayload(payload: NestedNode, relationFromCommand: Option<EdgeKind>,
                       relationFromParent: Option<EdgeKind>, parentId: Option<NodeId>)
    | AddExecutionUnitFlow(fromId: NodeId, toId: NodeId)
    | SetCurrentWorkingDirectory(path: string, observedAt: SequenceNo, cwdSource: CwdSource)
    | SetPositionalParameters(values: seq<Value>, observedAt: SequenceNo)
    | ForgetPositionalParameters(observedAt: SequenceNo)
    | UpsertVariableBinding(variable: Binding<Variable>)
    | UpsertAliasBinding(alias: Binding<string>)
    | UpsertFunctionBinding(definition: Binding<string>)
    | UnsetVariableBinding(name: string, observedAt: SequenceNo)
    | UnsetAliasBinding(name: string, observedAt: SequenceNo)
    | UnsetFunctionBinding(name: string, observedAt: SequenceNo)
  {
    predicate TouchesGraph() {
      !(SetPositionalParameters? || ForgetPositionalParameters? || UpsertVariableBinding? || UnsetVariableBinding?
        || UnsetFunctionBinding?)
    }

    predicate RequiresGraphAnchor() {
      TouchesGraph() && !(AddRequestAnchor? || AddTopLevelCommandInvocation? || AddShellStateReconciliationAnchor?
                          || ReplaceProvenanceArtifact?)
    }

    function ProvidedGraphAnchor(): Option<NodeId> {
      if AddRequestAnchor? || AddShellStateReconciliationAnchor? then Some(nodeId) else None
    }
  }

  // Node ids.

  function RequestAnchorId(sessionId: string, n: SequenceNo): NodeId {
    "command-request:" + sessionId + ":" + Text.Decimal(n)
  }

  function TopLevelCommandId(sessionId: string, n: SequenceNo, index: nat): NodeId {
    "command:" + sessionId + ":" + Text.Decimal(n) + ":" + Text.Decimal(index)
  }

  function ReconciliationAnchorId(sessionId: string, n: SequenceNo): NodeId {
    "shell-state-reconciliation:" + sessionId + ":" + Text.Decimal(n)
  }

  function VariableValueId(name: string, n: SequenceNo): NodeId {
    "artifact:variable-value:" + name + ":" + Text.Decimal(n)
  }

  function FunctionBindingId(name: string, n: SequenceNo): NodeId {
    "function-binding:" + name + ":" + Text.Decimal(n)
  }

  /** 64-bit FNV-1a, wrapping. */
  function Fnv(hash: bv64, bytes: seq<nat>): bv64
    decreases |bytes|
  {
    if bytes == [] then hash else Fnv(Mixed(hash, (bytes[0] % 0x100) as bv64), bytes[1..])
  }

  function Mixed(hash: bv64, byte: bv64): bv64 {
    (hash ^ byte) * 0x100_0000_01b3
  }

  /** The published value for the letter a. */
  lemma FnvOfA()
    ensures Fnv(0xcbf2_9ce4_8422_2325, [0x61]) == 0xaf63_dc4c_8601_ec8c
  {
    MixedA();
    assert (0x61 % 0x100) as bv64 == 0x61;
    assert [0x61][1..] == [];
  }

  lemma MixedA()
    ensures Mixed(0xcbf2_9ce4_8422_2325, 0x61) == 0xaf63_dc4c_8601_ec8c
  {
  }

  function Fingerprint(left: string, right: string): string {
    Text.Hex(Fnv(0xcbf2_9ce4_8422_2325, Text.Bytes(left) + [0] + Text.Bytes(right)) as nat, 16)
  }

  /** Both texts with a zero between them, in sixteen digits. */
  lemma FingerprintSpelled()
    ensures Fingerprint("a", "b") == Text.Hex(Fnv(0xcbf2_9ce4_8422_2325, [0x61, 0, 0x62]) as nat, 16)
  {
    assert Text.Bytes("a") == [0x61] && Text.Bytes("b") == [0x62];
    assert Text.Bytes("a") + [0] + Text.Bytes("b") == [0x61, 0, 0x62];
  }

  function AliasBindingId(binding: Binding<string>): NodeId {
    "alias-binding:" + binding.name + ":" + Text.Decimal(binding.observedAt) + ":"
      + Fingerprint(binding.name, binding.content)
  }

  function AliasUnsetId(name: string, n: SequenceNo): NodeId {
    "alias-mutation:" + name + ":unset:" + Text.Decimal(n)
  }

  function CwdStateId(n: SequenceNo): NodeId {
    "cwd-state:" + Text.Decimal(n)
  }

  /** The ids as they are spelled. */
  lemma IdsSpelled()
    ensures RequestAnchorId("s", 12) == "command-request:s:12"
    ensures TopLevelCommandId("s", 12, 0) == "command:s:12:0"
    ensures ReconciliationAnchorId("s", 12) == "shell-state-reconciliation:s:12"
    ensures VariableValueId("A", 12) == "artifact:variable-value:A:12"
    ensures FunctionBindingId("f", 12) == "function-binding:f:12"
    ensures AliasUnsetId("ll", 12) == "alias-mutation:ll:unset:12"
    ensures CwdStateId(12) == "cwd-state:12"
  {
    assert Text.Decimal(12 / 10) == "1";
    assert Text.Decimal(12) == "12";
    assert Text.Decimal(0) == "0";
  }

  lemma AliasIdSpelled()
    ensures AliasBindingId(Binding("ll", "ls", 12)) == "alias-binding:ll:12:" + Fingerprint("ll", "ls")
  {
    assert Text.Decimal(12) == "12" by {
      assert Text.Decimal(12 / 10) == "1";
    }
    assert "alias-binding:" + "ll" + ":" + "12" + ":" == "alias-binding:ll:12:";
  }

  // What a batch does to the graph.

  datatype Step = Put(node: GraphNode) | Replace(node: GraphNode)

  datatype BatchError = GraphFailure(error: GraphError) | ConflictingNode(id: NodeId)

  /** The nodes that a mutation puts or replaces. */
  function Steps(m: Mutation): seq<Step> {
    match m
    case AddRequestAnchor(id, s, n, text, cwd, shell) => [Put(GraphNode(id, RequestAnchor(s, n, text, cwd, shell)))]
    case AddTopLevelCommandInvocation(id, s, n, _, text, cwd, shell) =>
      [Put(GraphNode(id, CommandInvocation(s, n, text, cwd, shell)))]
    case AddShellStateReconciliationAnchor(id, n) => [Put(GraphNode(id, ShellStateReconciliationAnchor(n)))]
    case AddFact(_, fact, _, _) => [Put(fact)]
    case ReplaceProvenanceArtifact(id, artifact) => [Replace(GraphNode(id, ProvenanceArtifact(artifact)))]
    case AddNestedPayload(payload, _, _, _) => [Put(payload)]
    case AddExecutionUnitFlow(_, _) => []
    case SetCurrentWorkingDirectory(path, n, _) => [Put(GraphNode(CwdStateId(n), DirectoryState(path, n)))]
    case UpsertAliasBinding(b) => [Put(GraphNode(AliasBindingId(b), AliasBinding(b.name, b.content, b.observedAt)))]
    case UpsertFunctionBinding(b) =>
      [Put(GraphNode(FunctionBindingId(b.name, b.observedAt), FunctionBinding(b.name, b.content, b.observedAt)))]
    case UnsetAliasBinding(name, n) => [Put(GraphNode(AliasUnsetId(name, n), AliasMutation(name, "unset", n)))]
    case _ => []
  }

  /** The edges that a mutation adds, given the node that shell state changes hang from. */
  function Edges(m: Mutation, implicitSource: NodeId): seq<Edge> {
    match m
    case AddFact(source, fact, relation, semantics) => [Edge(source, fact.id, relation, semantics)]
    case AddNestedPayload(payload, fromCommand, fromParent, parent) =>
      (if fromCommand.Some? then [Edge(implicitSource, payload.id, fromCommand.value, None)] else [])
      + (if parent.Some? && fromParent.Some? then [Edge(parent.value, payload.id, fromParent.value, None)] else [])
    case AddExecutionUnitFlow(source, target) => [Edge(source, target, FlowsTo, None)]
    case SetCurrentWorkingDirectory(_, n, _) => [Edge(implicitSource, CwdStateId(n), ChangesCwdTo, Some("Produce CwdState"))]
    case UpsertAliasBinding(b) => [Edge(implicitSource, AliasBindingId(b), Defines, None)]
    case UpsertFunctionBinding(b) => [Edge(implicitSource, FunctionBindingId(b.name, b.observedAt), Defines, None)]
    case UnsetAliasBinding(name, n) => [Edge(implicitSource, AliasUnsetId(name, n), Defines, None)]
    case _ => []
  }

  /** The first staged command with index 0, else the anchor that the caller names. */
  function ImplicitSource(commandId: NodeId, batch: seq<Mutation>): NodeId {
    if batch == [] then commandId
    else if batch[0].AddTopLevelCommandInvocation? && batch[0].commandIndex == 0 then batch[0].nodeId
    else ImplicitSource(commandId, batch[1..])
  }

  function AllSteps(batch: seq<Mutation>): seq<Step> {
    if batch == [] then [] else Steps(batch[0]) + AllSteps(batch[1..])
  }

  function AllEdges(batch: seq<Mutation>, implicitSource: NodeId): seq<Edge> {
    if batch == [] then [] else Edges(batch[0], implicitSource) + AllEdges(batch[1..], implicitSource)
  }

  /** Nodes that the batch will have made available; a virtual one is known to exist but not what it is. */
  type Available = map<NodeId, Option<GraphNode>>

  function CheckStep(nodes: Nodes, available: Available, step: Step): Result<Available, BatchError> {
    var id := step.node.id;
    var staged := available[id := Some(step.node)];
    match step
    case Put(node) =>
      if id in available then
        if available[id] == Some(node) then Success(available)
        else if available[id].None? then Success(staged)
        else Failure(ConflictingNode(id))
      else if id !in nodes then Success(staged)
      else if nodes[id] == node then Success(available)
      else Failure(ConflictingNode(id))
    case Replace(node) =>
      var existing := if id in available && available[id].Some? then available[id]
                      else if id in nodes then Some(nodes[id]) else None;
      if existing.Some? && existing.value.kind.ProvenanceArtifact? && node.kind.ProvenanceArtifact? then Success(staged)
      else Failure(ConflictingNode(id))
  }

  function CheckSteps(nodes: Nodes, available: Available, steps: seq<Step>)
    : Result<Available, BatchError>
    decreases |steps|
  {
    if steps == [] then Success(available)
    else match CheckStep(nodes, available, steps[0])
      case Failure(error) => Failure(error)
      case Success(next) => CheckSteps(nodes, next, steps[1..])
  }

  function CheckEdges(nodes: Nodes, available: Available, edges: seq<Edge>): Option<BatchError>
    decreases |edges|
  {
    if edges == [] then None
    else if edges[0].source !in available && edges[0].source !in nodes
    then Some(GraphFailure(MissingSourceNode(edges[0].source)))
    else if edges[0].target !in available && edges[0].target !in nodes
    then Some(GraphFailure(MissingTargetNode(edges[0].target)))
    else CheckEdges(nodes, available, edges[1..])
  }

  function Virtual(id: Option<NodeId>): Available {
    if id.Some? then map[id.value := None] else map[]
  }

  /** Looks for a conflict or a missing end before anything is changed. */
  function ValidateBatch(nodes: Nodes, commandId: NodeId, virtual: Option<NodeId>,
                         batch: seq<Mutation>): Option<BatchError>
  {
    match CheckSteps(nodes, Virtual(virtual), AllSteps(batch))
    case Failure(error) => Some(error)
    case Success(available) => CheckEdges(nodes, available, AllEdges(batch, ImplicitSource(commandId, batch)))
  }

  function ApplyStep(g: Graph, step: Step): Graph
    requires PositionsInRange(g)
  {
    if step.Put? && step.node.id in g.nodes then g else AddNode(g, step.node)
  }

  function ApplySteps(g: Graph, steps: seq<Step>): (r: Graph)
    requires WellIndexed(g)
    ensures WellIndexed(r)
    decreases |steps|
  {
    if steps == [] then g
    else
      AddNodeKeepsIndexes(g, steps[0].node);
      ApplySteps(ApplyStep(g, steps[0]), steps[1..])
  }

  function ApplyEdges(g: Graph, edges: seq<Edge>): Result<Graph, GraphError>
    decreases |edges|
  {
    if edges == [] then Success(g)
    else match AddEdge(g, edges[0])
      case Failure(error) => Failure(error)
      case Success(next) => ApplyEdges(next, edges[1..])
  }

  /** Validates against the graph as it is, then puts and replaces all nodes, then adds all edges. */
  function ApplyBatch(g: Graph, commandId: NodeId, batch: seq<Mutation>): Result<Graph, BatchError>
    requires WellIndexed(g)
  {
    match ValidateBatch(g.nodes, commandId, None, batch)
    case Some(error) => Failure(error)
    case None =>
      match ApplyEdges(ApplySteps(g, AllSteps(batch)), AllEdges(batch, ImplicitSource(commandId, batch)))
      case Failure(error) => Failure(GraphFailure(error))
      case Success(r) => Success(r)
  }

  // What a batch does to the summary.

  /** A change to something that the runtime does not persist is skipped. */
  function ApplyLive(s: Summary, m: Mutation, can: Capabilities): Summary {
    match m
    case SetCurrentWorkingDirectory(path, n, source) => if can.cwd then SetCwd(s, Cwd(path, n, source)) else s
    case SetPositionalParameters(values, n) => if can.positionals then SetPositionals(s, values, n) else s
    case ForgetPositionalParameters(n) => if can.positionals then ForgetPositionals(s, n) else s
    case UpsertVariableBinding(b) => if can.PersistsVariable(b.content.exported) then UpsertVariable(s, b) else s
    case UpsertAliasBinding(b) => if can.aliases then UpsertAlias(s, b) else s
    case UpsertFunctionBinding(b) => if can.functions then UpsertFunction(s, b) else s
    case UnsetVariableBinding(name, n) => if can.PersistsSomeVariables() then UnsetVariable(s, name, n) else s
    case UnsetAliasBinding(name, n) => if can.aliases then UnsetAlias(s, name, n) else s
    case UnsetFunctionBinding(name, n) => if can.functions then UnsetFunction(s, name, n) else s
    case _ => s
  }

  function ApplyAllLive(s: Summary, batch: seq<Mutation>, can: Capabilities): Summary
    decreases |batch|
  {
    if batch == [] then s else ApplyAllLive(ApplyLive(s, batch[0], can), batch[1..], can)
  }
}

/** A batch that validates is applied whole; one that does not changes nothing. */
module Batches {
  import opened Wrappers
  import opened GraphTypes
  import opened GraphIndex
  import opened ExecutionSemanticsIndex
  import opened Mutations

  /** The graph's nodes, overridden by those that the batch makes available. */
  ghost predicate IsMerge(merged: Nodes, nodes: Nodes, available: Available) {
    && (forall id | id in available :: available[id].Some? && id in merged && merged[id] == available[id].value)
    && (forall id :: id in merged <==> id in available || id in nodes)
    && (forall id | id in nodes && id !in available :: merged[id] == nodes[id])
  }

  /** Only provenance artifacts are ever replaced, by provenance artifacts; so every insertion is safe. */
  lemma AddNodeSafely(g: Graph, node: GraphNode)
    requires WellIndexed(g)
    requires node.id in g.nodes ==> g.nodes[node.id].kind.ProvenanceArtifact? && node.kind.ProvenanceArtifact?
    ensures PositionsInRange(g)
    ensures AddNode(g, node).nodes == g.nodes[node.id := node] && AddNode(g, node).edges == g.edges
    ensures SemanticsAgrees(g) ==> SemanticsAgrees(AddNode(g, node))
  {
    WellIndexedInRange(g);
    assert Disciplined(g, node);
    DisciplinedIsSafe(g, node);
    if SemanticsAgrees(g) {
      AddNodeKeepsSemanticsExactly(g, node);
    }
  }

  /** Checking a step and applying it go hand in hand. */
  lemma MergeStep(nodes: Nodes, available: Available, step: Step, before: Nodes)
    requires IsMerge(before, nodes, available) && CheckStep(nodes, available, step).Success?
    ensures var after := if step.Put? && step.node.id in before then before else before[step.node.id := step.node];
            IsMerge(after, nodes, CheckStep(nodes, available, step).value)
    ensures step.node.id in before && step.Replace? ==>
              before[step.node.id].kind.ProvenanceArtifact? && step.node.kind.ProvenanceArtifact?
  {
  }

  lemma StepExact(nodes: Nodes, available: Available, step: Step, g: Graph)
    requires WellIndexed(g) && IsMerge(g.nodes, nodes, available) && CheckStep(nodes, available, step).Success?
    ensures PositionsInRange(g)
    ensures IsMerge(ApplyStep(g, step).nodes, nodes, CheckStep(nodes, available, step).value)
    ensures ApplyStep(g, step).edges == g.edges
    ensures SemanticsAgrees(g) ==> SemanticsAgrees(ApplyStep(g, step))
  {
    WellIndexedInRange(g);
    MergeStep(nodes, available, step, g.nodes);
    if !(step.Put? && step.node.id in g.nodes) {
      AddNodeSafely(g, step.node);
    }
  }

  lemma {:induction false} StepsExact(nodes: Nodes, available: Available, steps: seq<Step>, g: Graph)
    requires WellIndexed(g) && IsMerge(g.nodes, nodes, available) && CheckSteps(nodes, available, steps).Success?
    ensures IsMerge(ApplySteps(g, steps).nodes, nodes, CheckSteps(nodes, available, steps).value)
    ensures ApplySteps(g, steps).edges == g.edges
    ensures SemanticsAgrees(g) ==> SemanticsAgrees(ApplySteps(g, steps))
    decreases |steps|
  {
    if steps != [] {
      StepExact(nodes, available, steps[0], g);
      AddNodeKeepsIndexes(g, steps[0].node);
      StepsExact(nodes, CheckStep(nodes, available, steps[0]).value, steps[1..], ApplyStep(g, steps[0]));
    }
  }

  lemma {:induction false} EndsChecked(nodes: Nodes, available: Available, edges: seq<Edge>)
    ensures CheckEdges(nodes, available, edges).None? <==>
            forall e | e in edges :: (e.source in available || e.source in nodes)
                                     && (e.target in available || e.target in nodes)
    decreases |edges|
  {
    if edges != [] {
      EndsChecked(nodes, available, edges[1..]);
      assert forall e :: e in edges <==> e == edges[0] || e in edges[1..];
    }
  }

  lemma {:induction false} EdgesExact(g: Graph, edges: seq<Edge>)
    requires WellIndexed(g) && forall e | e in edges :: e.source in g.nodes && e.target in g.nodes
    ensures ApplyEdges(g, edges).Success? && Grown(g, ApplyEdges(g, edges).value, edges)
    decreases |edges|
  {
    if edges != [] {
      assert edges[0] in edges && forall e | e in edges[1..] :: e in edges;
      AddEdgeExact(g, edges[0]);
      var next := AddEdge(g, edges[0]).value;
      EdgesExact(next, edges[1..]);
      GrownTwice(g, next, ApplyEdges(next, edges[1..]).value, [edges[0]], edges[1..]);
      assert [edges[0]] + edges[1..] == edges;
    }
  }

  /** A batch fails exactly when validation does; otherwise all its nodes and edges are in, and indexes stay right. */
  lemma BatchIsAtomic(g: Graph, commandId: NodeId, batch: seq<Mutation>)
    requires WellIndexed(g)
    ensures ApplyBatch(g, commandId, batch).Failure? <==> ValidateBatch(g.nodes, commandId, None, batch).Some?
    ensures match ApplyBatch(g, commandId, batch)
            case Failure(error) => ValidateBatch(g.nodes, commandId, None, batch) == Some(error)
            case Success(r) =>
              && IsMerge(r.nodes, g.nodes, CheckSteps(g.nodes, map[], AllSteps(batch)).value)
              && r.edges == g.edges + AllEdges(batch, ImplicitSource(commandId, batch))
              && WellIndexed(r)
              && (SemanticsAgrees(g) ==> SemanticsAgrees(r))
  {
    if ValidateBatch(g.nodes, commandId, None, batch).None? {
      var steps, edges := AllSteps(batch), AllEdges(batch, ImplicitSource(commandId, batch));
      var available := CheckSteps(g.nodes, map[], steps).value;
      StepsExact(g.nodes, map[], steps, g);
      EndsChecked(g.nodes, available, edges);
      EdgesExact(ApplySteps(g, steps), edges);
    }
  }

  predicate IsPut(steps: seq<Step>, id: NodeId) {
    exists i | 0 <= i < |steps| :: steps[i].Put? && steps[i].node.id == id
  }

  lemma PutByIsPut(steps: seq<Step>, node: GraphNode)
    requires PutBy(steps, node)
    ensures IsPut(steps, node.id)
  {
  }

  /**
   * A node made available is either put by the batch or a provenance artifact; one the graph has is an artifact
   * both times.
   */
  ghost predicate Explained(nodes: Nodes, available: Available, steps: seq<Step>) {
    forall id | id in available ::
      && available[id].Some? && available[id].value.id == id
      && (if id in nodes then nodes[id].kind.ProvenanceArtifact? && available[id].value.kind.ProvenanceArtifact?
          else PutBy(steps, available[id].value))
  }

  predicate IsArtifactPut(steps: seq<Step>, id: NodeId) {
    exists i | 0 <= i < |steps| :: steps[i].Put? && steps[i].node.id == id && steps[i].node.kind.ProvenanceArtifact?
  }

  /** The node is put as it is, or is an artifact put first and replaced later. */
  predicate PutBy(steps: seq<Step>, node: GraphNode) {
    Put(node) in steps || (node.kind.ProvenanceArtifact? && IsArtifactPut(steps, node.id))
  }

  lemma ExplainedStep(nodes: Nodes, available: Available, before: seq<Step>, step: Step)
    requires Explained(nodes, available, before) && CheckStep(nodes, available, step).Success?
    ensures Explained(nodes, CheckStep(nodes, available, step).value, before + [step])
  {
    var steps, r := before + [step], CheckStep(nodes, available, step).value;
    assert steps[|before|] == step;
    forall id | IsArtifactPut(before, id) ensures IsArtifactPut(steps, id) {
      var i :| 0 <= i < |before| && before[i].Put? && before[i].node.id == id && before[i].node.kind.ProvenanceArtifact?;
      assert steps[i] == before[i];
    }
    forall node | Put(node) in before && node.kind.ProvenanceArtifact? ensures IsArtifactPut(steps, node.id) {
      var i :| 0 <= i < |before| && before[i] == Put(node);
      assert steps[i] == before[i];
    }
  }

  lemma {:induction false} ExplainedSteps(nodes: Nodes, available: Available, before: seq<Step>,
                                          steps: seq<Step>)
    requires Explained(nodes, available, before) && CheckSteps(nodes, available, steps).Success?
    ensures Explained(nodes, CheckSteps(nodes, available, steps).value, before + steps)
    decreases |steps|
  {
    if steps == [] {
      assert before + steps == before;
    } else {
      ExplainedStep(nodes, available, before, steps[0]);
      ExplainedSteps(nodes, CheckStep(nodes, available, steps[0]).value, before + [steps[0]], steps[1..]);
      assert before + [steps[0]] + steps[1..] == before + steps;
    }
  }

  /** What a committed batch may have done to the node of an id. */
  ghost predicate NodeKept(before: Nodes, after: Nodes, steps: seq<Step>,
                           id: NodeId) {
    && (id in before ==> id in after && (after[id] == before[id]
                                         || (before[id].kind.ProvenanceArtifact? && after[id].kind.ProvenanceArtifact?)))
    && (id in after && id !in before ==> after[id].id == id && PutBy(steps, after[id]))
  }

  ghost predicate AllKept(before: Nodes, after: Nodes, steps: seq<Step>) {
    forall id :: NodeKept(before, after, steps, id)
  }

  lemma BatchKeepsNodes(g: Graph, commandId: NodeId, batch: seq<Mutation>)
    requires WellIndexed(g) && ApplyBatch(g, commandId, batch).Success?
    ensures AllKept(g.nodes, ApplyBatch(g, commandId, batch).value.nodes, AllSteps(batch))
  {
    BatchIsAtomic(g, commandId, batch);
    assert Explained(g.nodes, map[], []);
    ExplainedSteps(g.nodes, map[], [], AllSteps(batch));
    assert [] + AllSteps(batch) == AllSteps(batch);
    var available := CheckSteps(g.nodes, map[], AllSteps(batch)).value;
    var after := ApplyBatch(g, commandId, batch).value.nodes;
    forall id ensures NodeKept(g.nodes, after, AllSteps(batch), id) {
      KeptAt(g.nodes, after, available, AllSteps(batch), id);
    }
  }

  lemma KeptAt(before: Nodes, after: Nodes, available: Available, steps: seq<Step>,
               id: NodeId)
    requires IsMerge(after, before, available) && Explained(before, available, steps)
    ensures NodeKept(before, after, steps, id)
  {
  }

  /** Every node that a batch puts is there afterwards. */
  lemma {:induction false} PutsArePresent(nodes: Nodes, available: Available, steps: seq<Step>,
                                          id: NodeId)
    requires CheckSteps(nodes, available, steps).Success?
    ensures id in available ==> id in CheckSteps(nodes, available, steps).value
    ensures IsPut(steps, id) ==> id in CheckSteps(nodes, available, steps).value || id in nodes
    decreases |steps|
  {
    if steps != [] {
      PutsArePresent(nodes, CheckStep(nodes, available, steps[0]).value, steps[1..], id);
      if IsPut(steps, id) {
        var i :| 0 <= i < |steps| && steps[i].Put? && steps[i].node.id == id;
        assert i > 0 ==> steps[1..][i - 1] == steps[i];
      }
    }
  }

  /** A step comes from some mutation of the batch. */
  lemma {:induction false} StepOrigin(batch: seq<Mutation>, step: Step) returns (m: Mutation)
    requires step in AllSteps(batch)
    ensures m in batch && step in Steps(m)
  {
    if step in Steps(batch[0]) {
      m := batch[0];
    } else {
      m := StepOrigin(batch[1..], step);
    }
  }

  lemma {:induction false} StepsIncluded(batch: seq<Mutation>, m: Mutation, step: Step)
    requires m in batch && step in Steps(m)
    ensures step in AllSteps(batch)
  {
    if m != batch[0] {
      StepsIncluded(batch[1..], m, step);
    }
  }

  /** Putting something else where the graph has a node that is no artifact never validates. */
  lemma {:induction false} PutConflicts(nodes: Nodes, available: Available, steps: seq<Step>,
                                        node: GraphNode)
    requires CheckSteps(nodes, available, steps).Success? && Put(node) in steps
    requires node.id in nodes && node.id !in available && !nodes[node.id].kind.ProvenanceArtifact?
    ensures nodes[node.id] == node
    decreases |steps|
  {
    if steps[0] != Put(node) {
      PutConflicts(nodes, CheckStep(nodes, available, steps[0]).value, steps[1..], node);
    }
  }
}
