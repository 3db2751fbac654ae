/** What a committed batch leaves in the graph, mutation by mutation, told without the functions that apply it. */
module CommitResults {
  import opened Wrappers
  import Text
  import opened GraphTypes
  import opened GraphIndex
  import opened SessionSummary
  import opened Mutations
  import opened Batches
  import opened Reconciliation
  import opened UpdateOrder
  import opened Sessions
  import opened CoreRuns
  import RunProperties
  import opened CwdOnce
  import opened Refusals
  import opened RefusedRuns

  // What shell state changes hang from.

  predicate FirstCommand(m: Mutation) {
    m.AddTopLevelCommandInvocation? && m.commandIndex == 0
  }

  /** The node of the first staged command with index 0, and only without one the given anchor. */
  ghost predicate HangsFrom(batch: seq<Mutation>, anchorId: NodeId, source: NodeId) {
    if exists i | 0 <= i < |batch| :: FirstCommand(batch[i]) then
      exists i | 0 <= i < |batch| ::
        FirstCommand(batch[i]) && batch[i].nodeId == source && forall j | 0 <= j < i :: !FirstCommand(batch[j])
    else source == anchorId
  }

  lemma {:induction false} SourceIsFirst(batch: seq<Mutation>, anchorId: NodeId)
    ensures HangsFrom(batch, anchorId, ImplicitSource(anchorId, batch))
  {
    if batch != [] && !FirstCommand(batch[0]) {
      var rest := batch[1..];
      SourceIsFirst(rest, anchorId);
      forall i | 0 <= i < |rest| ensures rest[i] == batch[i + 1] {
      }
      if i :| 0 <= i < |rest| && FirstCommand(rest[i]) && rest[i].nodeId == ImplicitSource(anchorId, rest)
              && forall j | 0 <= j < i :: !FirstCommand(rest[j]) {
        assert FirstCommand(batch[i + 1]) && forall j | 0 <= j < i + 1 :: !FirstCommand(batch[j]);
      } else {
        assert forall i | 0 <= i < |batch| :: !FirstCommand(batch[i]);
      }
    }
  }

  // Mutation by mutation.

  /** The edge is one that the mutation asks for. */
  predicate AsksForEdge(m: Mutation, source: NodeId, e: Edge) {
    match m
    case AddFact(from, fact, relation, semantics) => e == Edge(from, fact.id, relation, semantics)
    case AddNestedPayload(payload, fromCommand, fromParent, parent) =>
      || (fromCommand.Some? && e == Edge(source, payload.id, fromCommand.value, None))
      || (fromParent.Some? && parent.Some? && e == Edge(parent.value, payload.id, fromParent.value, None))
    case AddExecutionUnitFlow(from, to) => e == Edge(from, to, FlowsTo, None)
    case SetCurrentWorkingDirectory(_, n, _) => e == Edge(source, CwdStateId(n), ChangesCwdTo, Some("Produce CwdState"))
    case UpsertAliasBinding(b) => e == Edge(source, AliasBindingId(b), Defines, None)
    case UpsertFunctionBinding(b) => e == Edge(source, FunctionBindingId(b.name, b.observedAt), Defines, None)
    case UnsetAliasBinding(name, n) => e == Edge(source, AliasUnsetId(name, n), Defines, None)
    case _ => false
  }

  lemma {:induction false} EdgesAskedFor(batch: seq<Mutation>, source: NodeId)
    ensures forall e :: e in AllEdges(batch, source) <==> exists m | m in batch :: AsksForEdge(m, source, e)
  {
    if batch != [] {
      EdgesAskedFor(batch[1..], source);
      assert forall m :: m in batch <==> m == batch[0] || m in batch[1..];
      forall e ensures e in Edges(batch[0], source) <==> AsksForEdge(batch[0], source, e) {
        EdgesOfOne(batch[0], source, e);
      }
    }
  }

  lemma EdgesOfOne(m: Mutation, source: NodeId, e: Edge)
    ensures e in Edges(m, source) <==> AsksForEdge(m, source, e)
  {
  }

  predicate Replaces(m: Mutation, id: NodeId) {
    m.ReplaceProvenanceArtifact? && m.nodeId == id
  }

  predicate Has(nodes: Nodes, id: NodeId, kind: NodeKind) {
    id in nodes && nodes[id] == GraphNode(id, kind)
  }

  /** The graph has the node that the mutation leaves; only a later replacement of an artifact may have changed it. */
  predicate HasNodeOf(nodes: Nodes, m: Mutation, before: seq<Mutation>, after: seq<Mutation>) {
    match m
    case AddRequestAnchor(id, s, n, text, cwd, shell) => Has(nodes, id, RequestAnchor(s, n, text, cwd, shell))
    case AddTopLevelCommandInvocation(id, s, n, _, text, cwd, shell) =>
      Has(nodes, id, CommandInvocation(s, n, text, cwd, shell))
    case AddShellStateReconciliationAnchor(id, n) => Has(nodes, id, ShellStateReconciliationAnchor(n))
    case AddFact(_, fact, _, _) =>
      (forall r | r in before + after :: !Replaces(r, fact.id)) ==> Has(nodes, fact.id, fact.kind)
    case ReplaceProvenanceArtifact(id, artifact) =>
      (forall r | r in after :: !Replaces(r, id)) ==> Has(nodes, id, ProvenanceArtifact(artifact))
    case AddNestedPayload(payload, _, _, _) => Has(nodes, payload.id, payload.kind)
    case SetCurrentWorkingDirectory(path, n, _) => Has(nodes, CwdStateId(n), DirectoryState(path, n))
    case UpsertAliasBinding(b) => Has(nodes, AliasBindingId(b), AliasBinding(b.name, b.content, b.observedAt))
    case UpsertFunctionBinding(b) =>
      Has(nodes, FunctionBindingId(b.name, b.observedAt), FunctionBinding(b.name, b.content, b.observedAt))
    case UnsetAliasBinding(name, n) => Has(nodes, AliasUnsetId(name, n), AliasMutation(name, "unset", n))
    case _ => true
  }

  predicate NoReplaceOf(steps: seq<Step>, id: NodeId) {
    forall step | step in steps :: step.Replace? ==> step.node.id != id
  }

  /** Without a replacement nothing else is ever put under the id. */
  lemma {:induction false} KnownStays(nodes: Nodes, available: Available, steps: seq<Step>, node: GraphNode)
    requires CheckSteps(nodes, available, steps).Success? && NoReplaceOf(steps, node.id)
    requires Known(nodes, available, node) || Put(node) in steps
    ensures Known(nodes, CheckSteps(nodes, available, steps).value, node)
    decreases |steps|
  {
    if steps != [] {
      assert steps[0] in steps && forall step | step in steps[1..] :: step in steps;
      KnownStays(nodes, CheckStep(nodes, available, steps[0]).value, steps[1..], node);
    }
  }

  lemma {:induction false} ReplacedIsKnown(nodes: Nodes, available: Available, steps: seq<Step>, node: GraphNode,
                                           later: seq<Step>)
    requires CheckSteps(nodes, available, steps + [Replace(node)] + later).Success? && NoReplaceOf(later, node.id)
    ensures Known(nodes, CheckSteps(nodes, available, steps + [Replace(node)] + later).value, node)
    decreases |steps|
  {
    var all := steps + [Replace(node)] + later;
    if steps == [] {
      assert all[1..] == later;
      KnownStays(nodes, CheckStep(nodes, available, all[0]).value, later, node);
    } else {
      assert all[1..] == steps[1..] + [Replace(node)] + later;
      ReplacedIsKnown(nodes, CheckStep(nodes, available, all[0]).value, steps[1..], node, later);
    }
  }

  lemma {:induction false} StepsConcat(a: seq<Mutation>, b: seq<Mutation>)
    ensures AllSteps(a + b) == AllSteps(a) + AllSteps(b)
  {
    if a == [] {
      assert a + b == b;
    } else {
      assert (a + b)[1..] == a[1..] + b;
      StepsConcat(a[1..], b);
    }
  }

  lemma StepsAround(before: seq<Mutation>, m: Mutation, after: seq<Mutation>)
    ensures AllSteps(before + [m] + after) == AllSteps(before) + Steps(m) + AllSteps(after)
  {
    StepsConcat(before + [m], after);
    StepsConcat(before, [m]);
    assert [m][1..] == [];
    assert AllSteps([m]) == Steps(m);
  }

  lemma NoReplaceSteps(batch: seq<Mutation>, id: NodeId)
    requires forall r | r in batch :: !Replaces(r, id)
    ensures NoReplaceOf(AllSteps(batch), id)
  {
    forall step | step in AllSteps(batch) && step.Replace? ensures step.node.id != id {
      var m := StepOrigin(batch, step);
    }
  }

  lemma KnownInGraph(g: Graph, anchorId: NodeId, batch: seq<Mutation>, node: GraphNode)
    requires WellIndexed(g) && ApplyBatch(g, anchorId, batch).Success?
    requires Known(g.nodes, CheckSteps(g.nodes, map[], AllSteps(batch)).value, node)
    ensures Has(ApplyBatch(g, anchorId, batch).value.nodes, node.id, node.kind)
  {
    BatchIsAtomic(g, anchorId, batch);
  }

  lemma FactStays(g: Graph, anchorId: NodeId, batch: seq<Mutation>, m: Mutation)
    requires WellIndexed(g) && ApplyBatch(g, anchorId, batch).Success? && m in batch && m.AddFact?
    requires forall r | r in batch :: !Replaces(r, m.fact.id)
    ensures Has(ApplyBatch(g, anchorId, batch).value.nodes, m.fact.id, m.fact.kind)
  {
    StepsIncluded(batch, m, Put(m.fact));
    NoReplaceSteps(batch, m.fact.id);
    KnownStays(g.nodes, map[], AllSteps(batch), m.fact);
    KnownInGraph(g, anchorId, batch, m.fact);
  }

  lemma ReplacementStays(g: Graph, anchorId: NodeId, batch: seq<Mutation>, before: seq<Mutation>, m: Mutation,
                         after: seq<Mutation>)
    requires WellIndexed(g) && ApplyBatch(g, anchorId, batch).Success? && batch == before + [m] + after
    requires m.ReplaceProvenanceArtifact? && forall r | r in after :: !Replaces(r, m.nodeId)
    ensures Has(ApplyBatch(g, anchorId, batch).value.nodes, m.nodeId, ProvenanceArtifact(m.artifact))
  {
    var node := GraphNode(m.nodeId, ProvenanceArtifact(m.artifact));
    StepsAround(before, m, after);
    NoReplaceSteps(after, m.nodeId);
    ReplacedIsKnown(g.nodes, map[], AllSteps(before), node, AllSteps(after));
    KnownInGraph(g, anchorId, batch, node);
  }

  /** Every other mutation puts at most one node, which is no artifact. */
  lemma OtherNode(nodes: Nodes, m: Mutation)
    requires !m.AddFact? && !m.ReplaceProvenanceArtifact?
    ensures |Steps(m)| <= 1 && forall i | 0 <= i < |Steps(m)| ::
              Steps(m)[i].Put? && !Steps(m)[i].node.kind.ProvenanceArtifact?
    ensures HasNodeOf(nodes, m, [], []) <==>
            forall i | 0 <= i < |Steps(m)| :: Has(nodes, Steps(m)[i].node.id, Steps(m)[i].node.kind)
  {
    assert Steps(m) == [] || Steps(m) == [Steps(m)[0]];
  }

  lemma OtherStays(g: Graph, anchorId: NodeId, batch: seq<Mutation>, m: Mutation)
    requires WellIndexed(g) && ApplyBatch(g, anchorId, batch).Success? && m in batch
    requires !m.AddFact? && !m.ReplaceProvenanceArtifact?
    ensures HasNodeOf(ApplyBatch(g, anchorId, batch).value.nodes, m, [], [])
  {
    var nodes, steps := ApplyBatch(g, anchorId, batch).value.nodes, Steps(m);
    OtherNode(nodes, m);
    forall i | 0 <= i < |steps| ensures Has(nodes, steps[i].node.id, steps[i].node.kind) {
      assert steps[i] == Put(steps[i].node) && steps[i] in steps;
      BatchPut(g, anchorId, batch, m, steps[i].node);
    }
  }

  lemma NodeStays(g: Graph, anchorId: NodeId, batch: seq<Mutation>, before: seq<Mutation>, m: Mutation,
                  after: seq<Mutation>)
    requires WellIndexed(g) && ApplyBatch(g, anchorId, batch).Success? && batch == before + [m] + after
    ensures HasNodeOf(ApplyBatch(g, anchorId, batch).value.nodes, m, before, after)
  {
    assert batch[|before|] == m;
    if m.AddFact? {
      if forall r | r in before + after :: !Replaces(r, m.fact.id) {
        assert forall r | r in batch :: r in before + after || r == m;
        FactStays(g, anchorId, batch, m);
      }
    } else if m.ReplaceProvenanceArtifact? {
      if forall r | r in after :: !Replaces(r, m.nodeId) {
        ReplacementStays(g, anchorId, batch, before, m, after);
      }
    } else {
      OtherStays(g, anchorId, batch, m);
    }
  }

  // Commits.

  /** What the graph has after a batch that hangs from `source`: all nodes, and after the old edges the new ones. */
  ghost predicate Leaves(before: Graph, after: Graph, batch: seq<Mutation>, source: NodeId) {
    && (forall i | 0 <= i < |batch| :: HasNodeOf(after.nodes, batch[i], batch[..i], batch[i + 1..]))
    && before.edges <= after.edges
    && (forall e :: e in after.edges[|before.edges|..] <==> exists m | m in batch :: AsksForEdge(m, source, e))
  }

  lemma Around(batch: seq<Mutation>, i: nat)
    requires i < |batch|
    ensures batch == batch[..i] + [batch[i]] + batch[i + 1..]
  {
  }

  lemma NodesStay(g: Graph, anchorId: NodeId, batch: seq<Mutation>, i: nat)
    requires WellIndexed(g) && ApplyBatch(g, anchorId, batch).Success? && i < |batch|
    ensures HasNodeOf(ApplyBatch(g, anchorId, batch).value.nodes, batch[i], batch[..i], batch[i + 1..])
  {
    Around(batch, i);
    NodeStays(g, anchorId, batch, batch[..i], batch[i], batch[i + 1..]);
  }

  lemma EdgesStay(g: Graph, anchorId: NodeId, batch: seq<Mutation>)
    requires WellIndexed(g) && ApplyBatch(g, anchorId, batch).Success?
    ensures var after := ApplyBatch(g, anchorId, batch).value;
            && g.edges <= after.edges
            && after.edges[|g.edges|..] == AllEdges(batch, ImplicitSource(anchorId, batch))
  {
    BatchIsAtomic(g, anchorId, batch);
  }

  lemma BatchLeaves(g: Graph, anchorId: NodeId, batch: seq<Mutation>)
    requires WellIndexed(g) && ApplyBatch(g, anchorId, batch).Success?
    ensures Leaves(g, ApplyBatch(g, anchorId, batch).value, batch, ImplicitSource(anchorId, batch))
  {
    EdgesStay(g, anchorId, batch);
    EdgesAskedFor(batch, ImplicitSource(anchorId, batch));
    forall i | 0 <= i < |batch|
      ensures HasNodeOf(ApplyBatch(g, anchorId, batch).value.nodes, batch[i], batch[..i], batch[i + 1..])
    {
      NodesStay(g, anchorId, batch, i);
    }
  }

  /**
   * A commit leaves the request's anchor and every node and edge that its batch asks for; what changes shell state
   * hangs from the first command of index 0, or from the anchor.
   */
  lemma CommitLeaves(session: Session, batch: seq<Mutation>, request: Request) returns (source: NodeId)
    requires WellIndexed(session.graph) && CommitAllowed(session, batch, request).1.None?
    ensures var after := CommitAllowed(session, batch, request).0.graph;
            var id := RequestAnchorId(request.sessionId, request.sequenceNo);
            && Has(after.nodes, id, RequestAnchor(request.sessionId, request.sequenceNo, request.command,
                                                  request.before.cwd, request.shellKind))
            && HangsFrom(batch, id, source) && Leaves(session.graph, after, batch, source)
  {
    var anchor := AnchorNode(request);
    CommitApplies(session, batch, request);
    SuccessfulCommit(session, batch, request);
    source := ImplicitSource(anchor.id, batch);
    SourceIsFirst(batch, anchor.id);
    AddNodeSafely(session.graph, anchor);
    BatchLeaves(AddNode(session.graph, anchor), anchor.id, batch);
  }

  // Reconciliations.

  lemma ObservedLeaves(session: Session, sessionId: string, n: SequenceNo, can: Capabilities, batch: seq<Mutation>)
    requires WellIndexed(session.graph) && CommitObserved(session, sessionId, n, can, batch).1.None?
    requires RequestAnchorId(sessionId, n) in session.graph.nodes || FirstProvidedAnchor(batch).Some?
    requires AnyTouchesGraph(batch)
    ensures Leaves(session.graph, CommitObserved(session, sessionId, n, can, batch).0.graph, batch,
                   ImplicitSource(ObservedAnchor(session.graph.nodes, sessionId, n, batch), batch))
  {
    BatchLeaves(session.graph, ObservedAnchor(session.graph.nodes, sessionId, n, batch), batch);
  }

  /** What a reconciliation hangs from: the first command of the last request, its anchor, or one that stands in. */
  function Holder(nodes: Nodes, sessionId: string, at: SequenceNo): NodeId {
    if TopLevelCommandId(sessionId, at, 0) in nodes then TopLevelCommandId(sessionId, at, 0)
    else if RequestAnchorId(sessionId, at) in nodes then RequestAnchorId(sessionId, at)
    else ReconciliationAnchorId(sessionId, at)
  }

  lemma ReconcileBatchHangs(nodes: Nodes, sessionId: string, at: SequenceNo, delta: Delta)
    ensures var batch := ReconcileBatch(nodes, sessionId, at, delta);
            && (RequestAnchorId(sessionId, at) in nodes || FirstProvidedAnchor(batch).Some?)
            && ImplicitSource(ObservedAnchor(nodes, sessionId, at, batch), batch) == Holder(nodes, sessionId, at)
  {
    var batch := ReconcileBatch(nodes, sessionId, at, delta);
    ReconcileBatchMembers(nodes, sessionId, at, delta);
    NoCommandNoSource(batch, ObservedAnchor(nodes, sessionId, at, batch));
    if SyntheticAnchor(nodes, sessionId, at).Some? {
      assert batch[0] == AddShellStateReconciliationAnchor(ReconciliationAnchorId(sessionId, at), at);
    }
  }

  /** The reconciliation goes through and stages something. */
  ghost predicate Reconciles(session: Session, request: RuntimeRequest, parse: Parser, at: SequenceNo)
    requires WellIndexed(session.graph)
  {
    && session.summary.lastSequenceNo == Some(at) && DeltaBefore(session, request, parse) != NO_CHANGE
    && ReconcileBefore(session, request, parse).1.None?
  }

  /** Whatever is staged that touches the graph is there afterwards. */
  lemma StagedIsThere(session: Session, request: RuntimeRequest, parse: Parser, at: SequenceNo, m: Mutation)
    requires WellIndexed(session.graph) && Reconciles(session, request, parse, at) && m.TouchesGraph()
    requires m in ReconcileBatch(session.graph.nodes, request.sessionId, at, DeltaBefore(session, request, parse))
    ensures Leaves(session.graph, ReconcileBefore(session, request, parse).0.graph,
                   ReconcileBatch(session.graph.nodes, request.sessionId, at, DeltaBefore(session, request, parse)),
                   Holder(session.graph.nodes, request.sessionId, at))
  {
    var delta := DeltaBefore(session, request, parse);
    ReconcileBatchHangs(session.graph.nodes, request.sessionId, at, delta);
    ObservedLeaves(session, request.sessionId, at, request.can,
                   ReconcileBatch(session.graph.nodes, request.sessionId, at, delta));
  }

  /** A node of this kind under this id, and an edge to it from what the reconciliation hangs from. */
  predicate Hung(after: Graph, source: NodeId, id: NodeId, kind: NodeKind, relation: EdgeKind,
                 semantics: Option<Payload>) {
    Has(after.nodes, id, kind) && Edge(source, id, relation, semantics) in after.edges
  }

  lemma LeftByOne(before: Graph, after: Graph, batch: seq<Mutation>, source: NodeId, m: Mutation, node: GraphNode,
                  e: Edge)
    requires Leaves(before, after, batch, source) && m in batch && AsksForEdge(m, source, e)
    requires !m.AddFact? && !m.ReplaceProvenanceArtifact? && Steps(m) == [Put(node)]
    ensures Has(after.nodes, node.id, node.kind) && e in after.edges
  {
    var i :| 0 <= i < |batch| && batch[i] == m;
    assert HasNodeOf(after.nodes, batch[i], batch[..i], batch[i + 1..]);
    OtherNode(after.nodes, m);
    assert e in after.edges[|before.edges|..];
  }

  predicate HungAlias(after: Graph, source: NodeId, b: Binding<string>, at: SequenceNo) {
    Hung(after, source, AliasBindingId(Binding(b.name, b.content, at)), AliasBinding(b.name, b.content, at), Defines,
         None)
  }

  predicate HungFunction(after: Graph, source: NodeId, b: Binding<string>, at: SequenceNo) {
    Hung(after, source, FunctionBindingId(b.name, at), FunctionBinding(b.name, b.content, at), Defines, None)
  }

  predicate HungRemoval(after: Graph, source: NodeId, name: string, at: SequenceNo) {
    Hung(after, source, AliasUnsetId(name, at), AliasMutation(name, "unset", at), Defines, None)
  }

  lemma StagedInBatch(nodes: Nodes, sessionId: string, at: SequenceNo, delta: Delta, m: Mutation)
    requires m in AliasUpserts(delta.upsertAliases, at) || m in AliasUnsets(delta.unsetAliases, at)
             || m in FunctionUpserts(delta.upsertFunctions, at)
    ensures m in ReconcileBatch(nodes, sessionId, at, delta)
  {
    assert m in SummaryMutations(delta, at);
    assert m in PendingMutations(delta, at, SyntheticAnchor(nodes, sessionId, at));
  }

  lemma AliasStaged(nodes: Nodes, sessionId: string, at: SequenceNo, delta: Delta, i: nat)
    requires i < |delta.upsertAliases|
    ensures UpsertAliasBinding(Restamped(delta.upsertAliases[i], at)) in ReconcileBatch(nodes, sessionId, at, delta)
  {
    assert AliasUpserts(delta.upsertAliases, at)[i] == UpsertAliasBinding(Restamped(delta.upsertAliases[i], at));
    StagedInBatch(nodes, sessionId, at, delta, UpsertAliasBinding(Restamped(delta.upsertAliases[i], at)));
  }

  lemma FunctionStaged(nodes: Nodes, sessionId: string, at: SequenceNo, delta: Delta, i: nat)
    requires i < |delta.upsertFunctions|
    ensures UpsertFunctionBinding(Restamped(delta.upsertFunctions[i], at))
            in ReconcileBatch(nodes, sessionId, at, delta)
  {
    assert FunctionUpserts(delta.upsertFunctions, at)[i]
        == UpsertFunctionBinding(Restamped(delta.upsertFunctions[i], at));
    StagedInBatch(nodes, sessionId, at, delta, UpsertFunctionBinding(Restamped(delta.upsertFunctions[i], at)));
  }

  lemma RemovalStaged(nodes: Nodes, sessionId: string, at: SequenceNo, delta: Delta, i: nat)
    requires i < |delta.unsetAliases|
    ensures UnsetAliasBinding(delta.unsetAliases[i], at) in ReconcileBatch(nodes, sessionId, at, delta)
  {
    assert AliasUnsets(delta.unsetAliases, at)[i] == UnsetAliasBinding(delta.unsetAliases[i], at);
    StagedInBatch(nodes, sessionId, at, delta, UnsetAliasBinding(delta.unsetAliases[i], at));
  }

  /** A staged change of shell state is there with the edge that it asks for. */
  lemma StagedIsHung(session: Session, request: RuntimeRequest, parse: Parser, at: SequenceNo, m: Mutation,
                     node: GraphNode, relation: EdgeKind, semantics: Option<Payload>)
    requires WellIndexed(session.graph) && Reconciles(session, request, parse, at) && m.TouchesGraph()
    requires m in ReconcileBatch(session.graph.nodes, request.sessionId, at, DeltaBefore(session, request, parse))
    requires !m.AddFact? && !m.ReplaceProvenanceArtifact? && Steps(m) == [Put(node)]
    requires AsksForEdge(m, Holder(session.graph.nodes, request.sessionId, at),
                         Edge(Holder(session.graph.nodes, request.sessionId, at), node.id, relation, semantics))
    ensures Hung(ReconcileBefore(session, request, parse).0.graph, Holder(session.graph.nodes, request.sessionId, at),
                 node.id, node.kind, relation, semantics)
  {
    var source := Holder(session.graph.nodes, request.sessionId, at);
    var batch := ReconcileBatch(session.graph.nodes, request.sessionId, at, DeltaBefore(session, request, parse));
    StagedIsThere(session, request, parse, at, m);
    LeftByOne(session.graph, ReconcileBefore(session, request, parse).0.graph, batch, source, m, node,
              Edge(source, node.id, relation, semantics));
  }

  lemma DirectoryIsHung(session: Session, request: RuntimeRequest, parse: Parser, at: SequenceNo)
    requires WellIndexed(session.graph) && Reconciles(session, request, parse, at)
    requires DeltaBefore(session, request, parse).cwdAfter.Some?
    ensures Hung(ReconcileBefore(session, request, parse).0.graph, Holder(session.graph.nodes, request.sessionId, at),
                 CwdStateId(at), DirectoryState(DeltaBefore(session, request, parse).cwdAfter.value, at), ChangesCwdTo,
                 Some("Produce CwdState"))
  {
    var delta := DeltaBefore(session, request, parse);
    ReconcileBatchHasCwd(session.graph.nodes, request.sessionId, at, delta);
    StagedIsHung(session, request, parse, at,
                 SetCurrentWorkingDirectory(delta.cwdAfter.value, at, RuntimeSnapshot),
                 CwdNode(delta.cwdAfter.value, at), ChangesCwdTo, Some("Produce CwdState"));
  }

  lemma AliasIsHung(session: Session, request: RuntimeRequest, parse: Parser, at: SequenceNo, i: nat)
    requires WellIndexed(session.graph) && Reconciles(session, request, parse, at)
    requires i < |DeltaBefore(session, request, parse).upsertAliases|
    ensures HungAlias(ReconcileBefore(session, request, parse).0.graph,
                      Holder(session.graph.nodes, request.sessionId, at),
                      DeltaBefore(session, request, parse).upsertAliases[i], at)
  {
    var delta := DeltaBefore(session, request, parse);
    var b := Restamped(delta.upsertAliases[i], at);
    AliasStaged(session.graph.nodes, request.sessionId, at, delta, i);
    StagedIsHung(session, request, parse, at, UpsertAliasBinding(b), AliasNode(b), Defines, None);
  }

  lemma FunctionIsHung(session: Session, request: RuntimeRequest, parse: Parser, at: SequenceNo, i: nat)
    requires WellIndexed(session.graph) && Reconciles(session, request, parse, at)
    requires i < |DeltaBefore(session, request, parse).upsertFunctions|
    ensures HungFunction(ReconcileBefore(session, request, parse).0.graph,
                         Holder(session.graph.nodes, request.sessionId, at),
                         DeltaBefore(session, request, parse).upsertFunctions[i], at)
  {
    var delta := DeltaBefore(session, request, parse);
    var b := Restamped(delta.upsertFunctions[i], at);
    FunctionStaged(session.graph.nodes, request.sessionId, at, delta, i);
    StagedIsHung(session, request, parse, at, UpsertFunctionBinding(b), FunctionNode(b), Defines, None);
  }

  lemma RemovalIsHung(session: Session, request: RuntimeRequest, parse: Parser, at: SequenceNo, i: nat)
    requires WellIndexed(session.graph) && Reconciles(session, request, parse, at)
    requires i < |DeltaBefore(session, request, parse).unsetAliases|
    ensures HungRemoval(ReconcileBefore(session, request, parse).0.graph,
                        Holder(session.graph.nodes, request.sessionId, at),
                        DeltaBefore(session, request, parse).unsetAliases[i], at)
  {
    var delta := DeltaBefore(session, request, parse);
    var name := delta.unsetAliases[i];
    RemovalStaged(session.graph.nodes, request.sessionId, at, delta, i);
    StagedIsHung(session, request, parse, at, UnsetAliasBinding(name, at),
                 GraphNode(AliasUnsetId(name, at), AliasMutation(name, "unset", at)), Defines, None);
  }

  /** A new directory, alias, function or removal of an alias gets its node, and the node its edge. */
  lemma ReconcileLeavesState(session: Session, request: RuntimeRequest, parse: Parser, at: SequenceNo)
    requires WellIndexed(session.graph) && Reconciles(session, request, parse, at)
    ensures var delta, after := DeltaBefore(session, request, parse), ReconcileBefore(session, request, parse).0.graph;
            var source := Holder(session.graph.nodes, request.sessionId, at);
            && (delta.cwdAfter.Some? ==>
                  Hung(after, source, CwdStateId(at), DirectoryState(delta.cwdAfter.value, at), ChangesCwdTo,
                       Some("Produce CwdState")))
            && (forall i | 0 <= i < |delta.upsertAliases| :: HungAlias(after, source, delta.upsertAliases[i], at))
            && (forall i | 0 <= i < |delta.upsertFunctions| ::
                  HungFunction(after, source, delta.upsertFunctions[i], at))
            && (forall i | 0 <= i < |delta.unsetAliases| :: HungRemoval(after, source, delta.unsetAliases[i], at))
  {
    var delta := DeltaBefore(session, request, parse);
    if delta.cwdAfter.Some? {
      DirectoryIsHung(session, request, parse, at);
    }
    forall i | 0 <= i < |delta.upsertAliases| {
      AliasIsHung(session, request, parse, at, i);
    }
    forall i | 0 <= i < |delta.upsertFunctions| {
      FunctionIsHung(session, request, parse, at, i);
    }
    forall i | 0 <= i < |delta.unsetAliases| {
      RemovalIsHung(session, request, parse, at, i);
    }
  }

  // Values produced at run time.

  lemma {:induction false} ArtifactStaged(nodes: Nodes, source: NodeId, bs: seq<Binding<Variable>>, at: SequenceNo,
                                          i: nat)
    requires i < |bs| && bs[i].content.value.RuntimeProduced?
    ensures ProvenanceMutation(nodes, source, Restamped(bs[i], at))[0] in ProvenanceMutations(nodes, source, bs, at)
  {
    if i > 0 {
      ArtifactStaged(nodes, source, bs[1..], at, i - 1);
    }
  }

  lemma {:induction false} ArtifactOrigin(nodes: Nodes, source: NodeId, bs: seq<Binding<Variable>>, at: SequenceNo,
                                          m: Mutation) returns (i: nat)
    requires m in ProvenanceMutations(nodes, source, bs, at)
    ensures i < |bs| && m in ProvenanceMutation(nodes, source, Restamped(bs[i], at))
  {
    if m in ProvenanceMutation(nodes, source, Restamped(bs[0], at)) {
      i := 0;
    } else {
      var rest := ArtifactOrigin(nodes, source, bs[1..], at, m);
      i := rest + 1;
    }
  }

  lemma ArtifactIdInjective(x: string, y: string, n: SequenceNo)
    requires VariableValueId(x, n) == VariableValueId(y, n)
    ensures x == y
  {
    var head, tail := "artifact:variable-value:", ":" + Text.Decimal(n);
    assert VariableValueId(x, n) == head + x + tail && VariableValueId(y, n) == head + y + tail;
    assert x == VariableValueId(x, n)[|head|..|VariableValueId(x, n)| - |tail|];
    assert y == VariableValueId(y, n)[|head|..|VariableValueId(y, n)| - |tail|];
  }

  /** The artifact that records a value: what it was, of which kind, for which variable and when. */
  function Recorded(b: Binding<Variable>, at: SequenceNo): NodeKind
    requires b.content.value.RuntimeProduced?
  {
    var kind := if b.content.value.kind.PathKind? then "path" else "scalar";
    ProvenanceArtifact(VariableValue(b.name, b.content.value.text, kind, b.content.exported, at))
  }

  /** Where no other binding of the delta has the name, whatever replaces the artifact says the same. */
  lemma OneReplacement(nodes: Nodes, sessionId: string, at: SequenceNo, delta: Delta, i: nat, m: Mutation)
    requires i < |delta.upsertVariables| && delta.upsertVariables[i].content.value.RuntimeProduced?
    requires forall j | 0 <= j < |delta.upsertVariables| && j != i ::
               delta.upsertVariables[j].name != delta.upsertVariables[i].name
    requires m in ReconcileBatch(nodes, sessionId, at, delta)
    requires Replaces(m, VariableValueId(delta.upsertVariables[i].name, at))
    ensures VariableValueId(delta.upsertVariables[i].name, at) in nodes
    ensures ProvenanceArtifact(m.artifact) == Recorded(delta.upsertVariables[i], at)
  {
    var synthetic := SyntheticAnchor(nodes, sessionId, at);
    var source := if synthetic.Some? then synthetic.value else RequestAnchorId(sessionId, at);
    if m in SummaryMutations(delta, at) {
      AllBelong(delta, at, m);
    }
    assert m in ProvenanceMutations(nodes, source, delta.upsertVariables, at);
    var j := ArtifactOrigin(nodes, source, delta.upsertVariables, at, m);
    ArtifactIdInjective(delta.upsertVariables[j].name, delta.upsertVariables[i].name, at);
  }

  lemma {:induction false} LastReplacement(batch: seq<Mutation>, id: NodeId) returns (k: nat)
    requires exists m | m in batch :: Replaces(m, id)
    ensures k < |batch| && Replaces(batch[k], id) && forall r | r in batch[k + 1..] :: !Replaces(r, id)
  {
    var n := |batch| - 1;
    if Replaces(batch[n], id) {
      k := n;
    } else {
      assert forall m | m in batch :: m in batch[..n] || m == batch[n];
      k := LastReplacement(batch[..n], id);
      assert batch[k + 1..] == batch[..n][k + 1..] + [batch[n]];
    }
  }

  /** The anchor that a value's artifact is produced by. */
  function Producer(nodes: Nodes, sessionId: string, at: SequenceNo): NodeId {
    if RequestAnchorId(sessionId, at) in nodes then RequestAnchorId(sessionId, at)
    else ReconciliationAnchorId(sessionId, at)
  }

  /** The mutation that records the value is staged: an artifact where there is none yet, else a replacement. */
  lemma RecordingStaged(nodes: Nodes, sessionId: string, at: SequenceNo, delta: Delta, i: nat) returns (m: Mutation)
    requires i < |delta.upsertVariables| && delta.upsertVariables[i].content.value.RuntimeProduced?
    ensures var b, id := delta.upsertVariables[i], VariableValueId(delta.upsertVariables[i].name, at);
            && m in ReconcileBatch(nodes, sessionId, at, delta) && m.TouchesGraph()
            && (if id in nodes then Replaces(m, id)
                else m == AddFact(Producer(nodes, sessionId, at), GraphNode(id, Recorded(b, at)), Produces,
                                  Some("Produce VariableBinding " + b.name)))
  {
    var source := Producer(nodes, sessionId, at);
    m := ProvenanceMutation(nodes, source, Restamped(delta.upsertVariables[i], at))[0];
    ArtifactStaged(nodes, source, delta.upsertVariables, at, i);
  }

  lemma LastReplaced(before: Graph, after: Graph, batch: seq<Mutation>, source: NodeId, id: NodeId, kind: NodeKind)
    requires Leaves(before, after, batch, source) && exists m | m in batch :: Replaces(m, id)
    requires forall m | m in batch && Replaces(m, id) :: ProvenanceArtifact(m.artifact) == kind
    ensures Has(after.nodes, id, kind)
  {
    var k := LastReplacement(batch, id);
    assert HasNodeOf(after.nodes, batch[k], batch[..k], batch[k + 1..]);
    assert batch[k] in batch;
  }

  lemma FirstAdded(before: Graph, after: Graph, batch: seq<Mutation>, source: NodeId, m: Mutation)
    requires Leaves(before, after, batch, source) && m in batch && m.AddFact?
    requires forall r | r in batch :: !Replaces(r, m.fact.id)
    ensures Has(after.nodes, m.fact.id, m.fact.kind)
    ensures Edge(m.sourceId, m.fact.id, m.relation, m.semantics) in after.edges
  {
    var k :| 0 <= k < |batch| && batch[k] == m;
    assert forall r | r in batch[..k] + batch[k + 1..] :: r in batch;
    assert HasNodeOf(after.nodes, batch[k], batch[..k], batch[k + 1..]);
    assert AsksForEdge(m, source, Edge(m.sourceId, m.fact.id, m.relation, m.semantics));
    assert Edge(m.sourceId, m.fact.id, m.relation, m.semantics) in after.edges[|before.edges|..];
  }

  /** A new value that was produced at run time is recorded, and where it is recorded anew it hangs from the anchor. */
  lemma ReconcileLeavesValue(session: Session, request: RuntimeRequest, parse: Parser, at: SequenceNo, i: nat)
    requires WellIndexed(session.graph) && Reconciles(session, request, parse, at)
    requires var bs := DeltaBefore(session, request, parse).upsertVariables;
             && i < |bs| && bs[i].content.value.RuntimeProduced?
             && forall j | 0 <= j < |bs| && j != i :: bs[j].name != bs[i].name
    ensures var after := ReconcileBefore(session, request, parse).0.graph;
            var b := DeltaBefore(session, request, parse).upsertVariables[i];
            var id := VariableValueId(b.name, at);
            && Has(after.nodes, id, Recorded(b, at))
            && (id !in session.graph.nodes ==>
                  Edge(Producer(session.graph.nodes, request.sessionId, at), id, Produces,
                       Some("Produce VariableBinding " + b.name)) in after.edges)
  {
    var nodes, delta := session.graph.nodes, DeltaBefore(session, request, parse);
    var batch := ReconcileBatch(nodes, request.sessionId, at, delta);
    var after := ReconcileBefore(session, request, parse).0.graph;
    var id := VariableValueId(delta.upsertVariables[i].name, at);
    var m := RecordingStaged(nodes, request.sessionId, at, delta, i);
    StagedIsThere(session, request, parse, at, m);
    forall r | r in batch && Replaces(r, id)
      ensures id in nodes && ProvenanceArtifact(r.artifact) == Recorded(delta.upsertVariables[i], at)
    {
      OneReplacement(nodes, request.sessionId, at, delta, i, r);
    }
    if id in nodes {
      LastReplaced(session.graph, after, batch, Holder(nodes, request.sessionId, at), id,
                   Recorded(delta.upsertVariables[i], at));
    } else {
      FirstAdded(session.graph, after, batch, Holder(nodes, request.sessionId, at), m);
    }
  }

  // What the next request is told about a committed one.

  /** After a commit the parser gets the request's command and its kind of shell; without an anchor, nothing. */
  lemma CommandIsParsed(session: Session, batch: seq<Mutation>, request: Request, next: RuntimeRequest, parse: Parser)
    requires WellIndexed(session.graph) && CommitAllowed(session, batch, request).1.None?
    requires next.sessionId == request.sessionId
    requires CommitAllowed(session, batch, request).0.summary.lastSequenceNo == Some(request.sequenceNo)
    ensures var after := CommitAllowed(session, batch, request).0;
            DeltaBefore(after, next, parse)
            == Reconcile(after.summary, next.before, request.sequenceNo,
                         Some(parse(request.command, request.shellKind)), next.can)
  {
    SuccessfulCommit(session, batch, request);
  }

  lemma NothingIsParsed(session: Session, next: RuntimeRequest, parse: Parser, at: SequenceNo)
    requires session.summary.lastSequenceNo == Some(at) && RequestAnchorId(next.sessionId, at) !in session.graph.nodes
    ensures DeltaBefore(session, next, parse) == Reconcile(session.summary, next.before, at, None, next.can)
  {
  }

  /** So an allowed check that goes through leaves an anchor with the command, the directory and the kind of shell. */
  lemma CheckedIsAnchored(session: Session, request: RuntimeRequest, parse: Parser, verdict: Verdict, n: SequenceNo)
    requires WellIndexed(session.graph) && CheckRuntime(session, request, parse, verdict).1 == Checked(n, true)
    ensures Has(CheckRuntime(session, request, parse, verdict).0.graph.nodes, RequestAnchorId(request.sessionId, n),
                RequestAnchor(request.sessionId, n, request.command, request.before.cwd, request.shellKind))
  {
    var prepared := ReconcileBefore(session, request, parse).0;
    ReconcileWellIndexed(session, request, parse);
    RunProperties.CheckNumberedIs(prepared, request, verdict, n);
    var source := CommitLeaves(prepared, verdict.batch, Numbered(request, n));
  }

  // Errors.

  /** It stands for a request, or in for one. */
  predicate IsAnchor(m: Mutation) {
    m.AddRequestAnchor? || m.AddShellStateReconciliationAnchor?
  }

  /** It hangs something from an anchor. */
  predicate NeedsAnchor(m: Mutation) {
    m.AddFact? || m.AddNestedPayload? || m.AddExecutionUnitFlow? || m.SetCurrentWorkingDirectory?
    || m.UpsertAliasBinding? || m.UpsertFunctionBinding? || m.UnsetAliasBinding?
  }

  lemma {:induction false} NoAnchorProvided(batch: seq<Mutation>)
    ensures FirstProvidedAnchor(batch).None? <==> forall m | m in batch :: !IsAnchor(m)
  {
    if batch != [] {
      NoAnchorProvided(batch[1..]);
      assert batch[0] in batch && IsAnchor(batch[0]) == batch[0].ProvidedGraphAnchor().Some?;
      assert forall m :: m in batch <==> m == batch[0] || m in batch[1..];
    }
  }

  /** An observed batch misses an anchor if there is none in the graph, it brings none, and it needs one. */
  lemma MissingAnchorExactly(session: Session, sessionId: string, n: SequenceNo, can: Capabilities,
                             batch: seq<Mutation>)
    requires WellIndexed(session.graph)
    ensures var id := RequestAnchorId(sessionId, n);
            CommitObserved(session, sessionId, n, can, batch).1 == Some(MissingGraphAnchor(id))
            <==> && id !in session.graph.nodes && TopLevelCommandId(sessionId, n, 0) !in session.graph.nodes
                 && (forall m | m in batch :: !IsAnchor(m)) && exists m | m in batch :: NeedsAnchor(m)
  {
    NoAnchorProvided(batch);
    assert forall m :: m in batch && m.RequiresGraphAnchor() <==> m in batch && NeedsAnchor(m);
  }

  lemma {:induction false} ConflictIsOfAStep(nodes: Nodes, available: Available, steps: seq<Step>)
    requires CheckSteps(nodes, available, steps).Failure?
    ensures exists step | step in steps :: CheckSteps(nodes, available, steps).error == ConflictingNode(step.node.id)
    decreases |steps|
  {
    assert steps[0] in steps && forall step | step in steps[1..] :: step in steps;
    if CheckStep(nodes, available, steps[0]).Success? {
      ConflictIsOfAStep(nodes, CheckStep(nodes, available, steps[0]).value, steps[1..]);
    }
  }

  /** The end that is missing is one of the edge's, the source first. */
  predicate MissesEnd(error: BatchError, e: Edge, nodes: Nodes, available: Available) {
    || (error == GraphFailure(MissingSourceNode(e.source)) && e.source !in available && e.source !in nodes)
    || (error == GraphFailure(MissingTargetNode(e.target)) && e.target !in available && e.target !in nodes
        && (e.source in available || e.source in nodes))
  }

  lemma {:induction false} MissingIsOfAnEdge(nodes: Nodes, available: Available, edges: seq<Edge>)
    requires CheckEdges(nodes, available, edges).Some?
    ensures exists e | e in edges :: MissesEnd(CheckEdges(nodes, available, edges).value, e, nodes, available)
    decreases |edges|
  {
    assert edges[0] in edges && forall e | e in edges[1..] :: e in edges;
    if !MissesEnd(CheckEdges(nodes, available, edges).value, edges[0], nodes, available) {
      MissingIsOfAnEdge(nodes, available, edges[1..]);
    }
  }

  /** A refused batch is refused for a node that it puts or replaces, or for an end that one of its edges misses. */
  lemma RefusalNamesCulprit(nodes: Nodes, anchorId: NodeId, virtual: Option<NodeId>, batch: seq<Mutation>)
    requires ValidateBatch(nodes, anchorId, virtual, batch).Some?
    ensures match ValidateBatch(nodes, anchorId, virtual, batch).value
            case ConflictingNode(id) => exists step | step in AllSteps(batch) :: step.node.id == id
            case GraphFailure(MissingSourceNode(id)) =>
              id !in nodes && exists e | e in AllEdges(batch, ImplicitSource(anchorId, batch)) :: e.source == id
            case GraphFailure(MissingTargetNode(id)) =>
              id !in nodes && exists e | e in AllEdges(batch, ImplicitSource(anchorId, batch)) :: e.target == id
  {
    var steps, edges := AllSteps(batch), AllEdges(batch, ImplicitSource(anchorId, batch));
    match CheckSteps(nodes, Virtual(virtual), steps) {
      case Failure(_) => ConflictIsOfAStep(nodes, Virtual(virtual), steps);
      case Success(available) => MissingIsOfAnEdge(nodes, available, edges);
    }
  }
}
