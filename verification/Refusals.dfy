/** When reconciliation is refused: exactly when something it stages meets something else under the same node id. */
module Refusals {
  import opened Wrappers
  import Text
  import opened GraphTypes
  import opened GraphIndex
  import opened SessionSummary
  import opened Mutations
  import opened Batches
  import opened Reconciliation
  import opened Agreement
  import opened UpdateOrder
  import opened Sessions
  import opened CoreRuns

  // Steps that fit.

  /** What checking one put asks for. */
  predicate Accepts(nodes: Nodes, available: Available, node: GraphNode) {
    if node.id in available then available[node.id] in {None, Some(node)}
    else node.id in nodes ==> nodes[node.id] == node
  }

  /** Every put agrees with what is there, and with every other put of its id. */
  ghost predicate PutsFit(nodes: Nodes, available: Available, steps: seq<Step>) {
    && (forall p | Put(p) in steps :: Accepts(nodes, available, p))
    && (forall p, q | Put(p) in steps && Put(q) in steps && p.id == q.id :: p == q)
  }

  /** Artifacts replace artifacts that the graph has, under ids that nothing is put under. */
  ghost predicate ReplacesFit(nodes: Nodes, available: Available, steps: seq<Step>) {
    && (forall r | Replace(r) in steps ::
          r.kind.ProvenanceArtifact? && r.id in nodes && nodes[r.id].kind.ProvenanceArtifact?
          && (r.id in available && available[r.id].Some? ==> available[r.id].value.kind.ProvenanceArtifact?))
    && (forall r, p | Replace(r) in steps && Put(p) in steps :: p.id != r.id)
  }

  lemma RestReplacesFit(nodes: Nodes, available: Available, steps: seq<Step>)
    requires steps != [] && ReplacesFit(nodes, available, steps) && CheckStep(nodes, available, steps[0]).Success?
    ensures ReplacesFit(nodes, CheckStep(nodes, available, steps[0]).value, steps[1..])
  {
    assert forall step :: step in steps <==> step == steps[0] || step in steps[1..];
  }

  lemma RestPutsFit(nodes: Nodes, available: Available, steps: seq<Step>)
    requires steps != [] && ReplacesFit(nodes, available, steps) && CheckStep(nodes, available, steps[0]).Success?
    ensures PutsFit(nodes, CheckStep(nodes, available, steps[0]).value, steps[1..]) <==> PutsFit(nodes, available, steps)
  {
    assert forall step :: step in steps <==> step == steps[0] || step in steps[1..];
    var next := CheckStep(nodes, available, steps[0]).value;
    forall p | Put(p) in steps[1..]
      ensures Accepts(nodes, next, p) <==>
              Accepts(nodes, available, p) && (steps[0].Put? && steps[0].node.id == p.id ==> steps[0].node == p)
    {
    }
  }

  /** Where replacements fit, checking succeeds exactly when puts fit too. */
  lemma {:induction false} ChecksExactly(nodes: Nodes, available: Available, steps: seq<Step>)
    requires ReplacesFit(nodes, available, steps)
    ensures CheckSteps(nodes, available, steps).Success? <==> PutsFit(nodes, available, steps)
    decreases |steps|
  {
    if steps != [] {
      assert steps[0] in steps;
      if CheckStep(nodes, available, steps[0]).Success? {
        RestReplacesFit(nodes, available, steps);
        RestPutsFit(nodes, available, steps);
        ChecksExactly(nodes, CheckStep(nodes, available, steps[0]).value, steps[1..]);
      }
    }
  }

  /** Every end of the edges is in the graph, or put. */
  ghost predicate EndsThere(nodes: Nodes, steps: seq<Step>, edges: seq<Edge>) {
    forall e | e in edges ::
      (e.source in nodes || IsPut(steps, e.source)) && (e.target in nodes || IsPut(steps, e.target))
  }

  lemma ValidatesExactly(nodes: Nodes, commandId: NodeId, virtual: Option<NodeId>, batch: seq<Mutation>)
    requires ReplacesFit(nodes, Virtual(virtual), AllSteps(batch))
    requires EndsThere(nodes, AllSteps(batch), AllEdges(batch, ImplicitSource(commandId, batch)))
    ensures ValidateBatch(nodes, commandId, virtual, batch).None? <==> PutsFit(nodes, Virtual(virtual), AllSteps(batch))
  {
    var steps, edges := AllSteps(batch), AllEdges(batch, ImplicitSource(commandId, batch));
    ChecksExactly(nodes, Virtual(virtual), steps);
    if CheckSteps(nodes, Virtual(virtual), steps).Success? {
      var available := CheckSteps(nodes, Virtual(virtual), steps).value;
      EndsChecked(nodes, available, edges);
      forall e | e in edges ensures e.source in available || e.source in nodes
                            ensures e.target in available || e.target in nodes {
        PutsArePresent(nodes, Virtual(virtual), steps, e.source);
        PutsArePresent(nodes, Virtual(virtual), steps, e.target);
      }
    }
  }

  /** The node that an observed batch hangs from. */
  function ObservedAnchor(nodes: Nodes, sessionId: string, n: SequenceNo, batch: seq<Mutation>): NodeId {
    var commandId, provided := ObservedCommandId(nodes, sessionId, n), FirstProvidedAnchor(batch);
    if commandId in nodes || provided.None? then commandId else provided.value
  }

  lemma {:induction false} NoTouchNoSteps(batch: seq<Mutation>)
    requires !AnyTouchesGraph(batch)
    ensures AllSteps(batch) == []
  {
    if batch != [] {
      assert batch[0] in batch && forall m | m in batch[1..] :: m in batch;
      NoTouchNoSteps(batch[1..]);
    }
  }

  /** With an anchor at hand, an observed batch is refused exactly when it touches the graph and does not validate. */
  lemma ObservedValidates(session: Session, sessionId: string, n: SequenceNo, can: Capabilities, batch: seq<Mutation>)
    requires WellIndexed(session.graph)
    requires RequestAnchorId(sessionId, n) in session.graph.nodes || FirstProvidedAnchor(batch).Some?
    ensures var anchorId := ObservedAnchor(session.graph.nodes, sessionId, n, batch);
            CommitObserved(session, sessionId, n, can, batch).1.Some?
            <==> AnyTouchesGraph(batch) && (ValidateBatch(session.graph.nodes, anchorId, Some(anchorId), batch).Some?
                                            || ApplyBatch(session.graph, anchorId, batch).Failure?)
  {
  }

  lemma ObservedRefusedExactly(session: Session, sessionId: string, n: SequenceNo, can: Capabilities, batch: seq<Mutation>)
    requires WellIndexed(session.graph)
    requires RequestAnchorId(sessionId, n) in session.graph.nodes || FirstProvidedAnchor(batch).Some?
    requires ReplacesFit(session.graph.nodes, map[], AllSteps(batch))
    requires var source := ImplicitSource(ObservedAnchor(session.graph.nodes, sessionId, n, batch), batch);
             EndsThere(session.graph.nodes, AllSteps(batch), AllEdges(batch, source))
    ensures CommitObserved(session, sessionId, n, can, batch).1.Some?
            <==> !PutsFit(session.graph.nodes, map[], AllSteps(batch))
  {
    var anchorId := ObservedAnchor(session.graph.nodes, sessionId, n, batch);
    ObservedValidates(session, sessionId, n, can, batch);
    ValidatesTwice(session.graph, anchorId, batch);
    if !AnyTouchesGraph(batch) {
      NoTouchNoSteps(batch);
    }
  }

  /** What validates without the virtual anchor validates with it. */
  lemma ValidatesTwice(g: Graph, anchorId: NodeId, batch: seq<Mutation>)
    requires WellIndexed(g) && ReplacesFit(g.nodes, map[], AllSteps(batch))
    requires EndsThere(g.nodes, AllSteps(batch), AllEdges(batch, ImplicitSource(anchorId, batch)))
    ensures ValidateBatch(g.nodes, anchorId, Some(anchorId), batch).Some? || ApplyBatch(g, anchorId, batch).Failure?
            <==> !PutsFit(g.nodes, map[], AllSteps(batch))
  {
    ValidatesExactly(g.nodes, anchorId, Some(anchorId), batch);
    ValidatesExactly(g.nodes, anchorId, None, batch);
    BatchIsAtomic(g, anchorId, batch);
  }

  // What a reconciliation puts.

  /** Where a node that a reconciliation puts comes from: the anchor, or a part of the delta. */
  datatype Origin = FromAnchor | FromCwd | FromAlias(i: nat) | FromUnset(i: nat) | FromFunction(i: nat) | FromVariable(i: nat)

  function FunctionNode(b: Binding<string>): GraphNode {
    GraphNode(FunctionBindingId(b.name, b.observedAt), FunctionBinding(b.name, b.content, b.observedAt))
  }

  function AliasNode(b: Binding<string>): GraphNode {
    GraphNode(AliasBindingId(b), AliasBinding(b.name, b.content, b.observedAt))
  }

  function CwdNode(path: string, n: SequenceNo): GraphNode {
    GraphNode(CwdStateId(n), DirectoryState(path, n))
  }

  function ArtifactNode(b: Binding<Variable>): GraphNode
    requires b.content.value.RuntimeProduced?
  {
    var kind := if b.content.value.kind == PathKind then "path" else "scalar";
    GraphNode(VariableValueId(b.name, b.observedAt),
              ProvenanceArtifact(VariableValue(b.name, b.content.value.text, kind, b.content.exported, b.observedAt)))
  }

  /** The part is there, and a variable's value is one produced at run time without an artifact yet. */
  predicate Gives(nodes: Nodes, delta: Delta, at: SequenceNo, o: Origin) {
    match o
    case FromAnchor => true
    case FromCwd => delta.cwdAfter.Some?
    case FromAlias(i) => i < |delta.upsertAliases|
    case FromUnset(i) => i < |delta.unsetAliases|
    case FromFunction(i) => i < |delta.upsertFunctions|
    case FromVariable(i) =>
      i < |delta.upsertVariables| && delta.upsertVariables[i].content.value.RuntimeProduced?
      && VariableValueId(delta.upsertVariables[i].name, at) !in nodes
  }

  function Given(nodes: Nodes, sessionId: string, delta: Delta, at: SequenceNo, o: Origin): GraphNode
    requires Gives(nodes, delta, at, o)
  {
    match o
    case FromAnchor => GraphNode(ReconciliationAnchorId(sessionId, at), ShellStateReconciliationAnchor(at))
    case FromCwd => CwdNode(delta.cwdAfter.value, at)
    case FromAlias(i) => AliasNode(Restamped(delta.upsertAliases[i], at))
    case FromUnset(i) => GraphNode(AliasUnsetId(delta.unsetAliases[i], at), AliasMutation(delta.unsetAliases[i], "unset", at))
    case FromFunction(i) => FunctionNode(Restamped(delta.upsertFunctions[i], at))
    case FromVariable(i) => ArtifactNode(Restamped(delta.upsertVariables[i], at))
  }

  lemma {:induction false} ProvenanceOrigin(nodes: Nodes, source: NodeId, bs: seq<Binding<Variable>>, at: SequenceNo,
                                            m: Mutation) returns (i: nat)
    requires m in ProvenanceMutations(nodes, source, bs, at)
    ensures i < |bs| && m in ProvenanceMutation(nodes, source, Restamped(bs[i], at))
  {
    if m in ProvenanceMutation(nodes, source, Restamped(bs[0], at)) {
      i := 0;
    } else {
      i := ProvenanceOrigin(nodes, source, bs[1..], at, m);
      i := i + 1;
    }
  }

  lemma {:induction false} ProvenanceIncluded(nodes: Nodes, source: NodeId, bs: seq<Binding<Variable>>, at: SequenceNo,
                                              i: nat, m: Mutation)
    requires i < |bs| && m in ProvenanceMutation(nodes, source, Restamped(bs[i], at))
    ensures m in ProvenanceMutations(nodes, source, bs, at)
  {
    if i > 0 {
      ProvenanceIncluded(nodes, source, bs[1..], at, i - 1, m);
    }
  }

  function Source(nodes: Nodes, sessionId: string, at: SequenceNo): NodeId {
    var synthetic := SyntheticAnchor(nodes, sessionId, at);
    if synthetic.Some? then synthetic.value else RequestAnchorId(sessionId, at)
  }

  lemma MutationOrigin(nodes: Nodes, sessionId: string, at: SequenceNo, delta: Delta, m: Mutation)
    requires m in ReconcileBatch(nodes, sessionId, at, delta)
    ensures Belongs(delta, at, m) || m == AddShellStateReconciliationAnchor(ReconciliationAnchorId(sessionId, at), at)
            || m in ProvenanceMutations(nodes, Source(nodes, sessionId, at), delta.upsertVariables, at)
  {
    if m in SummaryMutations(delta, at) {
      AllBelong(delta, at, m);
    }
  }

  lemma AliasUpsertAt(bs: seq<Binding<string>>, at: SequenceNo, m: Mutation) returns (i: nat)
    requires m in AliasUpserts(bs, at)
    ensures i < |bs| && m == UpsertAliasBinding(Restamped(bs[i], at))
  {
    i :| 0 <= i < |AliasUpserts(bs, at)| && AliasUpserts(bs, at)[i] == m;
  }

  lemma FunctionUpsertAt(bs: seq<Binding<string>>, at: SequenceNo, m: Mutation) returns (i: nat)
    requires m in FunctionUpserts(bs, at)
    ensures i < |bs| && m == UpsertFunctionBinding(Restamped(bs[i], at))
  {
    i :| 0 <= i < |FunctionUpserts(bs, at)| && FunctionUpserts(bs, at)[i] == m;
  }

  lemma SummaryPutOrigin(nodes: Nodes, sessionId: string, at: SequenceNo, delta: Delta, m: Mutation, p: GraphNode)
    returns (o: Origin)
    requires Belongs(delta, at, m) && Put(p) in Steps(m)
    ensures Gives(nodes, delta, at, o) && p == Given(nodes, sessionId, delta, at, o)
  {
    match m {
      case SetCurrentWorkingDirectory(_, _, _) => o := FromCwd;
      case UpsertAliasBinding(b) =>
        var i := AliasUpsertAt(delta.upsertAliases, at, m);
        o := FromAlias(i);
      case UpsertFunctionBinding(b) =>
        var i := FunctionUpsertAt(delta.upsertFunctions, at, m);
        o := FromFunction(i);
      case UnsetAliasBinding(name, _) =>
        var i :| 0 <= i < |delta.unsetAliases| && delta.unsetAliases[i] == name;
        o := FromUnset(i);
    }
  }

  lemma PutOrigin(nodes: Nodes, sessionId: string, at: SequenceNo, delta: Delta, p: GraphNode) returns (o: Origin)
    requires Put(p) in AllSteps(ReconcileBatch(nodes, sessionId, at, delta))
    ensures Gives(nodes, delta, at, o) && p == Given(nodes, sessionId, delta, at, o)
  {
    var m := StepOrigin(ReconcileBatch(nodes, sessionId, at, delta), Put(p));
    MutationOrigin(nodes, sessionId, at, delta, m);
    if Belongs(delta, at, m) {
      o := SummaryPutOrigin(nodes, sessionId, at, delta, m, p);
    } else if m == AddShellStateReconciliationAnchor(ReconciliationAnchorId(sessionId, at), at) {
      o := FromAnchor;
    } else {
      var i := ProvenanceOrigin(nodes, Source(nodes, sessionId, at), delta.upsertVariables, at, m);
      o := FromVariable(i);
    }
  }

  lemma ProvenanceReplaces(nodes: Nodes, source: NodeId, b: Binding<Variable>, m: Mutation, r: GraphNode)
    requires m in ProvenanceMutation(nodes, source, b) && Replace(r) in Steps(m)
    ensures r.id == VariableValueId(b.name, b.observedAt) && r.id in nodes && r.kind.ProvenanceArtifact?
  {
  }

  lemma UpdatesReplaceNothing(delta: Delta, at: SequenceNo, m: Mutation, r: GraphNode)
    requires Replace(r) in Steps(m)
    ensures !Belongs(delta, at, m) && !m.AddShellStateReconciliationAnchor?
  {
  }

  lemma ReplaceOrigin(nodes: Nodes, sessionId: string, at: SequenceNo, delta: Delta, r: GraphNode) returns (i: nat)
    requires Replace(r) in AllSteps(ReconcileBatch(nodes, sessionId, at, delta))
    ensures i < |delta.upsertVariables| && r.id == VariableValueId(delta.upsertVariables[i].name, at) && r.id in nodes
    ensures r.kind.ProvenanceArtifact?
  {
    var m := StepOrigin(ReconcileBatch(nodes, sessionId, at, delta), Replace(r));
    MutationOrigin(nodes, sessionId, at, delta, m);
    UpdatesReplaceNothing(delta, at, m, r);
    i := ProvenanceOrigin(nodes, Source(nodes, sessionId, at), delta.upsertVariables, at, m);
    ProvenanceReplaces(nodes, Source(nodes, sessionId, at), Restamped(delta.upsertVariables[i], at), m, r);
  }

  // Ids.

  /** A middle between fixed ends is recovered from the text. */
  lemma SameMiddle(head: string, x: string, y: string, xTail: string, yTail: string)
    requires head + x + xTail == head + y + yTail && |xTail| == |yTail|
    ensures x == y && xTail == yTail
  {
    assert |x| == |y|;
    assert x == (head + x + xTail)[|head|..|head| + |x|];
    assert y == (head + y + yTail)[|head|..|head| + |y|];
    assert xTail == (head + x + xTail)[|head| + |x|..];
    assert yTail == (head + y + yTail)[|head| + |y|..];
  }

  lemma FunctionIdInjective(x: string, y: string, n: SequenceNo)
    requires FunctionBindingId(x, n) == FunctionBindingId(y, n)
    ensures x == y
  {
    var tail := ":" + Text.Decimal(n);
    assert FunctionBindingId(x, n) == "function-binding:" + x + tail;
    assert FunctionBindingId(y, n) == "function-binding:" + y + tail;
    SameMiddle("function-binding:", x, y, tail, tail);
  }

  lemma ValueIdInjective(x: string, y: string, n: SequenceNo)
    requires VariableValueId(x, n) == VariableValueId(y, n)
    ensures x == y
  {
    var tail := ":" + Text.Decimal(n);
    assert VariableValueId(x, n) == "artifact:variable-value:" + x + tail;
    assert VariableValueId(y, n) == "artifact:variable-value:" + y + tail;
    SameMiddle("artifact:variable-value:", x, y, tail, tail);
  }

  lemma UnsetIdInjective(x: string, y: string, n: SequenceNo)
    requires AliasUnsetId(x, n) == AliasUnsetId(y, n)
    ensures x == y
  {
    var tail := ":unset:" + Text.Decimal(n);
    assert AliasUnsetId(x, n) == "alias-mutation:" + x + tail;
    assert AliasUnsetId(y, n) == "alias-mutation:" + y + tail;
    SameMiddle("alias-mutation:", x, y, tail, tail);
  }

  /** The id of an alias binding says which alias it is, though not for sure what it stands for. */
  lemma AliasIdInjective(x: Binding<string>, y: Binding<string>)
    requires AliasBindingId(x) == AliasBindingId(y) && x.observedAt == y.observedAt
    ensures x.name == y.name
  {
    var n, xPrint, yPrint := Text.Decimal(x.observedAt), Fingerprint(x.name, x.content), Fingerprint(y.name, y.content);
    FingerprintWidth(x.name, x.content);
    FingerprintWidth(y.name, y.content);
    Regroup("alias-binding:", x.name, ":", n, ":", xPrint);
    Regroup("alias-binding:", y.name, ":", n, ":", yPrint);
    SameMiddle("alias-binding:", x.name, y.name, ":" + n + ":" + xPrint, ":" + n + ":" + yPrint);
  }

  lemma Regroup(a: string, b: string, c: string, d: string, e: string, f: string)
    ensures a + b + c + d + e + f == a + b + (c + d + e + f)
  {
  }

  lemma FingerprintWidth(left: string, right: string)
    ensures |Fingerprint(left, right)| == 16
  {
    Text.HexWidth(Fnv(0xcbf2_9ce4_8422_2325, Text.Bytes(left) + [0] + Text.Bytes(right)) as nat, 16);
  }

  /** How the ids of nodes from different parts begin. */
  predicate Begins(id: NodeId, o: Origin) {
    && |id| > 6
    && match o
       case FromAnchor => id[1] == 'h'
       case FromCwd => id[1] == 'w'
       case FromAlias(_) => id[1] == 'l' && id[6] == 'b'
       case FromUnset(_) => id[1] == 'l' && id[6] == 'm'
       case FromFunction(_) => id[1] == 'u'
       case FromVariable(_) => id[1] == 'r'
  }

  lemma AliasBegins(b: Binding<string>, o: Origin)
    requires o.FromAlias?
    ensures Begins(AliasBindingId(b), o)
  {
    StartsWith("alias-binding:", AliasBindingId(b));
  }

  lemma UnsetBegins(name: string, n: SequenceNo, o: Origin)
    requires o.FromUnset?
    ensures Begins(AliasUnsetId(name, n), o)
  {
    StartsWith("alias-mutation:", AliasUnsetId(name, n));
  }

  lemma StartsWith(head: string, id: string)
    requires head <= id && |head| > 6
    ensures |id| > 6 && id[1] == head[1] && id[6] == head[6]
  {
  }

  lemma FunctionBegins(name: string, n: SequenceNo, o: Origin)
    requires o.FromFunction?
    ensures Begins(FunctionBindingId(name, n), o)
  {
    StartsWith("function-binding:", FunctionBindingId(name, n));
  }

  lemma ValueBegins(name: string, n: SequenceNo, o: Origin)
    requires o.FromVariable?
    ensures Begins(VariableValueId(name, n), o)
  {
    StartsWith("artifact:variable-value:", VariableValueId(name, n));
  }

  lemma OthersBegin(sessionId: string, n: SequenceNo)
    ensures Begins(ReconciliationAnchorId(sessionId, n), FromAnchor) && Begins(CwdStateId(n), FromCwd)
  {
    StartsWith("shell-state-reconciliation:", ReconciliationAnchorId(sessionId, n));
    StartsWith("cwd-state:", CwdStateId(n));
  }

  lemma GivenBegins(nodes: Nodes, sessionId: string, delta: Delta, at: SequenceNo, o: Origin)
    requires Gives(nodes, delta, at, o)
    ensures Begins(Given(nodes, sessionId, delta, at, o).id, o)
  {
    match o {
      case FromAnchor => OthersBegin(sessionId, at);
      case FromCwd => OthersBegin(sessionId, at);
      case FromAlias(i) => AliasBegins(Restamped(delta.upsertAliases[i], at), o);
      case FromUnset(i) => UnsetBegins(delta.unsetAliases[i], at, o);
      case FromFunction(i) => FunctionBegins(delta.upsertFunctions[i].name, at, o);
      case FromVariable(i) => ValueBegins(delta.upsertVariables[i].name, at, o);
    }
  }

  // What can clash.

  /** What kind of node may be under an id that reconciliation uses. */
  ghost predicate Fits(node: GraphNode, sessionId: string) {
    && (forall k: SequenceNo :: node.id == ReconciliationAnchorId(sessionId, k) ==>
          node.kind == ShellStateReconciliationAnchor(k))
    && (forall name, k: SequenceNo :: node.id == AliasUnsetId(name, k) ==> node.kind == AliasMutation(name, "unset", k))
    && (forall name, k: SequenceNo :: node.id == VariableValueId(name, k) ==> node.kind.ProvenanceArtifact?)
  }

  ghost predicate KindsFit(nodes: Nodes, sessionId: string) {
    forall id | id in nodes :: nodes[id].id == id && Fits(nodes[id], sessionId)
  }

  /** The graph has something else under the node's id. */
  predicate Clashes(nodes: Nodes, node: GraphNode) {
    node.id in nodes && nodes[node.id] != node
  }

  /** Two different values produced at run time for one name, for which the graph has no artifact. */
  predicate TwoValues(nodes: Nodes, at: SequenceNo, name: string, x: Variable, y: Variable) {
    x != y && x.value.RuntimeProduced? && y.value.RuntimeProduced? && VariableValueId(name, at) !in nodes
  }

  ghost predicate ValuesClash(nodes: Nodes, bs: seq<Binding<Variable>>, at: SequenceNo) {
    exists b, c | b in bs && c in bs && b.name == c.name :: TwoValues(nodes, at, b.name, b.content, c.content)
  }

  ghost predicate BodiesClash(nodes: Nodes, bs: seq<Binding<string>>, at: SequenceNo, nodeOf: Binding<string> -> GraphNode) {
    exists b | b in bs :: Clashes(nodes, nodeOf(Restamped(b, at)))
  }

  ghost predicate DeltaClashes(nodes: Nodes, delta: Delta, at: SequenceNo) {
    || (delta.cwdAfter.Some? && Clashes(nodes, CwdNode(delta.cwdAfter.value, at)))
    || BodiesClash(nodes, delta.upsertAliases, at, AliasNode)
    || BodiesClash(nodes, delta.upsertFunctions, at, FunctionNode)
    || ValuesClash(nodes, delta.upsertVariables, at)
  }

  lemma ReconcileReplacesFit(nodes: Nodes, sessionId: string, at: SequenceNo, delta: Delta)
    requires KindsFit(nodes, sessionId)
    ensures ReplacesFit(nodes, map[], AllSteps(ReconcileBatch(nodes, sessionId, at, delta)))
  {
    var steps := AllSteps(ReconcileBatch(nodes, sessionId, at, delta));
    forall r | Replace(r) in steps
      ensures r.kind.ProvenanceArtifact? && r.id in nodes && nodes[r.id].kind.ProvenanceArtifact?
    {
      var i := ReplaceOrigin(nodes, sessionId, at, delta, r);
    }
    forall r, p | Replace(r) in steps && Put(p) in steps ensures p.id != r.id {
      var i := ReplaceOrigin(nodes, sessionId, at, delta, r);
      var o := PutOrigin(nodes, sessionId, at, delta, p);
      GivenBegins(nodes, sessionId, delta, at, o);
      ValueBegins(delta.upsertVariables[i].name, at, FromVariable(i));
    }
  }

  /** A node that a part gives clashes with the graph only where that is listed as a clash. */
  lemma GivenClash(nodes: Nodes, sessionId: string, at: SequenceNo, delta: Delta, o: Origin)
    requires KindsFit(nodes, sessionId) && Gives(nodes, delta, at, o)
    requires Clashes(nodes, Given(nodes, sessionId, delta, at, o))
    ensures DeltaClashes(nodes, delta, at)
  {
    match o {
      case FromAlias(i) => assert delta.upsertAliases[i] in delta.upsertAliases;
      case FromFunction(i) => assert delta.upsertFunctions[i] in delta.upsertFunctions;
      case _ =>
    }
  }

  /** Two different nodes under one id are two values of one variable. */
  lemma GivenTwice(nodes: Nodes, sessionId: string, at: SequenceNo, delta: Delta, o: Origin, u: Origin)
    requires Gives(nodes, delta, at, o) && Gives(nodes, delta, at, u)
    requires UniqueTargets(delta.upsertAliases) && UniqueTargets(delta.upsertFunctions)
    requires Given(nodes, sessionId, delta, at, o).id == Given(nodes, sessionId, delta, at, u).id
    requires Given(nodes, sessionId, delta, at, o) != Given(nodes, sessionId, delta, at, u)
    ensures ValuesClash(nodes, delta.upsertVariables, at)
  {
    GivenBegins(nodes, sessionId, delta, at, o);
    GivenBegins(nodes, sessionId, delta, at, u);
    match (o, u) {
      case (FromAlias(i), FromAlias(j)) =>
        AliasIdInjective(Restamped(delta.upsertAliases[i], at), Restamped(delta.upsertAliases[j], at));
      case (FromUnset(i), FromUnset(j)) => UnsetIdInjective(delta.unsetAliases[i], delta.unsetAliases[j], at);
      case (FromFunction(i), FromFunction(j)) =>
        FunctionIdInjective(delta.upsertFunctions[i].name, delta.upsertFunctions[j].name, at);
      case (FromVariable(i), FromVariable(j)) =>
        ValueIdInjective(delta.upsertVariables[i].name, delta.upsertVariables[j].name, at);
        assert delta.upsertVariables[i] in delta.upsertVariables && delta.upsertVariables[j] in delta.upsertVariables;
      case _ =>
    }
  }

  lemma NoClashFits(nodes: Nodes, sessionId: string, at: SequenceNo, delta: Delta)
    requires KindsFit(nodes, sessionId) && !DeltaClashes(nodes, delta, at)
    requires UniqueTargets(delta.upsertAliases) && UniqueTargets(delta.upsertFunctions)
    ensures PutsFit(nodes, map[], AllSteps(ReconcileBatch(nodes, sessionId, at, delta)))
  {
    var steps := AllSteps(ReconcileBatch(nodes, sessionId, at, delta));
    forall p | Put(p) in steps ensures Accepts(nodes, map[], p) {
      var o := PutOrigin(nodes, sessionId, at, delta, p);
      if Clashes(nodes, p) {
        GivenClash(nodes, sessionId, at, delta, o);
      }
    }
    forall p, q | Put(p) in steps && Put(q) in steps && p.id == q.id ensures p == q {
      var o := PutOrigin(nodes, sessionId, at, delta, p);
      var u := PutOrigin(nodes, sessionId, at, delta, q);
      if p != q {
        GivenTwice(nodes, sessionId, at, delta, o, u);
      }
    }
  }

  lemma UpdateStaged(nodes: Nodes, sessionId: string, at: SequenceNo, delta: Delta, m: Mutation)
    requires m in CwdMutation(delta.cwdAfter, at) || m in AliasUpserts(delta.upsertAliases, at)
             || m in FunctionUpserts(delta.upsertFunctions, at)
    ensures m in ReconcileBatch(nodes, sessionId, at, delta)
  {
    assert m in SummaryMutations(delta, at);
    assert m in PendingMutations(delta, at, SyntheticAnchor(nodes, sessionId, at));
  }

  /** The mutation by which a part of the delta puts its node. */
  lemma GivenStaged(nodes: Nodes, sessionId: string, at: SequenceNo, delta: Delta, o: Origin) returns (m: Mutation)
    requires Gives(nodes, delta, at, o) && !o.FromAnchor? && !o.FromUnset?
    ensures m in ReconcileBatch(nodes, sessionId, at, delta) && Put(Given(nodes, sessionId, delta, at, o)) in Steps(m)
  {
    if o.FromVariable? {
      m := ValueStaged(nodes, sessionId, at, delta, o.i);
    } else {
      m := UpdateGiven(nodes, sessionId, at, delta, o);
      UpdateStaged(nodes, sessionId, at, delta, m);
    }
  }

  lemma UpdateGiven(nodes: Nodes, sessionId: string, at: SequenceNo, delta: Delta, o: Origin) returns (m: Mutation)
    requires Gives(nodes, delta, at, o) && (o.FromCwd? || o.FromAlias? || o.FromFunction?)
    ensures m in CwdMutation(delta.cwdAfter, at) || m in AliasUpserts(delta.upsertAliases, at)
            || m in FunctionUpserts(delta.upsertFunctions, at)
    ensures Put(Given(nodes, sessionId, delta, at, o)) in Steps(m)
  {
    match o {
      case FromCwd => m := SetCurrentWorkingDirectory(delta.cwdAfter.value, at, RuntimeSnapshot);
      case FromAlias(i) =>
        m := UpsertAliasBinding(Restamped(delta.upsertAliases[i], at));
        AliasUpsertIn(delta.upsertAliases, at, i);
      case FromFunction(i) =>
        m := UpsertFunctionBinding(Restamped(delta.upsertFunctions[i], at));
        FunctionUpsertIn(delta.upsertFunctions, at, i);
    }
    StepsOfGiven(nodes, sessionId, at, delta, o, m);
  }

  lemma AliasUpsertIn(bs: seq<Binding<string>>, at: SequenceNo, i: nat)
    requires i < |bs|
    ensures UpsertAliasBinding(Restamped(bs[i], at)) in AliasUpserts(bs, at)
  {
    assert AliasUpserts(bs, at)[i] == UpsertAliasBinding(Restamped(bs[i], at));
  }

  lemma FunctionUpsertIn(bs: seq<Binding<string>>, at: SequenceNo, i: nat)
    requires i < |bs|
    ensures UpsertFunctionBinding(Restamped(bs[i], at)) in FunctionUpserts(bs, at)
  {
    assert FunctionUpserts(bs, at)[i] == UpsertFunctionBinding(Restamped(bs[i], at));
  }

  lemma StepsOfGiven(nodes: Nodes, sessionId: string, at: SequenceNo, delta: Delta, o: Origin, m: Mutation)
    requires Gives(nodes, delta, at, o)
    requires match o
             case FromCwd => m == SetCurrentWorkingDirectory(delta.cwdAfter.value, at, RuntimeSnapshot)
             case FromAlias(i) => m == UpsertAliasBinding(Restamped(delta.upsertAliases[i], at))
             case FromFunction(i) => m == UpsertFunctionBinding(Restamped(delta.upsertFunctions[i], at))
             case _ => false
    ensures Steps(m) == [Put(Given(nodes, sessionId, delta, at, o))]
  {
  }

  lemma ValueStaged(nodes: Nodes, sessionId: string, at: SequenceNo, delta: Delta, i: nat) returns (m: Mutation)
    requires Gives(nodes, delta, at, FromVariable(i))
    ensures m in ReconcileBatch(nodes, sessionId, at, delta)
    ensures Put(Given(nodes, sessionId, delta, at, FromVariable(i))) in Steps(m)
  {
    var source, b := Source(nodes, sessionId, at), Restamped(delta.upsertVariables[i], at);
    m := ProvenanceMutation(nodes, source, b)[0];
    ProvenanceIncluded(nodes, source, delta.upsertVariables, at, i, m);
  }

  lemma GivenPut(nodes: Nodes, sessionId: string, at: SequenceNo, delta: Delta, o: Origin)
    requires Gives(nodes, delta, at, o) && !o.FromAnchor? && !o.FromUnset?
    ensures Put(Given(nodes, sessionId, delta, at, o)) in AllSteps(ReconcileBatch(nodes, sessionId, at, delta))
  {
    var m := GivenStaged(nodes, sessionId, at, delta, o);
    StepsIncluded(ReconcileBatch(nodes, sessionId, at, delta), m, Put(Given(nodes, sessionId, delta, at, o)));
  }

  lemma GivenClashes(nodes: Nodes, sessionId: string, at: SequenceNo, delta: Delta, o: Origin)
    requires Gives(nodes, delta, at, o) && !o.FromAnchor? && !o.FromUnset?
    requires Clashes(nodes, Given(nodes, sessionId, delta, at, o))
    ensures !PutsFit(nodes, map[], AllSteps(ReconcileBatch(nodes, sessionId, at, delta)))
  {
    GivenPut(nodes, sessionId, at, delta, o);
    assert !Accepts(nodes, map[], Given(nodes, sessionId, delta, at, o));
  }

  lemma ValuesDiffer(nodes: Nodes, sessionId: string, at: SequenceNo, delta: Delta)
    requires ValuesClash(nodes, delta.upsertVariables, at)
    ensures !PutsFit(nodes, map[], AllSteps(ReconcileBatch(nodes, sessionId, at, delta)))
  {
    var bs := delta.upsertVariables;
    var b, c :| b in bs && c in bs && b.name == c.name && TwoValues(nodes, at, b.name, b.content, c.content);
    var i :| 0 <= i < |bs| && bs[i] == b;
    var j :| 0 <= j < |bs| && bs[j] == c;
    GivenPut(nodes, sessionId, at, delta, FromVariable(i));
    GivenPut(nodes, sessionId, at, delta, FromVariable(j));
    assert Given(nodes, sessionId, delta, at, FromVariable(i)) != Given(nodes, sessionId, delta, at, FromVariable(j));
  }

  lemma AliasesDiffer(nodes: Nodes, sessionId: string, at: SequenceNo, delta: Delta)
    requires BodiesClash(nodes, delta.upsertAliases, at, AliasNode)
    ensures !PutsFit(nodes, map[], AllSteps(ReconcileBatch(nodes, sessionId, at, delta)))
  {
    var b :| b in delta.upsertAliases && Clashes(nodes, AliasNode(Restamped(b, at)));
    var i :| 0 <= i < |delta.upsertAliases| && delta.upsertAliases[i] == b;
    GivenClashes(nodes, sessionId, at, delta, FromAlias(i));
  }

  lemma FunctionsDiffer(nodes: Nodes, sessionId: string, at: SequenceNo, delta: Delta)
    requires BodiesClash(nodes, delta.upsertFunctions, at, FunctionNode)
    ensures !PutsFit(nodes, map[], AllSteps(ReconcileBatch(nodes, sessionId, at, delta)))
  {
    var b :| b in delta.upsertFunctions && Clashes(nodes, FunctionNode(Restamped(b, at)));
    var i :| 0 <= i < |delta.upsertFunctions| && delta.upsertFunctions[i] == b;
    GivenClashes(nodes, sessionId, at, delta, FromFunction(i));
  }

  lemma ClashesDoNotFit(nodes: Nodes, sessionId: string, at: SequenceNo, delta: Delta)
    requires DeltaClashes(nodes, delta, at)
    ensures !PutsFit(nodes, map[], AllSteps(ReconcileBatch(nodes, sessionId, at, delta)))
  {
    if delta.cwdAfter.Some? && Clashes(nodes, CwdNode(delta.cwdAfter.value, at)) {
      GivenClashes(nodes, sessionId, at, delta, FromCwd);
    } else if BodiesClash(nodes, delta.upsertAliases, at, AliasNode) {
      AliasesDiffer(nodes, sessionId, at, delta);
    } else if BodiesClash(nodes, delta.upsertFunctions, at, FunctionNode) {
      FunctionsDiffer(nodes, sessionId, at, delta);
    } else {
      ValuesDiffer(nodes, sessionId, at, delta);
    }
  }

  // What the edges hang from.

  lemma {:induction false} EdgeOrigin(batch: seq<Mutation>, source: NodeId, e: Edge) returns (m: Mutation)
    requires e in AllEdges(batch, source)
    ensures m in batch && e in Edges(m, source)
  {
    if e in Edges(batch[0], source) {
      m := batch[0];
    } else {
      m := EdgeOrigin(batch[1..], source, e);
    }
  }

  lemma {:induction false} NoCommandNoSource(batch: seq<Mutation>, commandId: NodeId)
    requires forall m | m in batch :: !m.AddTopLevelCommandInvocation?
    ensures ImplicitSource(commandId, batch) == commandId
  {
    if batch != [] {
      assert batch[0] in batch;
      NoCommandNoSource(batch[1..], commandId);
    }
  }

  lemma {:induction false} ProvidedIsPut(batch: seq<Mutation>)
    requires FirstProvidedAnchor(batch).Some?
    ensures IsPut(AllSteps(batch), FirstProvidedAnchor(batch).value)
  {
    var steps := AllSteps(batch);
    if batch[0].ProvidedGraphAnchor().Some? {
      assert steps[0].Put? && steps[0].node.id == batch[0].nodeId;
    } else {
      ProvidedIsPut(batch[1..]);
      var rest := AllSteps(batch[1..]);
      var i :| 0 <= i < |rest| && rest[i].Put? && rest[i].node.id == FirstProvidedAnchor(batch).value;
      assert steps[|Steps(batch[0])| + i] == rest[i];
    }
  }

  /** What a mutation of a reconciliation hangs its node from: the implicit source, or the anchor. */
  lemma EdgeEnds(nodes: Nodes, sessionId: string, at: SequenceNo, delta: Delta, m: Mutation, source: NodeId, e: Edge)
    requires m in ReconcileBatch(nodes, sessionId, at, delta) && e in Edges(m, source)
    ensures e.source == source || e.source == Source(nodes, sessionId, at)
    ensures exists p :: Put(p) in Steps(m) && p.id == e.target
  {
    MutationOrigin(nodes, sessionId, at, delta, m);
    if m in ProvenanceMutations(nodes, Source(nodes, sessionId, at), delta.upsertVariables, at) {
      var i := ProvenanceOrigin(nodes, Source(nodes, sessionId, at), delta.upsertVariables, at, m);
      assert m.AddFact? && Put(m.fact) in Steps(m);
    } else {
      UpdateEdgeEnds(delta, at, m, source, e);
    }
  }

  lemma UpdateEdgeEnds(delta: Delta, at: SequenceNo, m: Mutation, source: NodeId, e: Edge)
    requires Belongs(delta, at, m) || m.AddShellStateReconciliationAnchor?
    requires e in Edges(m, source)
    ensures e.source == source && exists p :: Put(p) in Steps(m) && p.id == e.target
  {
    assert Steps(m)[0].Put? && Put(Steps(m)[0].node) in Steps(m);
  }

  /** The anchor, synthetic or not, is there to hang things from. */
  lemma SourceThere(nodes: Nodes, sessionId: string, at: SequenceNo, delta: Delta)
    ensures var batch := ReconcileBatch(nodes, sessionId, at, delta);
            && (RequestAnchorId(sessionId, at) in nodes || FirstProvidedAnchor(batch).Some?)
            && (Source(nodes, sessionId, at) in nodes || IsPut(AllSteps(batch), Source(nodes, sessionId, at)))
  {
    var batch := ReconcileBatch(nodes, sessionId, at, delta);
    if SyntheticAnchor(nodes, sessionId, at).Some? {
      assert batch[0] == AddShellStateReconciliationAnchor(ReconciliationAnchorId(sessionId, at), at);
      ProvidedIsPut(batch);
    }
  }

  lemma ObservedAnchorThere(nodes: Nodes, sessionId: string, at: SequenceNo, batch: seq<Mutation>)
    requires RequestAnchorId(sessionId, at) in nodes || FirstProvidedAnchor(batch).Some?
    ensures var id := ObservedAnchor(nodes, sessionId, at, batch); id in nodes || IsPut(AllSteps(batch), id)
  {
    if FirstProvidedAnchor(batch).Some? {
      ProvidedIsPut(batch);
    }
  }

  lemma ReconcileEndsThere(nodes: Nodes, sessionId: string, at: SequenceNo, delta: Delta)
    ensures var batch := ReconcileBatch(nodes, sessionId, at, delta);
            EndsThere(nodes, AllSteps(batch), AllEdges(batch, ImplicitSource(ObservedAnchor(nodes, sessionId, at, batch), batch)))
  {
    var batch := ReconcileBatch(nodes, sessionId, at, delta);
    var anchorId := ObservedAnchor(nodes, sessionId, at, batch);
    SourceThere(nodes, sessionId, at, delta);
    ObservedAnchorThere(nodes, sessionId, at, batch);
    ReconcileBatchMembers(nodes, sessionId, at, delta);
    NoCommandNoSource(batch, anchorId);
    forall e | e in AllEdges(batch, anchorId)
      ensures (e.source in nodes || IsPut(AllSteps(batch), e.source)) && IsPut(AllSteps(batch), e.target)
    {
      var m := EdgeOrigin(batch, anchorId, e);
      EdgeEnds(nodes, sessionId, at, delta, m, anchorId, e);
      var p :| Put(p) in Steps(m) && p.id == e.target;
      StepsIncluded(batch, m, Put(p));
      PutByIsPut(AllSteps(batch), p);
    }
  }

  lemma BatchRefusedExactly(session: Session, sessionId: string, at: SequenceNo, can: Capabilities, delta: Delta)
    requires WellIndexed(session.graph) && KindsFit(session.graph.nodes, sessionId)
    requires UniqueTargets(delta.upsertAliases) && UniqueTargets(delta.upsertFunctions)
    ensures CommitObserved(session, sessionId, at, can, ReconcileBatch(session.graph.nodes, sessionId, at, delta)).1.Some?
            <==> DeltaClashes(session.graph.nodes, delta, at)
  {
    var nodes := session.graph.nodes;
    SourceThere(nodes, sessionId, at, delta);
    ReconcileReplacesFit(nodes, sessionId, at, delta);
    ReconcileEndsThere(nodes, sessionId, at, delta);
    ObservedRefusedExactly(session, sessionId, at, can, ReconcileBatch(nodes, sessionId, at, delta));
    if DeltaClashes(nodes, delta, at) {
      ClashesDoNotFit(nodes, sessionId, at, delta);
    } else {
      NoClashFits(nodes, sessionId, at, delta);
    }
  }

  // Told from the session and the request.

  /** The snapshot's directory is to be taken over, and the last number has another one in the graph. */
  predicate DirectoryClash(session: Session, request: RuntimeRequest, at: SequenceNo, previous: Option<PreviousCommand>) {
    && request.can.cwd && ShouldReconcileCwd(session.summary, request.before.cwd, at, previous)
    && Clashes(session.graph.nodes, CwdNode(request.before.cwd, at))
  }

  /** Of the last entries of a complete list, one is not held, and the graph has another node under its id. */
  ghost predicate BodyClash(nodes: Nodes, held: map<string, Binding<string>>, bodies: seq<ShellBody>, knowledge: Knowledge,
                            persisted: bool, at: SequenceNo, nodeOf: Binding<string> -> GraphNode) {
    && persisted && knowledge == Complete
    && var live := LastWins(BodyEntries(bodies));
       exists name | name in live ::
         !Holds(held, name, live[name]) && Clashes(nodes, nodeOf(Binding(name, live[name], at)))
  }

  /** Of two entries of one name neither is held, and they are two values without an artifact. */
  ghost predicate EntriesClash(nodes: Nodes, held: map<string, Binding<Variable>>, entries: seq<(string, Variable)>,
                               at: SequenceNo) {
    exists name, x, y | (name, x) in entries && (name, y) in entries ::
      !Holds(held, name, x) && !Holds(held, name, y) && TwoValues(nodes, at, name, x, y)
  }

  /** A partial list has two values produced at run time for one name. */
  ghost predicate ValueClash(session: Session, request: RuntimeRequest, at: SequenceNo, previous: Option<PreviousCommand>) {
    && request.can.exportedEnvironment && request.before.variableKnowledge == ExportedOnly
    && EntriesClash(session.graph.nodes, session.summary.variables, ExportedEntries(request.before.variables, previous), at)
  }

  lemma LiveClashExactly(nodes: Nodes, held: map<string, Binding<string>>, live: map<string, string>, at: SequenceNo,
                         nodeOf: Binding<string> -> GraphNode)
    ensures BodiesClash(nodes, Mismatched(held, InNameOrder(live), at), at, nodeOf) <==>
            exists name | name in live ::
              !Holds(held, name, live[name]) && Clashes(nodes, nodeOf(Binding(name, live[name], at)))
  {
    var upserts := Mismatched(held, InNameOrder(live), at);
    MismatchedMembers(held, InNameOrder(live), at);
    if BodiesClash(nodes, upserts, at, nodeOf) {
      var b :| b in upserts && Clashes(nodes, nodeOf(Restamped(b, at)));
      assert b == Restamped(b, at) == Binding(b.name, live[b.name], at);
    }
    if name :| name in live && !Holds(held, name, live[name]) && Clashes(nodes, nodeOf(Binding(name, live[name], at))) {
      var b := Binding(name, live[name], at);
      assert (name, live[name]) in InNameOrder(live);
      assert b in upserts && b == Restamped(b, at);
    }
  }

  lemma BodiesClashExactly(nodes: Nodes, held: map<string, Binding<string>>, bodies: seq<ShellBody>, knowledge: Knowledge,
                           persisted: bool, at: SequenceNo, nodeOf: Binding<string> -> GraphNode)
    ensures BodyClash(nodes, held, bodies, knowledge, persisted, at, nodeOf)
            <==> BodiesClash(nodes, ReconcileBodies(held, bodies, knowledge, persisted, at).0, at, nodeOf)
  {
    LiveClashExactly(nodes, held, LastWins(BodyEntries(bodies)), at, nodeOf);
  }

  lemma EntriesClashExactly(nodes: Nodes, held: map<string, Binding<Variable>>, entries: seq<(string, Variable)>,
                            at: SequenceNo)
    ensures ValuesClash(nodes, Mismatched(held, entries, at), at) <==> EntriesClash(nodes, held, entries, at)
  {
    var upserts := Mismatched(held, entries, at);
    MismatchedMembers(held, entries, at);
    if name, x, y :| (name, x) in entries && (name, y) in entries
                     && !Holds(held, name, x) && !Holds(held, name, y) && TwoValues(nodes, at, name, x, y) {
      assert Binding(name, x, at) in upserts && Binding(name, y, at) in upserts;
    }
  }

  lemma UniqueNoClash(nodes: Nodes, bs: seq<Binding<Variable>>, at: SequenceNo)
    requires UniqueTargets(bs)
    ensures !ValuesClash(nodes, bs, at)
  {
  }

  lemma ValuesClashExactly(session: Session, request: RuntimeRequest, at: SequenceNo, previous: Option<PreviousCommand>)
    ensures ValueClash(session, request, at, previous) <==>
            ValuesClash(session.graph.nodes,
                        ReconcileVariables(session.summary, request.before, at, previous, request.can).0, at)
  {
    var s, nodes, can := session.summary, session.graph.nodes, request.can;
    if can.exportedEnvironment && request.before.variableKnowledge == ExportedOnly {
      EntriesClashExactly(nodes, s.variables, ExportedEntries(request.before.variables, previous), at);
    } else {
      VariableUpsertsAvoidUnsets(s, request.before, at, previous, can);
      UniqueNoClash(nodes, ReconcileVariables(s, request.before, at, previous, can).0, at);
    }
  }

  /** What a reconciliation would have to put over something else. */
  ghost predicate Refused(session: Session, request: RuntimeRequest, parse: Parser) {
    && session.summary.lastSequenceNo.Some?
    && var (at, nodes, before) := (session.summary.lastSequenceNo.value, session.graph.nodes, request.before);
       var previous := PreviousContext(nodes, RequestAnchorId(request.sessionId, at), parse);
       || DirectoryClash(session, request, at, previous)
       || BodyClash(nodes, session.summary.aliases, before.aliases, before.aliasKnowledge, request.can.aliases, at, AliasNode)
       || BodyClash(nodes, session.summary.functions, before.functions, before.functionKnowledge, request.can.functions, at,
                    FunctionNode)
       || ValueClash(session, request, at, previous)
  }

  /**
   * Reconciliation is refused exactly when the last number has another directory, an alias or a function has another
   * body under the id that it would get, or one name has two new values.
   */
  lemma RefusedExactly(session: Session, request: RuntimeRequest, parse: Parser)
    requires WellIndexed(session.graph) && KindsFit(session.graph.nodes, request.sessionId)
    ensures ReconcileBefore(session, request, parse).1.Some? <==> Refused(session, request, parse)
  {
    if session.summary.lastSequenceNo.Some? {
      var at := session.summary.lastSequenceNo.value;
      DeltaRefusedExactly(session, request, parse, at);
      ClashesExactly(session, request, at, PreviousContext(session.graph.nodes, RequestAnchorId(request.sessionId, at), parse));
    }
  }

  lemma DeltaRefusedExactly(session: Session, request: RuntimeRequest, parse: Parser, at: SequenceNo)
    requires WellIndexed(session.graph) && KindsFit(session.graph.nodes, request.sessionId)
    requires session.summary.lastSequenceNo == Some(at)
    ensures ReconcileBefore(session, request, parse).1.Some? <==>
            DeltaClashes(session.graph.nodes, DeltaBefore(session, request, parse), at)
  {
    var previous := PreviousContext(session.graph.nodes, RequestAnchorId(request.sessionId, at), parse);
    UpsertsAvoidUnsets(session.summary, request.before, at, previous, request.can);
    BatchRefusedExactly(session, request.sessionId, at, request.can, DeltaBefore(session, request, parse));
    NoChangeNoClash(session.graph.nodes, at);
  }

  lemma NoChangeNoClash(nodes: Nodes, at: SequenceNo)
    ensures !DeltaClashes(nodes, NO_CHANGE, at)
  {
  }

  lemma ClashesExactly(session: Session, request: RuntimeRequest, at: SequenceNo, previous: Option<PreviousCommand>)
    ensures var (nodes, s, before, can) := (session.graph.nodes, session.summary, request.before, request.can);
            DeltaClashes(nodes, Reconcile(s, before, at, previous, can), at) <==>
            || DirectoryClash(session, request, at, previous)
            || BodyClash(nodes, s.aliases, before.aliases, before.aliasKnowledge, can.aliases, at, AliasNode)
            || BodyClash(nodes, s.functions, before.functions, before.functionKnowledge, can.functions, at, FunctionNode)
            || ValueClash(session, request, at, previous)
  {
    var nodes, s, before, can := session.graph.nodes, session.summary, request.before, request.can;
    BodiesClashExactly(nodes, s.aliases, before.aliases, before.aliasKnowledge, can.aliases, at, AliasNode);
    BodiesClashExactly(nodes, s.functions, before.functions, before.functionKnowledge, can.functions, at, FunctionNode);
    ValuesClashExactly(session, request, at, previous);
  }

  // A redefined function is refused whatever else the graph has.

  /** The graph has another definition of a function under the very id that the delta's upsert will put. */
  predicate Redefines(nodes: Nodes, delta: Delta, at: SequenceNo, i: nat) {
    && i < |delta.upsertFunctions|
    && var b := delta.upsertFunctions[i];
       && FunctionBindingId(b.name, at) in nodes
       && nodes[FunctionBindingId(b.name, at)].kind.FunctionBinding?
       && nodes[FunctionBindingId(b.name, at)].kind != FunctionBinding(b.name, b.content, at)
  }

  lemma RedefiningBatchFails(session: Session, sessionId: string, at: SequenceNo, can: Capabilities, delta: Delta,
                             i: nat)
    requires WellIndexed(session.graph) && Redefines(session.graph.nodes, delta, at, i)
    ensures CommitObserved(session, sessionId, at, can, ReconcileBatch(session.graph.nodes, sessionId, at, delta)).1.Some?
  {
    var b := Restamped(delta.upsertFunctions[i], at);
    var m, node := UpsertFunctionBinding(b), GraphNode(FunctionBindingId(b.name, at), FunctionBinding(b.name, b.content, at));
    FunctionInBatch(session.graph.nodes, sessionId, at, delta, i);
    assert Steps(m) == [Put(node)];
    ObservedConflicts(session, sessionId, at, can, ReconcileBatch(session.graph.nodes, sessionId, at, delta), m, node);
  }

  /** A function that the previous command defined one way and the shell reports another way cannot be reconciled. */
  lemma RedefinitionConflicts(session: Session, request: RuntimeRequest, parse: Parser, at: SequenceNo, i: nat)
    requires WellIndexed(session.graph) && session.summary.lastSequenceNo == Some(at)
    requires Redefines(session.graph.nodes, DeltaBefore(session, request, parse), at, i)
    ensures ReconcileBefore(session, request, parse).1.Some?
  {
    RedefiningBatchFails(session, request.sessionId, at, request.can, DeltaBefore(session, request, parse), i);
  }

  lemma ObservedConflicts(session: Session, sessionId: string, n: SequenceNo, can: Capabilities, batch: seq<Mutation>,
                          m: Mutation, node: GraphNode)
    requires WellIndexed(session.graph) && m in batch && m.TouchesGraph() && Put(node) in Steps(m)
    requires node.id in session.graph.nodes && !session.graph.nodes[node.id].kind.ProvenanceArtifact?
    requires session.graph.nodes[node.id] != node
    ensures CommitObserved(session, sessionId, n, can, batch).1.Some?
  {
    var anchorId := ObservedCases(session, sessionId, n, can, batch);
    BatchConflicts(session.graph, anchorId, batch, m, node);
  }

  lemma BatchConflicts(g: Graph, anchorId: NodeId, batch: seq<Mutation>, m: Mutation, node: GraphNode)
    requires WellIndexed(g) && m in batch && Put(node) in Steps(m)
    requires node.id in g.nodes && !g.nodes[node.id].kind.ProvenanceArtifact? && g.nodes[node.id] != node
    ensures ApplyBatch(g, anchorId, batch).Failure?
  {
    StepsIncluded(batch, m, Put(node));
    if CheckSteps(g.nodes, Virtual(None), AllSteps(batch)).Success? {
      PutConflicts(g.nodes, Virtual(None), AllSteps(batch), node);
    }
  }

  lemma FunctionInBatch(nodes: Nodes, sessionId: string, at: SequenceNo, delta: Delta, i: nat)
    requires i < |delta.upsertFunctions|
    ensures UpsertFunctionBinding(Restamped(delta.upsertFunctions[i], at)) in ReconcileBatch(nodes, sessionId, at, delta)
  {
    assert FunctionUpserts(delta.upsertFunctions, at)[i] == UpsertFunctionBinding(Restamped(delta.upsertFunctions[i], at));
    assert FunctionUpserts(delta.upsertFunctions, at)[i] in SummaryMutations(delta, at);
    assert FunctionUpserts(delta.upsertFunctions, at)[i] in PendingMutations(delta, at, SyntheticAnchor(nodes, sessionId, at));
  }
}
