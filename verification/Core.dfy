/** Runs of runtime checks over one session: reconcile with the shell, number the request, decide, commit or observe. */
module CoreRuns {
  import opened Wrappers
  import Text
  import opened GraphTypes
  import opened GraphIndex
  import opened ExecutionSemanticsIndex
  import opened SessionSummary
  import opened Mutations
  import opened Batches
  import opened Reconciliation
  import opened Agreement
  import opened UpdateOrder
  import opened Sessions

  datatype RuntimeRequest =
    RuntimeRequest(sessionId: string, command: string, before: Snapshot, shellKind: Payload, can: Capabilities)

  /** What the passes decide and stage; any verdict may come. */
  datatype Verdict = Verdict(allow: bool, batch: seq<Mutation>)

  type Parser = (string, Payload) -> PreviousCommand

  datatype Outcome =
    | Checked(n: SequenceNo, allowed: bool)
    | NotPrepared(error: CommitError)
    | NotCommitted(n: SequenceNo, error: CommitError)

  function NextSequenceNo(s: Summary): SequenceNo {
    if s.lastSequenceNo.Some? then s.lastSequenceNo.value + 1 else 1
  }

  function Numbered(request: RuntimeRequest, n: SequenceNo): Request {
    Request(request.sessionId, n, request.command, request.before, request.shellKind, request.can)
  }

  function PreviousContext(nodes: Nodes, anchorId: NodeId, parse: Parser): Option<PreviousCommand> {
    if anchorId !in nodes then None
    else match nodes[anchorId].kind
      case RequestAnchor(_, _, text, _, shell) => Some(parse(text, shell))
      case CommandInvocation(_, _, text, _, shell) => Some(parse(text, shell))
      case _ => None
  }

  /** A value produced at run time gets an artifact, or has its artifact replaced. */
  function ProvenanceMutation(nodes: Nodes, source: NodeId, b: Binding<Variable>): seq<Mutation> {
    if !b.content.value.RuntimeProduced? then []
    else
      var kind := if b.content.value.kind == PathKind then "path" else "scalar";
      var artifact := VariableValue(b.name, b.content.value.text, kind, b.content.exported, b.observedAt);
      var id := VariableValueId(b.name, b.observedAt);
      if id in nodes then [ReplaceProvenanceArtifact(id, artifact)]
      else [AddFact(source, GraphNode(id, ProvenanceArtifact(artifact)), Produces, Some("Produce VariableBinding " + b.name))]
  }

  function ProvenanceMutations(nodes: Nodes, source: NodeId, bs: seq<Binding<Variable>>,
                               at: SequenceNo)
    : seq<Mutation>
  {
    if bs == [] then []
    else ProvenanceMutation(nodes, source, Restamped(bs[0], at)) + ProvenanceMutations(nodes, source, bs[1..], at)
  }

  /** Present exactly when the previous request left no anchor. */
  function SyntheticAnchor(nodes: Nodes, sessionId: string, at: SequenceNo): Option<NodeId> {
    if RequestAnchorId(sessionId, at) in nodes then None else Some(ReconciliationAnchorId(sessionId, at))
  }

  function ReconcileBatch(nodes: Nodes, sessionId: string, at: SequenceNo,
                          delta: Delta): seq<Mutation> {
    var synthetic := SyntheticAnchor(nodes, sessionId, at);
    var source := if synthetic.Some? then synthetic.value else RequestAnchorId(sessionId, at);
    PendingMutations(delta, at, synthetic) + ProvenanceMutations(nodes, source, delta.upsertVariables, at)
  }

  function DeltaBefore(session: Session, request: RuntimeRequest, parse: Parser): Delta {
    if session.summary.lastSequenceNo.None? then NO_CHANGE
    else
      var at := session.summary.lastSequenceNo.value;
      Reconcile(session.summary, request.before, at,
                PreviousContext(session.graph.nodes, RequestAnchorId(request.sessionId, at), parse), request.can)
  }

  function ReconcileBefore(session: Session, request: RuntimeRequest, parse: Parser): (Session, Option<CommitError>)
    requires WellIndexed(session.graph)
  {
    var delta := DeltaBefore(session, request, parse);
    if delta == NO_CHANGE then (session, None)
    else
      var at := session.summary.lastSequenceNo.value;
      CommitObserved(session, request.sessionId, at, request.can,
                     ReconcileBatch(session.graph.nodes, request.sessionId, at, delta))
  }

  function Check(session: Session, request: Request, verdict: Verdict): (Session, Option<CommitError>)
    requires WellIndexed(session.graph)
  {
    if verdict.allow then CommitAllowed(session, verdict.batch, request)
    else (session.(summary := ObserveRequest(session.summary, request)), None)
  }

  lemma CheckWellIndexed(session: Session, request: Request, verdict: Verdict)
    requires WellIndexed(session.graph)
    ensures WellIndexed(Check(session, request, verdict).0.graph)
  {
    if verdict.allow {
      if CommitAllowed(session, verdict.batch, request).1.None? {
        SuccessfulCommit(session, verdict.batch, request);
      } else {
        FailedCommit(session, verdict.batch, request);
      }
    }
  }

  lemma ReconcileWellIndexed(session: Session, request: RuntimeRequest, parse: Parser)
    requires WellIndexed(session.graph)
    ensures WellIndexed(ReconcileBefore(session, request, parse).0.graph)
  {
    var delta := DeltaBefore(session, request, parse);
    if delta != NO_CHANGE {
      var at := session.summary.lastSequenceNo.value;
      ObservedCommit(session, request.sessionId, at, request.can,
                     ReconcileBatch(session.graph.nodes, request.sessionId, at, delta));
    }
  }

  function CheckNumbered(prepared: Session, request: RuntimeRequest, verdict: Verdict): (r: (Session, Outcome))
    requires WellIndexed(prepared.graph)
    ensures WellIndexed(r.0.graph)
  {
    var n := NextSequenceNo(prepared.summary);
    var (after, error) := Check(prepared, Numbered(request, n), verdict);
    CheckWellIndexed(prepared, Numbered(request, n), verdict);
    (after, if error.Some? then NotCommitted(n, error.value) else Checked(n, verdict.allow))
  }

  function CheckRuntime(session: Session, request: RuntimeRequest, parse: Parser,
                        verdict: Verdict): (r: (Session, Outcome))
    requires WellIndexed(session.graph)
    ensures WellIndexed(r.0.graph)
  {
    var (prepared, failed) := ReconcileBefore(session, request, parse);
    ReconcileWellIndexed(session, request, parse);
    if failed.Some? then (prepared, NotPrepared(failed.value)) else CheckNumbered(prepared, request, verdict)
  }

  // An observed batch.

  /** Either it fails and changes nothing, or only the summary is touched, or the batch is applied whole. */
  lemma ObservedCases(session: Session, sessionId: string, n: SequenceNo, can: Capabilities, batch: seq<Mutation>)
    returns (anchorId: NodeId)
    requires WellIndexed(session.graph)
    ensures var (after, error) := CommitObserved(session, sessionId, n, can, batch);
            if error.Some? then after == session
            else after.summary == ApplyAllLive(session.summary, batch, can)
                 && (if AnyTouchesGraph(batch) then ApplyBatch(session.graph, anchorId, batch) == Success(after.graph)
                     else after.graph == session.graph)
  {
    var commandId, provided := ObservedCommandId(session.graph.nodes, sessionId, n), FirstProvidedAnchor(batch);
    anchorId := if commandId in session.graph.nodes || provided.None? then commandId else provided.value;
  }

  lemma ObservedCommit(session: Session, sessionId: string, n: SequenceNo, can: Capabilities, batch: seq<Mutation>)
    requires WellIndexed(session.graph)
    ensures var (after, error) := CommitObserved(session, sessionId, n, can, batch);
            && (error.Some? ==> after == session)
            && (error.None? ==> after.summary == ApplyAllLive(session.summary, batch, can))
            && WellIndexed(after.graph) && (SemanticsAgrees(session.graph) ==> SemanticsAgrees(after.graph))
            && AllKept(session.graph.nodes, after.graph.nodes, AllSteps(batch))
  {
    var anchorId := ObservedCases(session, sessionId, n, can, batch);
    BatchIsAtomic(session.graph, anchorId, batch);
    if ApplyBatch(session.graph, anchorId, batch).Success? {
      BatchKeepsNodes(session.graph, anchorId, batch);
    }
  }

  // Which ids a batch may put.

  /** No id put looks like a request anchor's, and one that looks like a reconciliation anchor's is the given one. */
  predicate PutsNoAnchorBut(steps: seq<Step>, own: Option<NodeId>) {
    forall i | 0 <= i < |steps| :: steps[i].Put? ==>
      |steps[i].node.id| > 1 && steps[i].node.id[1] != 'o' && (steps[i].node.id[1] == 'h' ==> Some(steps[i].node.id) == own)
  }

  lemma AnchorIdShape(sessionId: string, n: SequenceNo)
    ensures |RequestAnchorId(sessionId, n)| > 1 && RequestAnchorId(sessionId, n)[1] == 'o'
  {
  }

  lemma ReconciliationIdShape(sessionId: string, n: SequenceNo)
    ensures |ReconciliationAnchorId(sessionId, n)| > 1 && ReconciliationAnchorId(sessionId, n)[1] == 'h'
  {
  }

  lemma ReconciliationIdInjective(sessionId: string, m: SequenceNo, n: SequenceNo)
    requires ReconciliationAnchorId(sessionId, m) == ReconciliationAnchorId(sessionId, n)
    ensures m == n
  {
    var head := "shell-state-reconciliation:" + sessionId + ":";
    assert ReconciliationAnchorId(sessionId, m)[|head|..] == Text.Decimal(m);
    assert ReconciliationAnchorId(sessionId, n)[|head|..] == Text.Decimal(n);
    Text.DecimalInjective(m, n);
  }

  lemma AnchorIdInjective(sessionId: string, m: SequenceNo, n: SequenceNo)
    requires RequestAnchorId(sessionId, m) == RequestAnchorId(sessionId, n)
    ensures m == n
  {
    var head := "command-request:" + sessionId + ":";
    assert RequestAnchorId(sessionId, m)[|head|..] == Text.Decimal(m);
    assert RequestAnchorId(sessionId, n)[|head|..] == Text.Decimal(n);
    Text.DecimalInjective(m, n);
  }

  /** Mutations that a reconciliation may stage. */
  predicate Reconciling(m: Mutation, own: Option<NodeId>) {
    match m
    case AddRequestAnchor(_, _, _, _, _, _) => false
    case AddTopLevelCommandInvocation(_, _, _, _, _, _, _) => false
    case AddNestedPayload(_, _, _, _) => false
    case AddShellStateReconciliationAnchor(id, _) => |id| > 1 && id[1] == 'h' && Some(id) == own
    case AddFact(_, fact, _, _) => |fact.id| > 1 && fact.id[1] == 'r'
    case _ => true
  }

  lemma CwdIdShape(n: SequenceNo)
    ensures |CwdStateId(n)| > 1 && CwdStateId(n)[1] == 'w'
  {
  }

  lemma AliasIdShape(b: Binding<string>)
    ensures |AliasBindingId(b)| > 1 && AliasBindingId(b)[1] == 'l'
  {
  }

  lemma FunctionIdShape(name: string, n: SequenceNo)
    ensures |FunctionBindingId(name, n)| > 1 && FunctionBindingId(name, n)[1] == 'u'
  {
  }

  lemma AliasUnsetIdShape(name: string, n: SequenceNo)
    ensures |AliasUnsetId(name, n)| > 1 && AliasUnsetId(name, n)[1] == 'l'
  {
  }

  lemma ReconcilingSteps(m: Mutation, own: Option<NodeId>)
    requires Reconciling(m, own)
    ensures PutsNoAnchorBut(Steps(m), own)
  {
    match m {
      case SetCurrentWorkingDirectory(_, n, _) => CwdIdShape(n);
      case UpsertAliasBinding(b) => AliasIdShape(b);
      case UpsertFunctionBinding(b) => FunctionIdShape(b.name, b.observedAt);
      case UnsetAliasBinding(name, n) => AliasUnsetIdShape(name, n);
      case _ =>
    }
  }

  lemma {:induction false} ReconcilingBatch(batch: seq<Mutation>, own: Option<NodeId>)
    requires forall m | m in batch :: Reconciling(m, own)
    ensures PutsNoAnchorBut(AllSteps(batch), own)
  {
    if batch != [] {
      assert batch[0] in batch;
      ReconcilingSteps(batch[0], own);
      ReconcilingBatch(batch[1..], own);
    }
  }

  /** One mutation or none, about an artifact. */
  lemma ProvenanceShape(nodes: Nodes, source: NodeId, b: Binding<Variable>)
    ensures var ms := ProvenanceMutation(nodes, source, b);
            |ms| <= 1 && forall m | m in ms :: (m.AddFact? && m.fact.id == VariableValueId(b.name, b.observedAt))
                                               || m.ReplaceProvenanceArtifact?
  {
  }

  lemma ArtifactIdShape(name: string, n: SequenceNo)
    ensures |VariableValueId(name, n)| > 1 && VariableValueId(name, n)[1] == 'r'
  {
  }

  /** About an artifact only: it puts nothing else, and nothing in the summary. */
  predicate AboutArtifact(m: Mutation) {
    m.ReplaceProvenanceArtifact? || (m.AddFact? && |m.fact.id| > 1 && m.fact.id[1] == 'r')
  }

  lemma {:induction false} ProvenanceReconciles(nodes: Nodes, source: NodeId,
                                                bs: seq<Binding<Variable>>,
                                                at: SequenceNo)
    ensures forall m | m in ProvenanceMutations(nodes, source, bs, at) :: AboutArtifact(m)
  {
    if bs != [] {
      ProvenanceReconciles(nodes, source, bs[1..], at);
      ProvenanceShape(nodes, source, Restamped(bs[0], at));
      ArtifactIdShape(bs[0].name, at);
    }
  }

  lemma {:induction false} GraphOnlyBatch(s: Summary, batch: seq<Mutation>, can: Capabilities)
    requires forall m | m in batch :: TargetOf(m) == NoTarget
    ensures ApplyAllLive(s, batch, can) == s
  {
    if batch != [] {
      assert batch[0] in batch;
      GraphOnlyBatch(s, batch[1..], can);
    }
  }

  /** The mutations of a reconciliation, and the one among them about the directory. */
  lemma ReconcileBatchMembers(nodes: Nodes, sessionId: string, at: SequenceNo, delta: Delta)
    ensures forall m | m in ReconcileBatch(nodes, sessionId, at, delta) ::
              Reconciling(m, SyntheticAnchor(nodes, sessionId, at))
              && (m.SetCurrentWorkingDirectory? ==> [m] == CwdMutation(delta.cwdAfter, at))
  {
    var synthetic := SyntheticAnchor(nodes, sessionId, at);
    var source := if synthetic.Some? then synthetic.value else RequestAnchorId(sessionId, at);
    ReconciliationIdShape(sessionId, at);
    ProvenanceReconciles(nodes, source, delta.upsertVariables, at);
    forall m | m in ReconcileBatch(nodes, sessionId, at, delta)
      ensures Reconciling(m, synthetic) && (m.SetCurrentWorkingDirectory? ==> [m] == CwdMutation(delta.cwdAfter, at))
    {
      if m in SummaryMutations(delta, at) {
        AllBelong(delta, at, m);
      } else {
        assert m in ProvenanceMutations(nodes, source, delta.upsertVariables, at)
            || (synthetic.Some? && m == AddShellStateReconciliationAnchor(synthetic.value, at));
      }
    }
  }

  lemma ReconcileBatchHasCwd(nodes: Nodes, sessionId: string, at: SequenceNo, delta: Delta)
    requires delta.cwdAfter.Some?
    ensures SetCurrentWorkingDirectory(delta.cwdAfter.value, at, RuntimeSnapshot) in ReconcileBatch(nodes, sessionId, at, delta)
  {
    assert CwdMutation(delta.cwdAfter, at)[0] == SetCurrentWorkingDirectory(delta.cwdAfter.value, at, RuntimeSnapshot);
    assert CwdMutation(delta.cwdAfter, at)[0] in SummaryMutations(delta, at);
    assert CwdMutation(delta.cwdAfter, at)[0] in PendingMutations(delta, at, SyntheticAnchor(nodes, sessionId, at));
  }

  /** The batch of a reconciliation puts no request anchor, and makes of the summary what the delta says. */
  lemma ReconcileBatchExact(nodes: Nodes, sessionId: string, at: SequenceNo, delta: Delta, s: Summary,
                            can: Capabilities)
    ensures var batch := ReconcileBatch(nodes, sessionId, at, delta);
            && PutsNoAnchorBut(AllSteps(batch), SyntheticAnchor(nodes, sessionId, at))
            && ApplyAllLive(s, batch, can) == ApplyAllLive(s, SummaryMutations(delta, at), can)
  {
    var synthetic := SyntheticAnchor(nodes, sessionId, at);
    var source := if synthetic.Some? then synthetic.value else RequestAnchorId(sessionId, at);
    var head := if synthetic.Some? then [AddShellStateReconciliationAnchor(synthetic.value, at)] else [];
    var middle := SummaryMutations(delta, at);
    var tail := ProvenanceMutations(nodes, source, delta.upsertVariables, at);
    var batch := ReconcileBatch(nodes, sessionId, at, delta);
    assert batch == head + middle + tail;
    ReconcileBatchMembers(nodes, sessionId, at, delta);
    ReconcilingBatch(batch, synthetic);
    var after := ApplyAllLive(s, middle, can);
    ApplyConcat(s, head, middle, can);
    assert ApplyAllLive(s, head, can) == s;
    ApplyConcat(s, head + middle, tail, can);
    ProvenanceReconciles(nodes, source, delta.upsertVariables, at);
    assert forall m | m in tail :: AboutArtifact(m);
    GraphOnlyBatch(after, tail, can);
  }

  lemma ObservedMissesAnchor(session: Session, sessionId: string, n: SequenceNo, can: Capabilities,
                             batch: seq<Mutation>)
    requires WellIndexed(session.graph)
    requires RequestAnchorId(sessionId, n) in session.graph.nodes || FirstProvidedAnchor(batch).Some?
    ensures var error := CommitObserved(session, sessionId, n, can, batch).1;
            error.None? || error.value.MutationGraph?
  {
  }

  /** An anchor is always at hand: the previous command's, or the synthetic one staged first. */
  lemma NoMissingAnchor(session: Session, request: RuntimeRequest, parse: Parser)
    requires WellIndexed(session.graph)
    ensures var error := ReconcileBefore(session, request, parse).1;
            error.None? || error.value.MutationGraph?
  {
    var delta := DeltaBefore(session, request, parse);
    if delta != NO_CHANGE {
      var at := session.summary.lastSequenceNo.value;
      var nodes := session.graph.nodes;
      var batch := ReconcileBatch(nodes, request.sessionId, at, delta);
      if SyntheticAnchor(nodes, request.sessionId, at).Some? {
        assert batch[0] == AddShellStateReconciliationAnchor(ReconciliationAnchorId(request.sessionId, at), at);
      }
      ObservedMissesAnchor(session, request.sessionId, at, request.can, batch);
    }
  }

  /**
   * Reconciliation is the summary-level one; it fails whole; it adds no request anchor, and no reconciliation
   * anchor but its own.
   */
  lemma ReconcileExact(session: Session, request: RuntimeRequest, parse: Parser)
    requires WellIndexed(session.graph) && Valid(session.summary)
    ensures var (after, error) := ReconcileBefore(session, request, parse);
            && (error.Some? ==> after == session)
            && WellIndexed(after.graph) && (SemanticsAgrees(session.graph) ==> SemanticsAgrees(after.graph))
            && Valid(after.summary) && after.summary.lastSequenceNo == session.summary.lastSequenceNo
            && (error.None? && session.summary.lastSequenceNo.Some? && request.can.cwd ==> after.summary.cwd.Some?)
    ensures forall n :: AnchorsKept(session, ReconcileBefore(session, request, parse).0, request.sessionId, n)
  {
    if session.summary.lastSequenceNo.Some? {
      var at := session.summary.lastSequenceNo.value;
      var nodes := session.graph.nodes;
      var previous := PreviousContext(nodes, RequestAnchorId(request.sessionId, at), parse);
      var delta := DeltaBefore(session, request, parse);
      var batch := ReconcileBatch(nodes, request.sessionId, at, delta);
      ReconcileAgrees(session.summary, request.before, at, previous, request.can);
      ReconcileBatchExact(nodes, request.sessionId, at, delta, session.summary, request.can);
      ObservedCommit(session, request.sessionId, at, request.can, batch);
      var after := ReconcileBefore(session, request, parse).0;
      forall n ensures AnchorsKept(session, after, request.sessionId, n) {
        if delta != NO_CHANGE {
          AnchorsKeptAt(session, after, request.sessionId, at, AllSteps(batch), n);
        }
      }
    }
  }

  /** Anchors before and after a reconciliation. */
  ghost predicate AnchorsKept(before: Session, after: Session, sessionId: string, n: SequenceNo) {
    var request, own := RequestAnchorId(sessionId, n), ReconciliationAnchorId(sessionId, n);
    && (request in after.graph.nodes <==> request in before.graph.nodes)
    && (own in after.graph.nodes ==>
          own in before.graph.nodes || (before.summary.lastSequenceNo == Some(n) && request !in before.graph.nodes))
  }

  lemma AnchorsKeptAt(before: Session, after: Session, sessionId: string, at: SequenceNo, steps: seq<Step>,
                      n: SequenceNo)
    requires AllKept(before.graph.nodes, after.graph.nodes, steps) && before.summary.lastSequenceNo == Some(at)
    requires PutsNoAnchorBut(steps, SyntheticAnchor(before.graph.nodes, sessionId, at))
    ensures AnchorsKept(before, after, sessionId, n)
  {
    AnchorIdShape(sessionId, n);
    ReconciliationIdShape(sessionId, n);
    assert NodeKept(before.graph.nodes, after.graph.nodes, steps, RequestAnchorId(sessionId, n));
    assert NodeKept(before.graph.nodes, after.graph.nodes, steps, ReconciliationAnchorId(sessionId, n));
    forall node | PutBy(steps, node) ensures IsPut(steps, node.id) {
      PutByIsPut(steps, node);
    }
    if ReconciliationAnchorId(sessionId, n) == ReconciliationAnchorId(sessionId, at) {
      ReconciliationIdInjective(sessionId, n, at);
    }
  }
}
