/** Which sessions get to a point where reconciliation is refused, and that they stay there. */
module RefusedRuns {
  import opened Wrappers
  import Text
  import opened GraphTypes
  import opened GraphIndex
  import opened SessionSummary
  import opened Mutations
  import opened Batches
  import opened Reconciliation
  import opened Agreement
  import opened UpdateOrder
  import opened Sessions
  import opened CoreRuns
  import opened RunProperties
  import opened CwdOnce
  import opened Refusals

  // Kinds by id, in every run.

  /** Nodes that a batch puts under ids that reconciliation uses are of the kinds that it expects there. */
  ghost predicate FitBatch(batch: seq<Mutation>, sessionId: string) {
    StepsFit(AllSteps(batch), sessionId)
  }

  ghost predicate StepsFit(steps: seq<Step>, sessionId: string) {
    forall p | Put(p) in steps :: Fits(p, sessionId)
  }

  /** An artifact fits under an id under which another artifact does. */
  lemma ArtifactFits(p: GraphNode, q: GraphNode, sessionId: string)
    requires Fits(p, sessionId) && p.id == q.id && p.kind.ProvenanceArtifact? && q.kind.ProvenanceArtifact?
    ensures Fits(q, sessionId)
  {
  }

  lemma NewNodeFits(steps: seq<Step>, node: GraphNode, sessionId: string)
    requires StepsFit(steps, sessionId) && PutBy(steps, node)
    ensures Fits(node, sessionId)
  {
    if Put(node) !in steps {
      var i :| 0 <= i < |steps| && steps[i].Put? && steps[i].node.id == node.id && steps[i].node.kind.ProvenanceArtifact?;
      assert Put(steps[i].node) in steps;
      ArtifactFits(steps[i].node, node, sessionId);
    }
  }

  lemma KindsKept(before: Nodes, after: Nodes, steps: seq<Step>, sessionId: string)
    requires KindsFit(before, sessionId) && StepsFit(steps, sessionId) && AllKept(before, after, steps)
    requires forall id | id in after :: after[id].id == id
    ensures KindsFit(after, sessionId)
  {
    forall id | id in after ensures Fits(after[id], sessionId) {
      assert NodeKept(before, after, steps, id);
      if id !in before {
        NewNodeFits(steps, after[id], sessionId);
      } else if after[id] != before[id] {
        ArtifactFits(before[id], after[id], sessionId);
      }
    }
  }

  /** The number at the end of an id is recovered from the text. */
  lemma SameEnd(x: string, y: string, m: SequenceNo, n: SequenceNo)
    requires x + ":" + Text.Decimal(m) == y + ":" + Text.Decimal(n)
    ensures x == y && m == n
  {
    var d, e := Text.Decimal(m), Text.Decimal(n);
    ColonThenDigits(x, y, d, e);
    Text.DecimalInjective(m, n);
  }

  lemma LastColon(x: string, d: string, i: nat)
    requires Text.AllDigits(d) && i < |x + ":" + d| && (x + ":" + d)[i] == ':'
    ensures i <= |x|
  {
    assert forall j | |x| < j < |x + ":" + d| :: (x + ":" + d)[j] == d[j - |x| - 1];
  }

  lemma ColonThenDigits(x: string, y: string, d: string, e: string)
    requires x + ":" + d == y + ":" + e && Text.AllDigits(d) && Text.AllDigits(e)
    ensures x == y && d == e
  {
    LastColon(x, d, |y|);
    LastColon(y, e, |x|);
    assert x == (x + ":" + d)[..|x|] && d == (x + ":" + d)[|x| + 1..];
    assert y == (y + ":" + e)[..|y|] && e == (y + ":" + e)[|y| + 1..];
  }

  lemma UnsetIdExact(x: string, m: SequenceNo, y: string, n: SequenceNo)
    requires AliasUnsetId(x, m) == AliasUnsetId(y, n)
    ensures x == y && m == n
  {
    assert AliasUnsetId(x, m) == ("alias-mutation:" + x + ":unset") + ":" + Text.Decimal(m);
    assert AliasUnsetId(y, n) == ("alias-mutation:" + y + ":unset") + ":" + Text.Decimal(n);
    SameEnd("alias-mutation:" + x + ":unset", "alias-mutation:" + y + ":unset", m, n);
    SameMiddle("alias-mutation:", x, y, ":unset", ":unset");
  }

  /** A node whose id is of one part's form fits, if it is what that part gives. */
  lemma BegunFits(node: GraphNode, sessionId: string, o: Origin)
    requires Begins(node.id, o)
    requires o.FromAnchor? ==>
               exists k: SequenceNo ::
                 node == GraphNode(ReconciliationAnchorId(sessionId, k), ShellStateReconciliationAnchor(k))
    requires o.FromUnset? ==>
               exists name, k: SequenceNo :: node == GraphNode(AliasUnsetId(name, k), AliasMutation(name, "unset", k))
    requires o.FromVariable? ==> node.kind.ProvenanceArtifact?
    ensures Fits(node, sessionId)
  {
    forall k: SequenceNo | node.id == ReconciliationAnchorId(sessionId, k)
      ensures node.kind == ShellStateReconciliationAnchor(k)
    {
      OthersBegin(sessionId, k);
      var n: SequenceNo :| node == GraphNode(ReconciliationAnchorId(sessionId, n), ShellStateReconciliationAnchor(n));
      ReconciliationIdInjective(sessionId, k, n);
    }
    forall name, k: SequenceNo | node.id == AliasUnsetId(name, k) ensures node.kind == AliasMutation(name, "unset", k) {
      UnsetBegins(name, k, FromUnset(0));
      var other, n: SequenceNo :| node == GraphNode(AliasUnsetId(other, n), AliasMutation(other, "unset", n));
      UnsetIdExact(name, k, other, n);
    }
    forall name, k: SequenceNo | node.id == VariableValueId(name, k) ensures node.kind.ProvenanceArtifact? {
      ValueBegins(name, k, FromVariable(0));
    }
  }

  lemma GivenFits(nodes: Nodes, sessionId: string, delta: Delta, at: SequenceNo, o: Origin)
    requires Gives(nodes, delta, at, o)
    ensures Fits(Given(nodes, sessionId, delta, at, o), sessionId)
  {
    GivenBegins(nodes, sessionId, delta, at, o);
    BegunFits(Given(nodes, sessionId, delta, at, o), sessionId, o);
  }

  lemma ReconcileFits(nodes: Nodes, sessionId: string, at: SequenceNo, delta: Delta)
    ensures FitBatch(ReconcileBatch(nodes, sessionId, at, delta), sessionId)
  {
    forall p | Put(p) in AllSteps(ReconcileBatch(nodes, sessionId, at, delta)) ensures Fits(p, sessionId) {
      var o := PutOrigin(nodes, sessionId, at, delta, p);
      GivenFits(nodes, sessionId, delta, at, o);
    }
  }

  lemma ReconcileKeepsKinds(session: Session, request: RuntimeRequest, parse: Parser)
    requires WellIndexed(session.graph) && KindsFit(session.graph.nodes, request.sessionId)
    ensures KindsFit(ReconcileBefore(session, request, parse).0.graph.nodes, request.sessionId)
  {
    var delta := DeltaBefore(session, request, parse);
    if delta != NO_CHANGE {
      var at, nodes := session.summary.lastSequenceNo.value, session.graph.nodes;
      var batch := ReconcileBatch(nodes, request.sessionId, at, delta);
      ObservedCommit(session, request.sessionId, at, request.can, batch);
      ReconcileFits(nodes, request.sessionId, at, delta);
      KindsKept(nodes, ReconcileBefore(session, request, parse).0.graph.nodes, AllSteps(batch), request.sessionId);
    }
  }

  lemma AnchorFits(request: Request)
    ensures Fits(AnchorNode(request), request.sessionId)
  {
    var id := AnchorNode(request).id;
    AnchorIdShape(request.sessionId, request.sequenceNo);
    forall name, k: SequenceNo
      ensures id != ReconciliationAnchorId(request.sessionId, k) && id != AliasUnsetId(name, k) && id != VariableValueId(name, k)
    {
      ReconciliationIdShape(request.sessionId, k);
      AliasUnsetIdShape(name, k);
      ArtifactIdShape(name, k);
    }
  }

  lemma CommittedKinds(nodes: Nodes, after: Nodes, batch: seq<Mutation>, request: Request)
    requires KindsFit(nodes, request.sessionId) && FitBatch(batch, request.sessionId)
    requires AllKept(nodes[AnchorNode(request).id := AnchorNode(request)], after, AllSteps(batch))
    requires forall id | id in after :: after[id].id == id
    ensures KindsFit(after, request.sessionId)
  {
    AnchorFits(request);
    KindsKept(nodes[AnchorNode(request).id := AnchorNode(request)], after, AllSteps(batch), request.sessionId);
  }

  lemma CommitKeepsKinds(session: Session, batch: seq<Mutation>, request: Request)
    requires WellIndexed(session.graph) && CommitAllowed(session, batch, request).1.None?
    requires KindsFit(session.graph.nodes, request.sessionId) && FitBatch(batch, request.sessionId)
    ensures KindsFit(CommitAllowed(session, batch, request).0.graph.nodes, request.sessionId)
  {
    SuccessfulCommit(session, batch, request);
    CommittedKinds(session.graph.nodes, CommitAllowed(session, batch, request).0.graph.nodes, batch, request);
  }

  lemma CheckKeepsKinds(prepared: Session, sessionId: string, done: nat, allowed: set<nat>, request: RuntimeRequest,
                        verdict: Verdict)
    requires Inv(prepared, sessionId, done, allowed) && Prepared(prepared.summary, request.can)
    requires request.sessionId == sessionId && Honest(verdict, Numbered(request, done + 1))
    requires KindsFit(prepared.graph.nodes, sessionId) && (verdict.allow ==> FitBatch(verdict.batch, sessionId))
    ensures KindsFit(CheckNumbered(prepared, request, verdict).0.graph.nodes, sessionId)
  {
    CheckKeeps(prepared, sessionId, done, allowed, request, verdict);
    CheckNumberedIs(prepared, request, verdict, done + 1);
    var outcome := CheckNumbered(prepared, request, verdict).1;
    if outcome.Checked? && outcome.allowed {
      CommitKeepsKinds(prepared, verdict.batch, Numbered(request, done + 1));
    }
  }

  lemma StepKeepsKinds(session: Session, sessionId: string, done: nat, allowed: set<nat>, request: RuntimeRequest,
                       parse: Parser, verdict: Verdict)
    requires Inv(session, sessionId, done, allowed) && request.sessionId == sessionId
    requires Honest(verdict, Numbered(request, done + 1))
    requires KindsFit(session.graph.nodes, sessionId) && (verdict.allow ==> FitBatch(verdict.batch, sessionId))
    ensures KindsFit(CheckRuntime(session, request, parse, verdict).0.graph.nodes, sessionId)
  {
    var (prepared, failed) := ReconcileBefore(session, request, parse);
    ReconcileKeeps(session, sessionId, done, allowed, request, parse);
    ReconcileKeepsKinds(session, request, parse);
    if failed.None? {
      CheckKeepsKinds(prepared, sessionId, done, allowed, request, verdict);
    }
  }

  ghost predicate FitRun(sessionId: string, events: seq<Event>) {
    forall i | 0 <= i < |events| && events[i].verdict.allow :: FitBatch(events[i].verdict.batch, sessionId)
  }

  lemma {:induction false} RunKeepsKinds(sessionId: string, events: seq<Event>, parse: Parser)
    requires HonestRun(sessionId, events, parse) && FitRun(sessionId, events)
    ensures KindsFit(Run(events, parse).0.graph.nodes, sessionId)
  {
    if events != [] {
      var front, last := events[..|events| - 1], events[|events| - 1];
      assert events[|events| - 1].verdict.allow ==> FitBatch(last.verdict.batch, sessionId);
      RunKeepsKinds(sessionId, front, parse);
      RunKeeps(sessionId, front, parse);
      var (before, earlier) := Run(front, parse);
      StepKeepsKinds(before, sessionId, |Numbers(earlier)|, AllowedNumbers(earlier), last.request, parse, last.verdict);
    }
  }

  /** A check of a request whose reconciliation is refused changes nothing, whatever the verdict would be. */
  lemma RefusedStep(session: Session, request: RuntimeRequest, parse: Parser, verdict: Verdict)
    requires WellIndexed(session.graph) && KindsFit(session.graph.nodes, request.sessionId)
    ensures var (after, outcome) := CheckRuntime(session, request, parse, verdict);
            && (outcome.NotPrepared? <==> Refused(session, request, parse))
            && (outcome.NotPrepared? ==> after == session)
  {
    RefusedExactly(session, request, parse);
    ReconcileRefusedWhole(session, request, parse);
  }

  lemma ReconcileRefusedWhole(session: Session, request: RuntimeRequest, parse: Parser)
    requires WellIndexed(session.graph)
    ensures ReconcileBefore(session, request, parse).1.Some? ==> ReconcileBefore(session, request, parse).0 == session
  {
    if session.summary.lastSequenceNo.Some? {
      var at := session.summary.lastSequenceNo.value;
      ObservedCommit(session, request.sessionId, at, request.can,
                     ReconcileBatch(session.graph.nodes, request.sessionId, at, DeltaBefore(session, request, parse)));
    }
  }

  /** After every run reconciliation is refused exactly in the four cases; and what is refused is refused for good. */
  lemma RefusedAfterRunExactly(sessionId: string, events: seq<Event>, parse: Parser, request: RuntimeRequest,
                               verdict: Verdict)
    requires HonestRun(sessionId, events, parse) && FitRun(sessionId, events) && request.sessionId == sessionId
    ensures var session := Run(events, parse).0; var (after, outcome) := CheckRuntime(session, request, parse, verdict);
            && (outcome.NotPrepared? <==> Refused(session, request, parse))
            && (outcome.NotPrepared? ==> after == session)
  {
    RunKeepsKinds(sessionId, events, parse);
    RefusedStep(Run(events, parse).0, request, parse, verdict);
  }

  // A function that is defined in one way and then seen in another.

  /** The node is what is known under its id. */
  predicate Known(nodes: Nodes, available: Available, node: GraphNode) {
    if node.id in available then available[node.id] == Some(node) else node.id in nodes && nodes[node.id] == node
  }

  /** A node put that is no artifact is what is known under its id in the end. */
  lemma {:induction false} PutsAreKnown(nodes: Nodes, available: Available, steps: seq<Step>, node: GraphNode)
    requires CheckSteps(nodes, available, steps).Success? && !node.kind.ProvenanceArtifact?
    requires Known(nodes, available, node) || Put(node) in steps
    ensures Known(nodes, CheckSteps(nodes, available, steps).value, node)
    decreases |steps|
  {
    if steps != [] {
      PutsAreKnown(nodes, CheckStep(nodes, available, steps[0]).value, steps[1..], node);
    }
  }

  lemma BatchPut(g: Graph, anchorId: NodeId, batch: seq<Mutation>, m: Mutation, node: GraphNode)
    requires WellIndexed(g) && ApplyBatch(g, anchorId, batch).Success?
    requires m in batch && Put(node) in Steps(m) && !node.kind.ProvenanceArtifact?
    ensures var nodes := ApplyBatch(g, anchorId, batch).value.nodes; node.id in nodes && nodes[node.id] == node
  {
    BatchIsAtomic(g, anchorId, batch);
    StepsIncluded(batch, m, Put(node));
    PutsAreKnown(g.nodes, map[], AllSteps(batch), node);
  }

  lemma CommittedPut(session: Session, batch: seq<Mutation>, request: Request, m: Mutation, node: GraphNode)
    requires WellIndexed(session.graph) && CommitAllowed(session, batch, request).1.None?
    requires m in batch && Put(node) in Steps(m) && !node.kind.ProvenanceArtifact?
    ensures var nodes := CommitAllowed(session, batch, request).0.graph.nodes; node.id in nodes && nodes[node.id] == node
  {
    CommitApplies(session, batch, request);
    BatchPut(AddNode(session.graph, AnchorNode(request)), AnchorNode(request).id, batch, m, node);
  }

  /** All a batch says about the function is said at `n`, and every definition is the same. */
  predicate SaysOnly(batch: seq<Mutation>, name: string, body: string, n: SequenceNo) {
    forall m | m in batch && TargetOf(m) == FunctionTarget(name) ::
      ObservedAt(m) == n && (m.UpsertFunctionBinding? ==> m.definition.content == body)
  }

  predicate Defines(batch: seq<Mutation>, name: string) {
    exists m | m in batch :: m.UpsertFunctionBinding? && m.definition.name == name
  }

  predicate HeldAs(held: map<string, Binding<string>>, name: string, body: string) {
    name in held ==> held[name].content == body
  }

  lemma {:induction false} DefinitionStays(s: Summary, batch: seq<Mutation>, name: string, body: string, n: SequenceNo,
                                           can: Capabilities)
    requires can.functions && SaysOnly(batch, name, body, n)
    requires name in s.functions ==> s.functions[name].observedAt <= n
    requires HeldAs(s.functions, name, body) || Defines(batch, name)
    ensures HeldAs(ApplyAllLive(s, batch, can).functions, name, body)
    decreases |batch|
  {
    if batch != [] {
      assert batch[0] in batch && forall m :: m in batch <==> m == batch[0] || m in batch[1..];
      BodiesOnTheirOwn(s, batch[0], can);
      DefinitionStays(ApplyLive(s, batch[0], can), batch[1..], name, body, n, can);
    }
  }

  /** All definitions of one function at one number are the same, or the batch would not have been committed. */
  lemma OneDefinition(session: Session, batch: seq<Mutation>, request: Request, b: Binding<string>, c: Binding<string>)
    requires WellIndexed(session.graph) && CommitAllowed(session, batch, request).1.None?
    requires UpsertFunctionBinding(b) in batch && UpsertFunctionBinding(c) in batch
    requires b.name == c.name && b.observedAt == c.observedAt
    ensures b.content == c.content
  {
    DefinedInGraph(session, request, batch, b);
    DefinedInGraph(session, request, batch, c);
  }

  /** What the batch says about the function, it says at its own number and in one way. */
  lemma CommittedSaysOnly(session: Session, batch: seq<Mutation>, request: Request, b: Binding<string>)
    requires WellIndexed(session.graph) && CommitAllowed(session, batch, request).1.None?
    requires UpsertFunctionBinding(b) in batch
    requires forall m | m in batch && TargetOf(m) == FunctionTarget(b.name) :: ObservedAt(m) == b.observedAt
    ensures SaysOnly(batch, b.name, b.content, b.observedAt)
  {
    forall m | m in batch && TargetOf(m) == FunctionTarget(b.name) && m.UpsertFunctionBinding?
      ensures m.definition.content == b.content
    {
      OneDefinition(session, batch, request, b, m.definition);
    }
  }

  lemma DefinedAfter(s: Summary, done: nat, request: Request, batch: seq<Mutation>, b: Binding<string>)
    requires Valid(s) && Counted(s, done) && Prepared(s, request.can) && request.can.functions
    requires b.observedAt == done + 1 && UpsertFunctionBinding(b) in batch && SaysOnly(batch, b.name, b.content, done + 1)
    ensures HeldAs(ApplyAllLive(SeedBefore(s, request), batch, request.can).functions, b.name, b.content)
  {
    SeededKeeps(s, done, request);
    assert Defines(batch, b.name);
    DefinitionStays(SeedBefore(s, request), batch, b.name, b.content, done + 1, request.can);
  }

  /** After the commit the function is defined in the graph, and in the summary if at all, as the batch says. */
  predicate DefinedAs(session: Session, b: Binding<string>) {
    && session.summary.lastSequenceNo == Some(b.observedAt)
    && FunctionBindingId(b.name, b.observedAt) in session.graph.nodes
    && session.graph.nodes[FunctionBindingId(b.name, b.observedAt)] == FunctionNode(b)
    && HeldAs(session.summary.functions, b.name, b.content)
  }

  lemma DefinedAsCommitted(session: Session, done: nat, request: Request, batch: seq<Mutation>, b: Binding<string>)
    requires WellIndexed(session.graph) && Valid(session.summary) && Counted(session.summary, done)
    requires Prepared(session.summary, request.can) && request.sequenceNo == done + 1 && request.can.functions
    requires Timely(batch, request.can, done + 1) && CommitAllowed(session, batch, request).1.None?
    requires UpsertFunctionBinding(b) in batch && b.observedAt == done + 1
    requires forall m | m in batch && TargetOf(m) == FunctionTarget(b.name) :: ObservedAt(m) == done + 1
    ensures DefinedAs(CommitAllowed(session, batch, request).0, b)
  {
    CommittedSaysOnly(session, batch, request, b);
    DefinedInSummary(session, done, request, batch, b);
    DefinedInGraph(session, request, batch, b);
  }

  lemma DefinedInGraph(session: Session, request: Request, batch: seq<Mutation>, b: Binding<string>)
    requires WellIndexed(session.graph) && CommitAllowed(session, batch, request).1.None?
    requires UpsertFunctionBinding(b) in batch
    ensures var nodes := CommitAllowed(session, batch, request).0.graph.nodes;
            FunctionNode(b).id in nodes && nodes[FunctionNode(b).id] == FunctionNode(b)
  {
    CommittedPut(session, batch, request, UpsertFunctionBinding(b), FunctionNode(b));
  }

  lemma DefinedInSummary(session: Session, done: nat, request: Request, batch: seq<Mutation>, b: Binding<string>)
    requires WellIndexed(session.graph) && Valid(session.summary) && Counted(session.summary, done)
    requires Prepared(session.summary, request.can) && request.sequenceNo == done + 1 && request.can.functions
    requires Timely(batch, request.can, done + 1) && CommitAllowed(session, batch, request).1.None?
    requires b.observedAt == done + 1 && UpsertFunctionBinding(b) in batch && SaysOnly(batch, b.name, b.content, done + 1)
    ensures var after := CommitAllowed(session, batch, request).0.summary;
            after.lastSequenceNo == Some(done + 1) && HeldAs(after.functions, b.name, b.content)
  {
    SuccessfulCommit(session, batch, request);
    CommittedSummary(session.summary, done, request, batch);
    DefinedAfter(session.summary, done, request, batch, b);
  }

  /** The shell reports all its functions, and this one with another body. */
  predicate SeesOther(before: Snapshot, b: Binding<string>) {
    && before.functionKnowledge == Complete
    && var live := LastWins(BodyEntries(before.functions));
       b.name in live && live[b.name] != b.content
  }

  lemma OtherIsMismatched(held: map<string, Binding<string>>, live: map<string, string>, b: Binding<string>) returns (i: nat)
    requires HeldAs(held, b.name, b.content) && b.name in live && live[b.name] != b.content
    ensures var upserts := Mismatched(held, InNameOrder(live), b.observedAt);
            i < |upserts| && upserts[i] == Binding(b.name, live[b.name], b.observedAt)
  {
    var upserts := Mismatched(held, InNameOrder(live), b.observedAt);
    MismatchedMembers(held, InNameOrder(live), b.observedAt);
    assert (b.name, live[b.name]) in InNameOrder(live);
    assert Binding(b.name, live[b.name], b.observedAt) in upserts;
    i :| 0 <= i < |upserts| && upserts[i] == Binding(b.name, live[b.name], b.observedAt);
  }

  /** The delta asks for another body of the function than the graph has for the last number. */
  lemma RedefinitionWanted(session: Session, next: RuntimeRequest, parse: Parser, b: Binding<string>) returns (i: nat)
    requires DefinedAs(session, b) && next.can.functions && SeesOther(next.before, b)
    ensures Redefines(session.graph.nodes, DeltaBefore(session, next, parse), b.observedAt, i)
  {
    i := OtherIsMismatched(session.summary.functions, LastWins(BodyEntries(next.before.functions)), b);
  }

  lemma RedefinedStep(session: Session, next: RuntimeRequest, parse: Parser, b: Binding<string>, verdict: Verdict)
    requires WellIndexed(session.graph) && DefinedAs(session, b) && next.can.functions && SeesOther(next.before, b)
    ensures var (after, outcome) := CheckRuntime(session, next, parse, verdict); outcome.NotPrepared? && after == session
  {
    var i := RedefinitionWanted(session, next, parse, b);
    RedefinitionConflicts(session, next, parse, b.observedAt, i);
    ReconcileRefusedWhole(session, next, parse);
  }

  /**
   * After any committed check that defines a function, a request whose shell reports another body for it is refused,
   * changes nothing, and so is refused again.
   */
  lemma RedefinitionIsRefused(session: Session, done: nat, request: Request, batch: seq<Mutation>, b: Binding<string>,
                              next: RuntimeRequest, parse: Parser, verdict: Verdict)
    requires WellIndexed(session.graph) && Valid(session.summary) && Counted(session.summary, done)
    requires Prepared(session.summary, request.can) && request.sequenceNo == done + 1 && request.can.functions
    requires Timely(batch, request.can, done + 1) && CommitAllowed(session, batch, request).1.None?
    requires UpsertFunctionBinding(b) in batch && b.observedAt == done + 1
    requires forall m | m in batch && TargetOf(m) == FunctionTarget(b.name) :: ObservedAt(m) == done + 1
    requires next.can == request.can && SeesOther(next.before, b)
    ensures var after := CommitAllowed(session, batch, request).0;
            && WellIndexed(after.graph) && CheckRuntime(after, next, parse, verdict).1.NotPrepared?
            && CheckRuntime(after, next, parse, verdict).0 == after
  {
    SuccessfulCommit(session, batch, request);
    DefinedAsCommitted(session, done, request, batch, b);
    RedefinedStep(CommitAllowed(session, batch, request).0, next, parse, b, verdict);
  }

  // Two checks that get there from a new session.

  const F_DEFINED: Binding<string> := Binding("f", "echo a", 1)

  const PERSISTENT_SHELL: Capabilities := Capabilities(true, true, true, true, true, true)

  /** A shell of which only the functions are known, and that has this one only. */
  function ShellWith(sessionId: string, body: string): RuntimeRequest {
    RuntimeRequest(sessionId, "f", Snapshot("/", [], Unknown, [], Unknown, [], Unknown, [ShellBody("f", body)], Complete), "",
                   PERSISTENT_SHELL)
  }

  lemma DefinitionValidates(anchorId: NodeId)
    requires anchorId != FunctionNode(F_DEFINED).id
    ensures ValidateBatch(map[], anchorId, Some(anchorId), [UpsertFunctionBinding(F_DEFINED)]).None?
  {
    var batch, node := [UpsertFunctionBinding(F_DEFINED)], FunctionNode(F_DEFINED);
    var available := Virtual(Some(anchorId))[node.id := Some(node)];
    assert batch[1..] == [];
    assert ImplicitSource(anchorId, batch) == anchorId;
    assert AllSteps(batch) == [Put(node)];
    OnePut(map[], Virtual(Some(anchorId)), node);
    assert AllEdges(batch, anchorId) == [Edge(anchorId, node.id, EdgeKind.Defines, None)];
    EndsChecked(map[], available, AllEdges(batch, anchorId));
  }

  lemma OnePut(nodes: Nodes, available: Available, node: GraphNode)
    requires node.id !in nodes && node.id !in available
    ensures CheckSteps(nodes, available, [Put(node)]) == Success(available[node.id := Some(node)])
  {
    assert [Put(node)][1..] == [];
  }

  lemma DefinitionCommits(request: Request)
    ensures CommitAllowed(NEW_SESSION, [UpsertFunctionBinding(F_DEFINED)], request).1.None?
  {
    var batch := [UpsertFunctionBinding(F_DEFINED)];
    assert batch[1..] == [];
    assert AllSteps(batch) == [Put(FunctionNode(F_DEFINED))];
    AnchorIdShape(request.sessionId, request.sequenceNo);
    FunctionIdShape("f", 1);
    DefinitionValidates(AnchorNode(request).id);
    EmptyIsWellIndexed();
    CommitSucceedsExactly(NEW_SESSION, batch, request);
  }

  lemma DefinitionChecked(sessionId: string, parse: Parser)
    ensures var request := Numbered(ShellWith(sessionId, "echo a"), 1); var batch := [UpsertFunctionBinding(F_DEFINED)];
            && WellIndexed(NEW_SESSION.graph)
            && CheckRuntime(NEW_SESSION, ShellWith(sessionId, "echo a"), parse, Verdict(true, batch))
               == (CommitAllowed(NEW_SESSION, batch, request).0, Checked(1, true))
  {
    EmptyIsWellIndexed();
    DefinitionCommits(Numbered(ShellWith(sessionId, "echo a"), 1));
    CheckNumberedIs(NEW_SESSION, ShellWith(sessionId, "echo a"), Verdict(true, [UpsertFunctionBinding(F_DEFINED)]), 1);
  }

  lemma DefinitionIsTimely(can: Capabilities)
    ensures Timely([UpsertFunctionBinding(F_DEFINED)], can, 1)
    ensures forall m | m in [UpsertFunctionBinding(F_DEFINED)] && TargetOf(m) == FunctionTarget("f") :: ObservedAt(m) == 1
  {
  }

  lemma OtherBodyRefused(request: Request, next: RuntimeRequest, parse: Parser, verdict: Verdict)
    requires request.sequenceNo == 1 && request.can == next.can == PERSISTENT_SHELL && SeesOther(next.before, F_DEFINED)
    ensures WellIndexed(NEW_SESSION.graph)
    ensures var after := CommitAllowed(NEW_SESSION, [UpsertFunctionBinding(F_DEFINED)], request).0;
            && WellIndexed(after.graph) && CheckRuntime(after, next, parse, verdict).1.NotPrepared?
            && CheckRuntime(after, next, parse, verdict).0 == after
  {
    EmptyIsWellIndexed();
    DefinitionCommits(request);
    DefinitionIsTimely(request.can);
    RedefinitionIsRefused(NEW_SESSION, 0, request, [UpsertFunctionBinding(F_DEFINED)], F_DEFINED, next, parse, verdict);
  }

  /** One check defines a function; the next, of a shell with another body for it, is refused, whatever the verdict. */
  lemma RedefinitionReached(sessionId: string, parse: Parser, verdict: Verdict)
    ensures WellIndexed(NEW_SESSION.graph)
    ensures var define := Verdict(true, [UpsertFunctionBinding(F_DEFINED)]);
            var (after, first) := CheckRuntime(NEW_SESSION, ShellWith(sessionId, "echo a"), parse, define);
            var (again, second) := CheckRuntime(after, ShellWith(sessionId, "echo b"), parse, verdict);
            first == Checked(1, true) && second.NotPrepared? && again == after
  {
    DefinitionChecked(sessionId, parse);
    OtherBodySeen();
    OtherBodyRefused(Numbered(ShellWith(sessionId, "echo a"), 1), ShellWith(sessionId, "echo b"), parse, verdict);
  }

  lemma OtherBodySeen()
    ensures SeesOther(ShellWith("", "echo b").before, F_DEFINED)
  {
    var functions := ShellWith("", "echo b").before.functions;
    assert BodyEntries(functions) == [("f", "echo b")];
    assert [("f", "echo b")][..0] == [];
  }

  // A number that is given back.

  lemma FailedAfter(prepared: Session, sessionId: string, done: nat, allowed: set<nat>, request: RuntimeRequest,
                    verdict: Verdict)
    requires Inv(prepared, sessionId, done, allowed) && prepared.summary.lastSequenceNo.Some? && prepared.summary.cwd.Some?
    requires request.sessionId == sessionId && Honest(verdict, Numbered(request, done + 1))
    requires CheckNumbered(prepared, request, verdict).1.NotCommitted?
    ensures CheckNumbered(prepared, request, verdict).0 == prepared
  {
    CheckNumberedIs(prepared, request, verdict, done + 1);
    FailureKeeps(prepared, sessionId, done, allowed, Numbered(request, done + 1), verdict.batch);
    FailedCommit(prepared, verdict.batch, Numbered(request, done + 1));
  }

  lemma TakenOver(session: Session, request: RuntimeRequest, parse: Parser, at: SequenceNo)
    requires WellIndexed(session.graph) && Valid(session.summary) && CwdInv(session, request.can.cwd)
    requires session.summary.lastSequenceNo == Some(at) && DeltaBefore(session, request, parse).cwdAfter.Some?
    requires ReconcileBefore(session, request, parse).1.None?
    ensures var prepared := ReconcileBefore(session, request, parse).0;
            && prepared.summary.lastSequenceNo == Some(at)
            && prepared.summary.cwd == Some(Cwd(request.before.cwd, at, RuntimeSnapshot))
            && CwdStateId(at) in prepared.graph.nodes
            && prepared.graph.nodes[CwdStateId(at)].kind == DirectoryState(request.before.cwd, at)
  {
    ReconcileEffects(session, request, parse, ReconcileBefore(session, request, parse).0);
  }

  lemma OtherDirectoryClashes(session: Session, next: RuntimeRequest, parse: Parser, at: SequenceNo, path: string)
    requires session.summary.lastSequenceNo == Some(at) && session.summary.cwd == Some(Cwd(path, at, RuntimeSnapshot))
    requires CwdStateId(at) in session.graph.nodes && session.graph.nodes[CwdStateId(at)].kind == DirectoryState(path, at)
    requires next.can.cwd && next.before.cwd != path
    ensures Refused(session, next, parse)
  {
    assert DirectoryClash(session, next, at,
                          PreviousContext(session.graph.nodes, RequestAnchorId(next.sessionId, at), parse));
  }

  /**
   * A check whose commit fails after its reconciliation took a directory over gives its number back, and then a
   * request from any other directory is refused.
   */
  lemma OtherDirectoryIsRefused(session: Session, sessionId: string, done: nat, allowed: set<nat>, request: RuntimeRequest,
                                verdict: Verdict, next: RuntimeRequest, later: Verdict, parse: Parser)
    requires Inv(session, sessionId, done, allowed) && CwdInv(session, request.can.cwd)
    requires KindsFit(session.graph.nodes, sessionId)
    requires request.sessionId == sessionId && Honest(verdict, Numbered(request, done + 1))
    requires DeltaBefore(session, request, parse).cwdAfter.Some?
    requires CheckRuntime(session, request, parse, verdict).1.NotCommitted?
    requires next.sessionId == sessionId && next.can == request.can && next.before.cwd != request.before.cwd
    ensures var after := CheckRuntime(session, request, parse, verdict).0;
            var (again, outcome) := CheckRuntime(after, next, parse, later); outcome.NotPrepared? && again == after
  {
    var at, prepared := session.summary.lastSequenceNo.value, ReconcileBefore(session, request, parse).0;
    ReconcileKeeps(session, sessionId, done, allowed, request, parse);
    ReconcileKeepsKinds(session, request, parse);
    TakenOver(session, request, parse, at);
    FailedAfter(prepared, sessionId, done, allowed, request, verdict);
    OtherDirectoryClashes(prepared, next, parse, at, request.before.cwd);
    RefusedStep(prepared, next, parse, later);
  }

  // Three checks that get there from a new session.

  const CWD_PERSISTENT: Capabilities := Capabilities(true, false, false, false, false, false)

  /** A shell of which only the directory is known. */
  function ShellIn(sessionId: string, path: string): RuntimeRequest {
    RuntimeRequest(sessionId, "f", Snapshot(path, [], Unknown, [], Unknown, [], Unknown, [], Unknown), "", CWD_PERSISTENT)
  }

  /** Two bodies of one function, staged by one command. */
  const F_TWICE: seq<Mutation> :=
    [UpsertFunctionBinding(Binding("f", "echo a", 2)), UpsertFunctionBinding(Binding("f", "echo b", 2))]

  const DENY: Verdict := Verdict(false, [])

  /** A session whose only check was denied. */
  function DeniedOnce(sessionId: string): Session {
    NEW_SESSION.(summary := ObserveRequest(SessionSummary.EMPTY, Numbered(ShellIn(sessionId, "/a"), 1)))
  }

  lemma FirstIsDenied(sessionId: string, parse: Parser)
    ensures WellIndexed(NEW_SESSION.graph)
    ensures CheckRuntime(NEW_SESSION, ShellIn(sessionId, "/a"), parse, DENY)
         == (DeniedOnce(sessionId), Checked(1, false))
    ensures Inv(DeniedOnce(sessionId), sessionId, 1, {})
  {
    EmptySession(sessionId);
    StepKeeps(NEW_SESSION, sessionId, 0, {}, ShellIn(sessionId, "/a"), parse, DENY);
    CheckNumberedIs(NEW_SESSION, ShellIn(sessionId, "/a"), DENY, 1);
  }

  lemma KnownAfterDenial(sessionId: string)
    ensures var session := DeniedOnce(sessionId);
            && session.graph.nodes == map[] && session.summary.lastSequenceNo == Some(1)
            && session.summary.cwd == Some(Cwd("/a", 0, RuntimeSnapshot))
  {
  }

  /** The second check takes the other directory over. */
  lemma SecondIsPrepared(sessionId: string, parse: Parser)
    ensures var session, request := DeniedOnce(sessionId), ShellIn(sessionId, "/b");
            && WellIndexed(session.graph) && DeltaBefore(session, request, parse).cwdAfter == Some("/b")
            && ReconcileBefore(session, request, parse).1.None?
  {
    EmptyIsWellIndexed();
    KnownAfterDenial(sessionId);
    RefusedExactly(DeniedOnce(sessionId), ShellIn(sessionId, "/b"), parse);
  }

  lemma TwiceNeverCommits(session: Session, request: Request)
    requires WellIndexed(session.graph)
    ensures CommitAllowed(session, F_TWICE, request).1.Some?
  {
    var first, second := FunctionNode(Binding("f", "echo a", 2)), FunctionNode(Binding("f", "echo b", 2));
    assert F_TWICE[1..][1..] == [];
    assert AllSteps(F_TWICE[1..]) == [Put(second)];
    assert AllSteps(F_TWICE) == [Put(first), Put(second)];
    TwoPutsConflict(session.graph.nodes, Virtual(Some(AnchorNode(request).id)), first, second);
  }

  lemma TwoPutsConflict(nodes: Nodes, available: Available, first: GraphNode, second: GraphNode)
    requires first.id == second.id && first != second && !first.kind.ProvenanceArtifact?
    ensures CheckSteps(nodes, available, [Put(first), Put(second)]).Failure?
  {
    assert [Put(first), Put(second)][1..] == [Put(second)];
  }

  lemma TwiceIsHonest(request: Request)
    requires request.sequenceNo == 2
    ensures Honest(Verdict(true, F_TWICE), request)
  {
    assert F_TWICE[1..][1..] == [];
    forall p | Put(p) in AllSteps(F_TWICE) ensures OwnAnchor(p, request) {
      FunctionIdShape("f", 2);
      forall k: SequenceNo
        ensures p.id != RequestAnchorId(request.sessionId, k) && p.id != ReconciliationAnchorId(request.sessionId, k)
      {
        AnchorIdShape(request.sessionId, k);
        ReconciliationIdShape(request.sessionId, k);
      }
    }
  }

  lemma SecondFails(sessionId: string, parse: Parser)
    ensures WellIndexed(DeniedOnce(sessionId).graph)
    ensures CheckRuntime(DeniedOnce(sessionId), ShellIn(sessionId, "/b"), parse, Verdict(true, F_TWICE)).1.NotCommitted?
  {
    SecondIsPrepared(sessionId, parse);
    var prepared := ReconcileBefore(DeniedOnce(sessionId), ShellIn(sessionId, "/b"), parse).0;
    ReconcileWellIndexed(DeniedOnce(sessionId), ShellIn(sessionId, "/b"), parse);
    TwiceNeverCommits(prepared, Numbered(ShellIn(sessionId, "/b"), NextSequenceNo(prepared.summary)));
  }

  /** With a graph that is still empty, the directories need no more than the commit that fails. */
  lemma ThirdIsRefused(session: Session, request: RuntimeRequest, failing: Verdict, next: RuntimeRequest,
                       verdict: Verdict, parse: Parser)
    requires Inv(session, request.sessionId, 1, {}) && session.graph.nodes == map[]
    requires Honest(failing, Numbered(request, 2)) && DeltaBefore(session, request, parse).cwdAfter.Some?
    requires CheckRuntime(session, request, parse, failing).1.NotCommitted?
    requires next.sessionId == request.sessionId && next.can == request.can && next.before.cwd != request.before.cwd
    ensures var failed := CheckRuntime(session, request, parse, failing).0;
            var (again, third) := CheckRuntime(failed, next, parse, verdict); third.NotPrepared? && again == failed
  {
    OtherDirectoryIsRefused(session, request.sessionId, 1, {}, request, failing, next, verdict, parse);
  }

  /**
   * A check is denied in one directory; the next, in another, is allowed but not committed; and then a request from a
   * third is refused, whatever the verdict.
   */
  lemma OtherDirectoryReached(sessionId: string, parse: Parser, verdict: Verdict)
    ensures WellIndexed(NEW_SESSION.graph)
    ensures var (denied, first) := CheckRuntime(NEW_SESSION, ShellIn(sessionId, "/a"), parse, DENY);
            var (failed, second) := CheckRuntime(denied, ShellIn(sessionId, "/b"), parse, Verdict(true, F_TWICE));
            var (again, third) := CheckRuntime(failed, ShellIn(sessionId, "/c"), parse, verdict);
            first == Checked(1, false) && second.NotCommitted? && third.NotPrepared? && again == failed
  {
    FirstIsDenied(sessionId, parse);
    KnownAfterDenial(sessionId);
    SecondIsPrepared(sessionId, parse);
    SecondFails(sessionId, parse);
    TwiceIsHonest(Numbered(ShellIn(sessionId, "/b"), 2));
    ThirdIsRefused(DeniedOnce(sessionId), ShellIn(sessionId, "/b"), Verdict(true, F_TWICE), ShellIn(sessionId, "/c"),
                   verdict, parse);
  }

  // What the passes stage fits.

  /** A fact whose id begins like an artifact's is an artifact, and none begins like an alias's. */
  predicate PlainFact(fact: GraphNode) {
    |fact.id| > 1 && fact.id[1] != 'h' && fact.id[..2] != "al" && (fact.id[..2] == "ar" ==> fact.kind.ProvenanceArtifact?)
  }

  predicate PlainFacts(m: Mutation) {
    (m.AddFact? ==> PlainFact(m.fact)) && (m.AddNestedPayload? ==> PlainFact(m.payload))
  }

  lemma PlainFactFits(fact: GraphNode, sessionId: string)
    requires PlainFact(fact)
    ensures Fits(fact, sessionId)
  {
    forall name, k: SequenceNo ensures fact.id != ReconciliationAnchorId(sessionId, k) && fact.id != AliasUnsetId(name, k)
                               ensures fact.id == VariableValueId(name, k) ==> fact.id[..2] == "ar" {
      ReconciliationIdShape(sessionId, k);
      assert "al" <= AliasUnsetId(name, k) && "ar" <= VariableValueId(name, k);
    }
  }

  lemma UsualFits(m: Mutation, request: Request, p: GraphNode)
    requires Usual(m, request) && PlainFacts(m) && Put(p) in Steps(m)
    ensures Fits(p, request.sessionId)
  {
    match m {
      case AddRequestAnchor(_, _, _, _, _, _) => AnchorFits(request);
      case AddTopLevelCommandInvocation(_, s, n, index, _, _, _) =>
        CommandIdShape(s, n, index);
        assert p.id[..2] == ['c', 'o'];
        PlainFactFits(p, request.sessionId);
      case AddFact(_, fact, _, _) => PlainFactFits(fact, request.sessionId);
      case AddNestedPayload(payload, _, _, _) => PlainFactFits(payload, request.sessionId);
      case SetCurrentWorkingDirectory(_, n, _) =>
        OthersBegin(request.sessionId, n);
        BegunFits(p, request.sessionId, FromCwd);
      case UpsertAliasBinding(b) =>
        AliasBegins(b, FromAlias(0));
        BegunFits(p, request.sessionId, FromAlias(0));
      case UpsertFunctionBinding(b) =>
        FunctionBegins(b.name, b.observedAt, FromFunction(0));
        BegunFits(p, request.sessionId, FromFunction(0));
      case UnsetAliasBinding(name, n) =>
        UnsetBegins(name, n, FromUnset(0));
        BegunFits(p, request.sessionId, FromUnset(0));
      case _ =>
    }
  }

  /** So a usual batch with plain facts is one that the results about refusals rely on. */
  lemma UsualBatchFits(batch: seq<Mutation>, request: Request)
    requires forall m | m in batch :: Usual(m, request) && PlainFacts(m)
    ensures FitBatch(batch, request.sessionId)
  {
    forall p | Put(p) in AllSteps(batch) ensures Fits(p, request.sessionId) {
      var m := StepOrigin(batch, Put(p));
      UsualFits(m, request, p);
    }
  }
}
