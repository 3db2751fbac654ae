/** One session: its graph and summary, what a commit does to both, and what it leaves alone when it fails. */
module Sessions {
  import opened Wrappers
  import opened GraphTypes
  import opened GraphIndex
  import opened ExecutionSemanticsIndex
  import opened SessionSummary
  import opened Mutations
  import opened Batches
  import opened Reconciliation

  datatype Session = Session(graph: Graph, summary: Summary)

  const NEW_SESSION: Session := Session(GraphIndex.EMPTY, SessionSummary.EMPTY)

  datatype Request = Request(sessionId: string, sequenceNo: SequenceNo, command: string, before: Snapshot,
                             shellKind: Payload, can: Capabilities)

  datatype CommitError = DuplicateCommandNode(id: NodeId) | MissingGraphAnchor(id: NodeId) | MutationGraph(error: BatchError)

  // Seeding.

  function UpsertEntries(s: Summary, entries: seq<(string, Variable)>, at: SequenceNo): Summary {
    if entries == [] then s
    else
      var last := entries[|entries| - 1];
      UpsertVariable(UpsertEntries(s, entries[..|entries| - 1], at), Binding(last.0, last.1, at))
  }

  function UpsertAliases(s: Summary, aliases: seq<ShellBody>, at: SequenceNo): Summary {
    if aliases == [] then s
    else
      var last := aliases[|aliases| - 1];
      UpsertAlias(UpsertAliases(s, aliases[..|aliases| - 1], at), Binding(last.name, last.body, at))
  }

  function UpsertFunctions(s: Summary, functions: seq<ShellBody>, at: SequenceNo): Summary {
    if functions == [] then s
    else
      var last := functions[|functions| - 1];
      UpsertFunction(UpsertFunctions(s, functions[..|functions| - 1], at), Binding(last.name, last.body, at))
  }

  /** Knowing exported variables only, without an environment to keep them in, ends seeding on the spot. */
  predicate StopsEarly(before: Snapshot, can: Capabilities) {
    before.variableKnowledge == ExportedOnly && !can.exportedEnvironment
  }

  function SeedCwd(s: Summary, before: Snapshot, at: SequenceNo, can: Capabilities): Summary {
    if can.cwd then SetCwd(s, Cwd(before.cwd, at, RuntimeSnapshot)) else s
  }

  function SeedVariables(s: Summary, before: Snapshot, at: SequenceNo, can: Capabilities): Summary {
    match before.variableKnowledge
    case Complete => UpsertEntries(s, PersistedEntries(before.variables, None, can), at)
    case ExportedOnly => UpsertEntries(s, ExportedEntries(before.variables, None), at)
    case Unknown => s
  }

  function SeedBodies(s: Summary, before: Snapshot, at: SequenceNo, can: Capabilities): Summary {
    var a := if can.aliases && before.aliasKnowledge == Complete then UpsertAliases(s, before.aliases, at) else s;
    if can.functions && before.functionKnowledge == Complete then UpsertFunctions(a, before.functions, at) else a
  }

  function SeedPositionals(s: Summary, before: Snapshot, at: SequenceNo, can: Capabilities): Summary {
    if can.positionals && before.positionalKnowledge == Complete then SetPositionals(s, before.positionals, at) else s
  }

  function Seed(s: Summary, before: Snapshot, at: SequenceNo, can: Capabilities): Summary {
    var c := SeedCwd(s, before, at, can);
    if StopsEarly(before, can) then c
    else SeedPositionals(SeedBodies(SeedVariables(c, before, at, can), before, at, can), before, at, can)
  }

  /** A new session takes the whole baseline at 0; an old one without a directory takes only that. */
  function SeedBefore(s: Summary, request: Request): Summary {
    if s.lastSequenceNo.None? then Seed(s, request.before, 0, request.can)
    else if request.can.cwd && s.cwd.None? then SetCwd(s, Cwd(request.before.cwd, request.sequenceNo, RuntimeSnapshot))
    else s
  }

  function ObserveRequest(s: Summary, request: Request): Summary {
    Observe(SeedBefore(s, request), request.sequenceNo)
  }

  // Commits. The session is what is left behind, whether or not there is an error.

  function AnchorNode(request: Request): GraphNode {
    GraphNode(RequestAnchorId(request.sessionId, request.sequenceNo),
              RequestAnchor(request.sessionId, request.sequenceNo, request.command, request.before.cwd, request.shellKind))
  }

  function CommitAllowed(session: Session, batch: seq<Mutation>, request: Request): (Session, Option<CommitError>)
    requires WellIndexed(session.graph)
  {
    var g, seeded, anchor := session.graph, SeedBefore(session.summary, request), AnchorNode(request);
    if anchor.id in g.nodes then (Session(g, seeded), Some(DuplicateCommandNode(anchor.id)))
    else match ValidateBatch(g.nodes, anchor.id, Some(anchor.id), batch)
      case Some(error) => (Session(g, seeded), Some(MutationGraph(error)))
      case None =>
        AddNodeKeepsIndexes(g, anchor);
        var anchored := AddNode(g, anchor);
        match ApplyBatch(anchored, anchor.id, batch)
        case Failure(error) => (Session(anchored, seeded), Some(MutationGraph(error)))
        case Success(committed) =>
          (Session(committed, ObserveRequest(ApplyAllLive(seeded, batch, request.can), request)), None)
  }

  function FirstProvidedAnchor(batch: seq<Mutation>): Option<NodeId> {
    if batch == [] then None
    else if batch[0].ProvidedGraphAnchor().Some? then batch[0].ProvidedGraphAnchor()
    else FirstProvidedAnchor(batch[1..])
  }

  predicate AnyTouchesGraph(batch: seq<Mutation>) {
    exists m | m in batch :: m.TouchesGraph()
  }

  predicate AnyRequiresAnchor(batch: seq<Mutation>) {
    exists m | m in batch :: m.RequiresGraphAnchor()
  }

  /** The first command of the request if the graph has it, else the request's own anchor. */
  function ObservedCommandId(nodes: Nodes, sessionId: string, n: SequenceNo): NodeId {
    if TopLevelCommandId(sessionId, n, 0) in nodes then TopLevelCommandId(sessionId, n, 0) else RequestAnchorId(sessionId, n)
  }

  function CommitObserved(session: Session, sessionId: string, n: SequenceNo, can: Capabilities, batch: seq<Mutation>)
    : (Session, Option<CommitError>)
    requires WellIndexed(session.graph)
  {
    var g := session.graph;
    var commandId, provided := ObservedCommandId(g.nodes, sessionId, n), FirstProvidedAnchor(batch);
    var anchorId := if commandId in g.nodes || provided.None? then commandId else provided.value;
    if commandId !in g.nodes && AnyRequiresAnchor(batch) && provided.None? then
      (session, Some(MissingGraphAnchor(commandId)))
    else if !AnyTouchesGraph(batch) then (session.(summary := ApplyAllLive(session.summary, batch, can)), None)
    else match ValidateBatch(g.nodes, anchorId, Some(anchorId), batch)
      case Some(error) => (session, Some(MutationGraph(error)))
      case None =>
        match ApplyBatch(g, anchorId, batch)
        case Failure(error) => (session, Some(MutationGraph(error)))
        case Success(committed) => (Session(committed, ApplyAllLive(session.summary, batch, can)), None)
  }

  // Seeding twice.

  /** A change that leaves no last sequence number is no change; and a known directory stays known. */
  predicate Marks(s: Summary, r: Summary) {
    && (r.lastSequenceNo.None? ==> r == s)
    && (s.lastSequenceNo.Some? ==> r.lastSequenceNo.Some?)
    && (s.cwd.Some? ==> r.cwd.Some?)
  }

  lemma {:induction false} EntriesObserve(s: Summary, entries: seq<(string, Variable)>, at: SequenceNo)
    ensures Marks(s, UpsertEntries(s, entries, at))
  {
    if entries != [] {
      EntriesObserve(s, entries[..|entries| - 1], at);
    }
  }

  lemma {:induction false} AliasesObserve(s: Summary, aliases: seq<ShellBody>, at: SequenceNo)
    ensures Marks(s, UpsertAliases(s, aliases, at))
  {
    if aliases != [] {
      AliasesObserve(s, aliases[..|aliases| - 1], at);
    }
  }

  lemma {:induction false} FunctionsObserve(s: Summary, functions: seq<ShellBody>, at: SequenceNo)
    ensures Marks(s, UpsertFunctions(s, functions, at))
  {
    if functions != [] {
      FunctionsObserve(s, functions[..|functions| - 1], at);
    }
  }

  lemma VariablesAndBodiesMark(s: Summary, before: Snapshot, at: SequenceNo, can: Capabilities)
    ensures Marks(s, SeedVariables(s, before, at, can)) && Marks(s, SeedBodies(s, before, at, can))
  {
    EntriesObserve(s, PersistedEntries(before.variables, None, can), at);
    EntriesObserve(s, ExportedEntries(before.variables, None), at);
    AliasesObserve(s, before.aliases, at);
    FunctionsObserve(s, before.functions, at);
    FunctionsObserve(UpsertAliases(s, before.aliases, at), before.functions, at);
  }

  lemma SeedMarks(s: Summary, before: Snapshot, at: SequenceNo, can: Capabilities)
    ensures Marks(s, Seed(s, before, at, can)) && (can.cwd ==> Seed(s, before, at, can).cwd.Some?)
  {
    var c := SeedCwd(s, before, at, can);
    var v := SeedVariables(c, before, at, can);
    var b := SeedBodies(v, before, at, can);
    VariablesAndBodiesMark(c, before, at, can);
    VariablesAndBodiesMark(v, before, at, can);
    assert Marks(b, SeedPositionals(b, before, at, can));
  }

  lemma MutationMarks(s: Summary, m: Mutation, can: Capabilities)
    ensures Marks(s, ApplyLive(s, m, can))
  {
  }

  lemma {:induction false} BatchMarks(s: Summary, batch: seq<Mutation>, can: Capabilities)
    ensures Marks(s, ApplyAllLive(s, batch, can))
    decreases |batch|
  {
    if batch != [] {
      MutationMarks(s, batch[0], can);
      BatchMarks(ApplyLive(s, batch[0], can), batch[1..], can);
    }
  }

  /** The second seeding of a commit, after the batch, never does anything: seed once, apply, observe. */
  lemma SeededOnce(s: Summary, batch: seq<Mutation>, request: Request)
    ensures var applied := ApplyAllLive(SeedBefore(s, request), batch, request.can);
            ObserveRequest(applied, request) == Observe(applied, request.sequenceNo)
  {
    SeedMarks(s, request.before, 0, request.can);
    BatchMarks(SeedBefore(s, request), batch, request.can);
  }

  // Validating beside the anchor, and with it.

  /** Whatever the batch puts under the anchor's id is the anchor. */
  predicate OnlyOwnAnchor(steps: seq<Step>, anchor: GraphNode) {
    forall i | 0 <= i < |steps| :: steps[i].Put? && steps[i].node.id == anchor.id ==> steps[i].node == anchor
  }

  /**
   * The two overlays differ at the anchor only, where one holds it or merely knows of it and the other leaves it
   * to the graph.
   */
  predicate SameBut(virtual: Available, actual: Available, anchor: GraphNode) {
    && anchor.id !in actual && anchor.id in virtual && virtual[anchor.id] in {None, Some(anchor)}
    && virtual - {anchor.id} == actual
  }

  lemma AnchoredStep(nodes: Nodes, virtual: Available, actual: Available, step: Step,
                     anchor: GraphNode)
    requires anchor.id !in nodes && anchor.kind.RequestAnchor? && SameBut(virtual, actual, anchor)
    requires CheckStep(nodes, virtual, step).Success?
    ensures CheckStep(nodes[anchor.id := anchor], actual, step).Success? <==> OnlyOwnAnchor([step], anchor)
    ensures CheckStep(nodes[anchor.id := anchor], actual, step).Success? ==>
              SameBut(CheckStep(nodes, virtual, step).value, CheckStep(nodes[anchor.id := anchor], actual, step).value, anchor)
  {
    assert [step][0] == step;
    var id := step.node.id;
    assert id != anchor.id ==> (id in virtual <==> id in actual) && (id in actual ==> virtual[id] == actual[id]) by {
      assert id != anchor.id ==> (id in virtual - {anchor.id} <==> id in virtual);
    }
    assert id != anchor.id ==> virtual[id := Some(step.node)] - {anchor.id} == actual[id := Some(step.node)];
    assert virtual[anchor.id := Some(anchor)] - {anchor.id} == actual;
  }

  lemma {:induction false} AnchoredSteps(nodes: Nodes, virtual: Available, actual: Available,
                                         steps: seq<Step>, anchor: GraphNode)
    requires anchor.id !in nodes && anchor.kind.RequestAnchor? && SameBut(virtual, actual, anchor)
    requires CheckSteps(nodes, virtual, steps).Success?
    ensures var r := CheckSteps(nodes[anchor.id := anchor], actual, steps);
            && (r.Success? <==> OnlyOwnAnchor(steps, anchor))
            && (r.Success? ==> SameBut(CheckSteps(nodes, virtual, steps).value, r.value, anchor))
    decreases |steps|
  {
    if steps != [] {
      AnchoredStep(nodes, virtual, actual, steps[0], anchor);
      assert OnlyOwnAnchor(steps, anchor) <==> OnlyOwnAnchor([steps[0]], anchor) && OnlyOwnAnchor(steps[1..], anchor);
      var next := CheckStep(nodes[anchor.id := anchor], actual, steps[0]);
      if next.Success? {
        AnchoredSteps(nodes, CheckStep(nodes, virtual, steps[0]).value, next.value, steps[1..], anchor);
      }
    }
  }

  /** What passes beside the anchor passes with it exactly when nothing else is put under its id. */
  lemma AnchoredValidation(nodes: Nodes, anchor: GraphNode, batch: seq<Mutation>)
    requires anchor.id !in nodes && anchor.kind.RequestAnchor?
    requires ValidateBatch(nodes, anchor.id, Some(anchor.id), batch).None?
    ensures ValidateBatch(nodes[anchor.id := anchor], anchor.id, None, batch).None?
            <==> OnlyOwnAnchor(AllSteps(batch), anchor)
  {
    var steps, edges := AllSteps(batch), AllEdges(batch, ImplicitSource(anchor.id, batch));
    var beside, within := Virtual(Some(anchor.id)), Virtual(None);
    assert beside - {anchor.id} == within;
    AnchoredSteps(nodes, beside, within, steps, anchor);
    var virtual := CheckSteps(nodes, beside, steps).value;
    var actual := CheckSteps(nodes[anchor.id := anchor], within, steps);
    if actual.Success? {
      EndsChecked(nodes, virtual, edges);
      EndsChecked(nodes[anchor.id := anchor], actual.value, edges);
      forall id ensures id in virtual || id in nodes <==> id in actual.value || id in nodes[anchor.id := anchor] {
        assert id != anchor.id ==> (id in virtual - {anchor.id} <==> id in virtual);
      }
    }
  }

  // What a commit leaves behind.

  predicate AnchorTaken(session: Session, request: Request) {
    AnchorNode(request).id in session.graph.nodes
  }

  predicate Validates(session: Session, batch: seq<Mutation>, request: Request) {
    var id := AnchorNode(request).id;
    ValidateBatch(session.graph.nodes, id, Some(id), batch).None?
  }

  /** Succeeds exactly when the anchor is new, the batch validates beside it and stages nothing else under its id. */
  lemma CommitSucceedsExactly(session: Session, batch: seq<Mutation>, request: Request)
    requires WellIndexed(session.graph)
    ensures var error := CommitAllowed(session, batch, request).1;
            && (error.None? <==> !AnchorTaken(session, request) && Validates(session, batch, request)
                                 && OnlyOwnAnchor(AllSteps(batch), AnchorNode(request)))
            && (error == Some(DuplicateCommandNode(AnchorNode(request).id)) <==> AnchorTaken(session, request))
  {
    var g, anchor := session.graph, AnchorNode(request);
    if !AnchorTaken(session, request) && Validates(session, batch, request) {
      AddNodeKeepsIndexes(g, anchor);
      AddNodeSafely(g, anchor);
      AnchoredValidation(g.nodes, anchor, batch);
      BatchIsAtomic(AddNode(g, anchor), anchor.id, batch);
    }
  }

  /**
   * A failed commit leaves a seeded summary, and the graph as it was unless a foreign node is staged under the
   * anchor's id.
   */
  lemma FailedCommit(session: Session, batch: seq<Mutation>, request: Request)
    requires WellIndexed(session.graph) && CommitAllowed(session, batch, request).1.Some?
    ensures var after := CommitAllowed(session, batch, request).0;
            && after.summary == SeedBefore(session.summary, request)
            && WellIndexed(after.graph) && (SemanticsAgrees(session.graph) ==> SemanticsAgrees(after.graph))
            && (after.graph == session.graph <==>
                  AnchorTaken(session, request) || !Validates(session, batch, request))
  {
    CommitSucceedsExactly(session, batch, request);
    if !AnchorTaken(session, request) {
      AddNodeKeepsIndexes(session.graph, AnchorNode(request));
      AddNodeSafely(session.graph, AnchorNode(request));
      BatchIsAtomic(AddNode(session.graph, AnchorNode(request)), AnchorNode(request).id, batch);
    }
  }

  /**
   * A commit: seed once, apply the batch, observe the number; the anchor is in, and every other node is the
   * graph's or the batch's.
   */
  lemma SuccessfulCommit(session: Session, batch: seq<Mutation>, request: Request)
    requires WellIndexed(session.graph) && CommitAllowed(session, batch, request).1.None?
    ensures var (after, anchor) := (CommitAllowed(session, batch, request).0, AnchorNode(request));
            && after.summary == Observe(ApplyAllLive(SeedBefore(session.summary, request), batch, request.can),
                                        request.sequenceNo)
            && WellIndexed(after.graph) && (SemanticsAgrees(session.graph) ==> SemanticsAgrees(after.graph))
            && anchor.id in after.graph.nodes && after.graph.nodes[anchor.id] == anchor
            && AllKept(session.graph.nodes[anchor.id := anchor], after.graph.nodes, AllSteps(batch))
            && after.graph.edges == session.graph.edges + AllEdges(batch, ImplicitSource(anchor.id, batch))
  {
    var g, anchor := session.graph, AnchorNode(request);
    CommitSucceedsExactly(session, batch, request);
    AddNodeKeepsIndexes(g, anchor);
    AddNodeSafely(g, anchor);
    BatchIsAtomic(AddNode(g, anchor), anchor.id, batch);
    BatchKeepsNodes(AddNode(g, anchor), anchor.id, batch);
    assert NodeKept(g.nodes[anchor.id := anchor], CommitAllowed(session, batch, request).0.graph.nodes, AllSteps(batch),
                    anchor.id);
    SeededOnce(session.summary, batch, request);
  }
}
