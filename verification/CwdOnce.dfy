/**
 * No sequence number ever gets two directory states, as long as the runtime keeps saying whether it persists
 * directories.
 */
module CwdOnce {
  import opened Wrappers
  import Text
  import opened GraphTypes
  import opened GraphIndex
  import opened SessionSummary
  import opened Mutations
  import opened Batches
  import opened Reconciliation
  import opened Agreement
  import opened UpdateOrder
  import opened Sessions
  import opened CoreRuns
  import opened RunProperties

  // Directory mutations of a batch.

  function CwdMutations(batch: seq<Mutation>): (r: seq<Mutation>)
    ensures forall i | 0 <= i < |r| :: r[i].SetCurrentWorkingDirectory?
  {
    if batch == [] then []
    else (if batch[0].SetCurrentWorkingDirectory? then [batch[0]] else []) + CwdMutations(batch[1..])
  }

  lemma {:induction false} CwdMutationsMembers(batch: seq<Mutation>)
    ensures forall m :: m in CwdMutations(batch) <==> m in batch && m.SetCurrentWorkingDirectory?
  {
    if batch != [] {
      CwdMutationsMembers(batch[1..]);
      assert forall m :: m in batch <==> m == batch[0] || m in batch[1..];
    }
  }

  /** At most one, about this request; and no other mutation touches directory states. */
  ghost predicate CwdHonest(batch: seq<Mutation>, n: SequenceNo) {
    && |CwdMutations(batch)| <= 1
    && (forall m | m in batch && m.SetCurrentWorkingDirectory? :: m.observedAt == n)
    && (forall m, node, k: SequenceNo | m in batch && Put(node) in Steps(m) && node.id == CwdStateId(k) :: m.SetCurrentWorkingDirectory?)
  }

  lemma {:induction false} CwdAfterBatch(s: Summary, batch: seq<Mutation>, can: Capabilities)
    requires |CwdMutations(batch)| <= 1
    ensures ApplyAllLive(s, batch, can).cwd
         == if CwdMutations(batch) == [] then s.cwd else CwdAfter(s.cwd, CwdMutations(batch)[0], can)
    decreases |batch|
  {
    if batch != [] {
      OthersOnTheirOwn(s, batch[0], can);
      CwdAfterBatch(ApplyLive(s, batch[0], can), batch[1..], can);
    }
  }

  lemma CwdIdInjective(m: SequenceNo, n: SequenceNo)
    requires CwdStateId(m) == CwdStateId(n)
    ensures m == n
  {
    assert CwdStateId(m)[|"cwd-state:"|..] == Text.Decimal(m);
    assert CwdStateId(n)[|"cwd-state:"|..] == Text.Decimal(n);
    Text.DecimalInjective(m, n);
  }

  lemma SetCwdPut(m: Mutation, node: GraphNode, k: SequenceNo)
    requires m.SetCurrentWorkingDirectory? && Put(node) in Steps(m) && node.id == CwdStateId(k)
    ensures m.observedAt == k && node.kind == DirectoryState(m.path, k)
  {
    CwdIdInjective(m.observedAt, k);
  }

  lemma HonestCwds(batch: seq<Mutation>, n: SequenceNo)
    requires CwdHonest(batch, n)
    ensures forall i | 0 <= i < |CwdMutations(batch)| ::
              CwdMutations(batch)[i] in batch && CwdMutations(batch)[i].observedAt == n
  {
    CwdMutationsMembers(batch);
    assert forall i | 0 <= i < |CwdMutations(batch)| :: CwdMutations(batch)[i] in CwdMutations(batch);
  }

  /** Only directory mutations put a directory state, and each puts its own. */
  ghost predicate CwdPuts(steps: seq<Step>, cwds: seq<Mutation>) {
    forall node, k: SequenceNo | Put(node) in steps && node.id == CwdStateId(k) ::
      exists m | m in cwds :: m.SetCurrentWorkingDirectory? && m.observedAt == k && node.kind == DirectoryState(m.path, k)
  }

  lemma CwdPutsOf(batch: seq<Mutation>, cwds: seq<Mutation>)
    requires forall m | m in batch && m.SetCurrentWorkingDirectory? :: m in cwds
    requires forall m, node, k: SequenceNo | m in batch && Put(node) in Steps(m) && node.id == CwdStateId(k) ::
               m.SetCurrentWorkingDirectory?
    ensures CwdPuts(AllSteps(batch), cwds)
  {
    forall node, k: SequenceNo | Put(node) in AllSteps(batch) && node.id == CwdStateId(k)
      ensures exists m | m in cwds ::
                m.SetCurrentWorkingDirectory? && m.observedAt == k && node.kind == DirectoryState(m.path, k)
    {
      var m := StepOrigin(batch, Put(node));
      SetCwdPut(m, node, k);
    }
  }

  lemma HonestCwdPuts(batch: seq<Mutation>, n: SequenceNo)
    requires CwdHonest(batch, n)
    ensures CwdPuts(AllSteps(batch), CwdMutations(batch))
  {
    CwdMutationsMembers(batch);
    CwdPutsOf(batch, CwdMutations(batch));
  }

  lemma ReconcilingPutsNoCwd(m: Mutation, own: Option<NodeId>, node: GraphNode, k: SequenceNo)
    requires Reconciling(m, own) && Put(node) in Steps(m) && node.id == CwdStateId(k)
    ensures m.SetCurrentWorkingDirectory?
  {
    CwdIdShape(k);
    match m {
      case UpsertAliasBinding(b) => AliasIdShape(b);
      case UpsertFunctionBinding(b) => FunctionIdShape(b.name, b.observedAt);
      case UnsetAliasBinding(name, n) => AliasUnsetIdShape(name, n);
      case _ =>
    }
  }

  /** The directory states that a node map has, before and after. */
  ghost predicate CwdStatesGrow(before: Nodes, after: Nodes, cwds: seq<Mutation>) {
    && (forall k: SequenceNo :: CwdStateId(k) in before && !before[CwdStateId(k)].kind.ProvenanceArtifact? ==>
          CwdStateId(k) in after && after[CwdStateId(k)] == before[CwdStateId(k)])
    && (forall k: SequenceNo :: CwdStateId(k) in after && CwdStateId(k) !in before ==>
          exists m | m in cwds ::
            m.SetCurrentWorkingDirectory? && m.observedAt == k && after[CwdStateId(k)].kind == DirectoryState(m.path, k))
  }

  lemma PutsGrow(before: Nodes, after: Nodes, steps: seq<Step>, cwds: seq<Mutation>)
    requires AllKept(before, after, steps) && CwdPuts(steps, cwds)
    ensures CwdStatesGrow(before, after, cwds)
  {
    forall k: SequenceNo | CwdStateId(k) in before && !before[CwdStateId(k)].kind.ProvenanceArtifact?
      ensures CwdStateId(k) in after && after[CwdStateId(k)] == before[CwdStateId(k)]
    {
      assert NodeKept(before, after, steps, CwdStateId(k));
    }
    forall k: SequenceNo | CwdStateId(k) in after && CwdStateId(k) !in before
      ensures exists m | m in cwds ::
                m.SetCurrentWorkingDirectory? && m.observedAt == k && after[CwdStateId(k)].kind == DirectoryState(m.path, k)
    {
      assert NodeKept(before, after, steps, CwdStateId(k));
      NewCwdState(steps, cwds, after[CwdStateId(k)], k);
    }
  }

  lemma NewCwdState(steps: seq<Step>, cwds: seq<Mutation>, node: GraphNode, k: SequenceNo)
    requires CwdPuts(steps, cwds) && node.id == CwdStateId(k) && PutBy(steps, node)
    ensures exists m | m in cwds ::
              m.SetCurrentWorkingDirectory? && m.observedAt == k && node.kind == DirectoryState(m.path, k)
  {
    assert forall i | 0 <= i < |steps| && steps[i].Put? :: Put(steps[i].node) in steps;
  }

  // The invariant.

  /** Directory states are about numbers so far, and the one of the last number is the remembered directory. */
  ghost predicate CwdInv(session: Session, persists: bool) {
    var nodes, last := session.graph.nodes, session.summary.lastSequenceNo;
    && (forall k: SequenceNo :: CwdStateId(k) in nodes ==>
          last.Some? && k <= last.value && nodes[CwdStateId(k)].kind.DirectoryState?)
    && (persists && last.Some? && CwdStateId(last.value) in nodes ==>
          session.summary.cwd.Some?
          && nodes[CwdStateId(last.value)].kind == DirectoryState(session.summary.cwd.value.path, last.value))
  }

  lemma ReconcileCwdPuts(nodes: Nodes, sessionId: string, at: SequenceNo, delta: Delta)
    ensures CwdPuts(AllSteps(ReconcileBatch(nodes, sessionId, at, delta)), CwdMutation(delta.cwdAfter, at))
  {
    var batch := ReconcileBatch(nodes, sessionId, at, delta);
    ReconcileBatchMembers(nodes, sessionId, at, delta);
    forall m | m in batch && m.SetCurrentWorkingDirectory? ensures m in CwdMutation(delta.cwdAfter, at) {
      assert m in [m];
    }
    forall m, node, k: SequenceNo | m in batch && Put(node) in Steps(m) && node.id == CwdStateId(k)
      ensures m.SetCurrentWorkingDirectory?
    {
      ReconcilingPutsNoCwd(m, SyntheticAnchor(nodes, sessionId, at), node, k);
    }
    CwdPutsOf(batch, CwdMutation(delta.cwdAfter, at));
  }

  /** A batch that puts a directory state over another one does not validate; one that validates leaves it in place. */
  lemma CwdWriteIsFresh(g: Graph, anchorId: NodeId, batch: seq<Mutation>, m: Mutation)
    requires WellIndexed(g) && ApplyBatch(g, anchorId, batch).Success? && m in batch && m.SetCurrentWorkingDirectory?
    ensures CwdStateId(m.observedAt) in g.nodes && !g.nodes[CwdStateId(m.observedAt)].kind.ProvenanceArtifact? ==>
              g.nodes[CwdStateId(m.observedAt)].kind == DirectoryState(m.path, m.observedAt)
    ensures CwdStateId(m.observedAt) in ApplyBatch(g, anchorId, batch).value.nodes
  {
    var node := GraphNode(CwdStateId(m.observedAt), DirectoryState(m.path, m.observedAt));
    assert Steps(m) == [Put(node)];
    StepsIncluded(batch, m, Put(node));
    BatchIsAtomic(g, anchorId, batch);
    PutIsFresh(g.nodes, AllSteps(batch), node);
  }

  lemma PutIsFresh(nodes: Nodes, steps: seq<Step>, node: GraphNode)
    requires CheckSteps(nodes, map[], steps).Success? && Put(node) in steps
    ensures node.id in nodes && !nodes[node.id].kind.ProvenanceArtifact? ==> nodes[node.id] == node
    ensures node.id in CheckSteps(nodes, map[], steps).value || node.id in nodes
  {
    if node.id in nodes && !nodes[node.id].kind.ProvenanceArtifact? {
      PutConflicts(nodes, map[], steps, node);
    }
    var i :| 0 <= i < |steps| && steps[i] == Put(node);
    PutsArePresent(nodes, map[], steps, node.id);
  }

  ghost predicate StatesStay(before: Nodes, after: Nodes) {
    forall k: SequenceNo :: CwdStateId(k) in before ==> CwdStateId(k) in after
  }

  /** The numbers, each once, have no state before and have one after; states that were there stay. */
  ghost predicate FreshWrites(before: Nodes, after: Nodes, writes: seq<SequenceNo>) {
    && NoDuplicates(writes) && StatesStay(before, after)
    && (forall k: SequenceNo | k in writes :: CwdStateId(k) !in before && CwdStateId(k) in after)
  }

  function ReconcileWrite(session: Session, request: RuntimeRequest, parse: Parser): seq<SequenceNo> {
    if DeltaBefore(session, request, parse).cwdAfter.Some? && session.summary.lastSequenceNo.Some?
    then [session.summary.lastSequenceNo.value] else []
  }

  /** Taking the snapshot's directory over, or not, keeps the invariant. */
  lemma CwdInvAfterReconcile(session: Session, after: Session, persists: bool, at: SequenceNo, path: Option<string>)
    requires CwdInv(session, persists)
    requires session.summary.lastSequenceNo == Some(at) == after.summary.lastSequenceNo
    requires CwdStatesGrow(session.graph.nodes, after.graph.nodes, CwdMutation(path, at))
    requires after.summary.cwd == if path.Some? then Some(Cwd(path.value, at, RuntimeSnapshot)) else session.summary.cwd
    requires path.Some? ==> CwdStateId(at) !in session.graph.nodes
    ensures CwdInv(after, persists)
    ensures StatesStay(session.graph.nodes, after.graph.nodes)
  {
  }

  /** A directory that reconciliation wants to change is not the one that the graph has for the last number. */
  lemma CwdAfterDiffers(session: Session, request: RuntimeRequest, parse: Parser)
    requires CwdInv(session, request.can.cwd) && DeltaBefore(session, request, parse).cwdAfter.Some?
    ensures session.summary.lastSequenceNo.Some?
    ensures var at, path := session.summary.lastSequenceNo.value, DeltaBefore(session, request, parse).cwdAfter.value;
            CwdStateId(at) in session.graph.nodes ==>
              session.graph.nodes[CwdStateId(at)].kind.DirectoryState?
              && session.graph.nodes[CwdStateId(at)].kind != DirectoryState(path, at)
  {
  }

  /** What a reconciliation does about the directory: nothing, or a state for a number that has none. */
  lemma ReconcileWrites(session: Session, request: RuntimeRequest, parse: Parser)
    requires WellIndexed(session.graph) && Valid(session.summary) && CwdInv(session, request.can.cwd)
    ensures var (after, error) := ReconcileBefore(session, request, parse);
            && CwdInv(after, request.can.cwd)
            && (error.None? ==> FreshWrites(session.graph.nodes, after.graph.nodes, ReconcileWrite(session, request, parse)))
  {
    var delta := DeltaBefore(session, request, parse);
    var (after, error) := ReconcileBefore(session, request, parse);
    ReconcileExact(session, request, parse);
    if delta != NO_CHANGE && error.None? {
      ReconcileEffects(session, request, parse, after);
      CwdInvAfterReconcile(session, after, request.can.cwd, session.summary.lastSequenceNo.value, delta.cwdAfter);
    } else {
      assert after == session;
    }
  }

  lemma ReconcileEffects(session: Session, request: RuntimeRequest, parse: Parser, after: Session)
    requires WellIndexed(session.graph) && Valid(session.summary) && CwdInv(session, request.can.cwd)
    requires DeltaBefore(session, request, parse) != NO_CHANGE
    requires ReconcileBefore(session, request, parse) == (after, None)
    ensures var at, path := session.summary.lastSequenceNo.value, DeltaBefore(session, request, parse).cwdAfter;
            && session.summary.lastSequenceNo == Some(at) == after.summary.lastSequenceNo
            && CwdStatesGrow(session.graph.nodes, after.graph.nodes, CwdMutation(path, at))
            && after.summary.cwd == (if path.Some? then Some(Cwd(path.value, at, RuntimeSnapshot)) else session.summary.cwd)
            && (path.Some? ==> CwdStateId(at) !in session.graph.nodes && CwdStateId(at) in after.graph.nodes)
  {
    ReconcileExact(session, request, parse);
    ReconciledDirectory(session, request, parse, after);
    ReconcileGrows(session, request, parse, after);
    if DeltaBefore(session, request, parse).cwdAfter.Some? {
      ReconcileCwdFresh(session, request, parse, after);
    }
  }

  lemma ReconciledDirectory(session: Session, request: RuntimeRequest, parse: Parser, after: Session)
    requires WellIndexed(session.graph) && Valid(session.summary)
    requires DeltaBefore(session, request, parse) != NO_CHANGE && ReconcileBefore(session, request, parse) == (after, None)
    ensures var at, path := session.summary.lastSequenceNo.value, DeltaBefore(session, request, parse).cwdAfter;
            after.summary.cwd == (if path.Some? then Some(Cwd(path.value, at, RuntimeSnapshot)) else session.summary.cwd)
  {
    var delta, at, nodes := DeltaBefore(session, request, parse), session.summary.lastSequenceNo.value, session.graph.nodes;
    ReconcileBatchExact(nodes, request.sessionId, at, delta, session.summary, request.can);
    ReconciledCwd(session.summary, request.before, at,
                  PreviousContext(nodes, RequestAnchorId(request.sessionId, at), parse), request.can);
    ObservedCommit(session, request.sessionId, at, request.can, ReconcileBatch(nodes, request.sessionId, at, delta));
  }

  lemma ReconcileGrows(session: Session, request: RuntimeRequest, parse: Parser, after: Session)
    requires WellIndexed(session.graph)
    requires DeltaBefore(session, request, parse) != NO_CHANGE && ReconcileBefore(session, request, parse) == (after, None)
    ensures CwdStatesGrow(session.graph.nodes, after.graph.nodes,
                          CwdMutation(DeltaBefore(session, request, parse).cwdAfter, session.summary.lastSequenceNo.value))
  {
    var delta, at, nodes := DeltaBefore(session, request, parse), session.summary.lastSequenceNo.value, session.graph.nodes;
    var batch := ReconcileBatch(nodes, request.sessionId, at, delta);
    ObservedCommit(session, request.sessionId, at, request.can, batch);
    ReconcileCwdPuts(nodes, request.sessionId, at, delta);
    PutsGrow(nodes, after.graph.nodes, AllSteps(batch), CwdMutation(delta.cwdAfter, at));
  }

  lemma ReconcileCwdFresh(session: Session, request: RuntimeRequest, parse: Parser, after: Session)
    requires WellIndexed(session.graph) && CwdInv(session, request.can.cwd)
    requires DeltaBefore(session, request, parse).cwdAfter.Some? && ReconcileBefore(session, request, parse) == (after, None)
    ensures var at := session.summary.lastSequenceNo.value;
            CwdStateId(at) !in session.graph.nodes && CwdStateId(at) in after.graph.nodes
  {
    var delta, at, nodes := DeltaBefore(session, request, parse), session.summary.lastSequenceNo.value, session.graph.nodes;
    var batch := ReconcileBatch(nodes, request.sessionId, at, delta);
    var anchorId := ObservedCases(session, request.sessionId, at, request.can, batch);
    ReconcileBatchHasCwd(nodes, request.sessionId, at, delta);
    CwdAfterDiffers(session, request, parse);
    CwdWriteIsFresh(session.graph, anchorId, batch, SetCurrentWorkingDirectory(delta.cwdAfter.value, at, RuntimeSnapshot));
  }

  ghost predicate WritesAfter(before: Session, after: Session, persists: bool, writes: seq<SequenceNo>) {
    CwdInv(after, persists) && FreshWrites(before.graph.nodes, after.graph.nodes, writes)
  }

  /** Committing the directory of a new number keeps the invariant. */
  lemma CwdInvAfterCommit(session: Session, after: Session, persists: bool, n: SequenceNo, cwds: seq<Mutation>)
    requires CwdInv(session, persists) && |cwds| <= 1
    requires n > 0 && AtMost(session.summary.lastSequenceNo, n - 1) && after.summary.lastSequenceNo == Some(n)
    requires CwdStatesGrow(session.graph.nodes, after.graph.nodes, cwds)
    requires forall i | 0 <= i < |cwds| :: cwds[i].SetCurrentWorkingDirectory? && cwds[i].observedAt == n
    requires cwds != [] && persists ==> after.summary.cwd == Some(Cwd(cwds[0].path, n, cwds[0].cwdSource))
    requires cwds != [] ==> CwdStateId(n) in after.graph.nodes
    ensures WritesAfter(session, after, persists, if cwds != [] then [n] else [])
  {
  }

  lemma CommittedState(session: Session, done: nat, request: Request, batch: seq<Mutation>)
    requires WellIndexed(session.graph) && CommitAllowed(session, batch, request).1.None? && CwdHonest(batch, done + 1)
    ensures forall i | 0 <= i < |CwdMutations(batch)| :: CwdMutations(batch)[i].observedAt == done + 1
    ensures CwdMutations(batch) != [] ==> CwdStateId(done + 1) in CommitAllowed(session, batch, request).0.graph.nodes
  {
    HonestCwds(batch, done + 1);
    if CwdMutations(batch) != [] {
      CommitApplies(session, batch, request);
      CwdWriteIsFresh(AddNode(session.graph, AnchorNode(request)), AnchorNode(request).id, batch, CwdMutations(batch)[0]);
    }
  }

  lemma CommitEffects(session: Session, done: nat, request: Request, batch: seq<Mutation>)
    requires WellIndexed(session.graph) && Valid(session.summary) && Counted(session.summary, done)
    requires Prepared(session.summary, request.can) && request.sequenceNo == done + 1
    requires Timely(batch, request.can, done + 1) && CwdHonest(batch, done + 1)
    requires CommitAllowed(session, batch, request).1.None?
    ensures var after := CommitAllowed(session, batch, request).0;
            && after.summary.lastSequenceNo == Some(done + 1)
            && CwdStatesGrow(session.graph.nodes, after.graph.nodes, CwdMutations(batch))
            && (CwdMutations(batch) != [] && request.can.cwd ==>
                  after.summary.cwd
                  == Some(Cwd(CwdMutations(batch)[0].path, done + 1, CwdMutations(batch)[0].cwdSource)))
  {
    var after, anchor := CommitAllowed(session, batch, request).0, AnchorNode(request);
    SuccessfulCommit(session, batch, request);
    CommittedSummary(session.summary, done, request, batch);
    HonestCwdPuts(batch, done + 1);
    PutsGrow(session.graph.nodes[anchor.id := anchor], after.graph.nodes, AllSteps(batch), CwdMutations(batch));
    AnchorIsNoCwdState(session.graph.nodes, after.graph.nodes, anchor, request, CwdMutations(batch));
    if CwdMutations(batch) != [] && request.can.cwd {
      CommittedCwd(session.summary, done, request, batch);
    }
  }

  lemma AnchorIsNoCwdState(before: Nodes, after: Nodes, anchor: GraphNode,
                           request: Request, cwds: seq<Mutation>)
    requires anchor == AnchorNode(request) && CwdStatesGrow(before[anchor.id := anchor], after, cwds)
    ensures CwdStatesGrow(before, after, cwds)
  {
    forall k: SequenceNo ensures CwdStateId(k) != anchor.id {
      CwdIdShape(k);
      AnchorIdShape(request.sessionId, request.sequenceNo);
    }
  }

  lemma CommitApplies(session: Session, batch: seq<Mutation>, request: Request)
    requires WellIndexed(session.graph) && CommitAllowed(session, batch, request).1.None?
    ensures PositionsInRange(session.graph) && WellIndexed(AddNode(session.graph, AnchorNode(request)))
    ensures ApplyBatch(AddNode(session.graph, AnchorNode(request)), AnchorNode(request).id, batch)
         == Success(CommitAllowed(session, batch, request).0.graph)
  {
    AddNodeKeepsIndexes(session.graph, AnchorNode(request));
  }

  lemma CommittedCwd(s: Summary, done: nat, request: Request, batch: seq<Mutation>)
    requires Valid(s) && Counted(s, done) && Prepared(s, request.can) && request.sequenceNo == done + 1
    requires CwdHonest(batch, done + 1) && CwdMutations(batch) != [] && request.can.cwd
    ensures ApplyAllLive(SeedBefore(s, request), batch, request.can).cwd
         == Some(Cwd(CwdMutations(batch)[0].path, done + 1, CwdMutations(batch)[0].cwdSource))
  {
    SeededKeeps(s, done, request);
    CwdMutationsMembers(batch);
    assert CwdMutations(batch)[0] in CwdMutations(batch);
    CwdAfterBatch(SeedBefore(s, request), batch, request.can);
  }

  // Runs.

  function CheckWrite(outcome: Outcome, batch: seq<Mutation>): seq<SequenceNo> {
    if outcome.Checked? && outcome.allowed && CwdMutations(batch) != [] then [outcome.n] else []
  }

  /** The numbers that one runtime check writes a directory state for. */
  function StepWrites(session: Session, request: RuntimeRequest, parse: Parser, verdict: Verdict): seq<SequenceNo>
    requires WellIndexed(session.graph)
  {
    var (prepared, failed) := ReconcileBefore(session, request, parse);
    ReconcileWellIndexed(session, request, parse);
    if failed.Some? then []
    else ReconcileWrite(session, request, parse) + CheckWrite(CheckNumbered(prepared, request, verdict).1, verdict.batch)
  }

  function RunWrites(events: seq<Event>, parse: Parser): seq<SequenceNo> {
    if events == [] then []
    else
      var front, last := events[..|events| - 1], events[|events| - 1];
      RunWrites(front, parse) + StepWrites(Run(front, parse).0, last.request, parse, last.verdict)
  }

  /** The summary learned nothing about the directory that the graph would contradict. */
  lemma CwdInvWithoutCommit(session: Session, after: Session, persists: bool, done: nat)
    requires CwdInv(session, persists) && AtMost(session.summary.lastSequenceNo, done) && after.graph == session.graph
    requires after.summary == session.summary || after.summary.lastSequenceNo == Some(done + 1)
             || (session.summary.lastSequenceNo.None? && AtMost(after.summary.lastSequenceNo, 0))
    ensures CwdInv(after, persists)
  {
  }

  ghost predicate Ready(s: Session, sessionId: string, done: nat, allowed: set<nat>, request: Request,
                        verdict: Verdict) {
    && Inv(s, sessionId, done, allowed) && Prepared(s.summary, request.can) && CwdInv(s, request.can.cwd)
    && request.sequenceNo == done + 1 && request.sessionId == sessionId
    && Honest(verdict, request) && (verdict.allow ==> CwdHonest(verdict.batch, done + 1))
  }

  lemma WhenDenied(s: Session, sessionId: string, done: nat, allowed: set<nat>, request: Request, verdict: Verdict)
    requires Ready(s, sessionId, done, allowed, request, verdict) && !verdict.allow
    ensures WritesAfter(s, Check(s, request, verdict).0, request.can.cwd, [])
  {
    DeniedNoWrites(s, sessionId, done, allowed, request, verdict.batch);
  }

  lemma WhenFailed(s: Session, sessionId: string, done: nat, allowed: set<nat>, request: Request, verdict: Verdict)
    requires Ready(s, sessionId, done, allowed, request, verdict) && Check(s, request, verdict).1.Some?
    ensures WritesAfter(s, Check(s, request, verdict).0, request.can.cwd, [])
  {
    FailureNoWrites(s, sessionId, done, allowed, request, verdict.batch);
  }

  /** What a committed batch does about the directory. */
  lemma CommitWrites(s: Session, done: nat, request: Request, batch: seq<Mutation>)
    requires WellIndexed(s.graph) && Valid(s.summary) && Counted(s.summary, done)
    requires Prepared(s.summary, request.can) && request.sequenceNo == done + 1
    requires Timely(batch, request.can, done + 1) && CwdHonest(batch, done + 1) && CwdInv(s, request.can.cwd)
    requires CommitAllowed(s, batch, request).1.None?
    ensures WritesAfter(s, CommitAllowed(s, batch, request).0, request.can.cwd,
                        CheckWrite(Checked(done + 1, true), batch))
  {
    CommitEffects(s, done, request, batch);
    CommittedState(s, done, request, batch);
    WritesOfCommit(s, CommitAllowed(s, batch, request).0, done, request, batch);
  }

  lemma WritesOfCommit(s: Session, after: Session, done: nat, request: Request, batch: seq<Mutation>)
    requires Counted(s.summary, done) && CwdHonest(batch, done + 1) && CwdInv(s, request.can.cwd)
    requires after.summary.lastSequenceNo == Some(done + 1)
    requires CwdStatesGrow(s.graph.nodes, after.graph.nodes, CwdMutations(batch))
    requires forall i | 0 <= i < |CwdMutations(batch)| :: CwdMutations(batch)[i].observedAt == done + 1
    requires CwdMutations(batch) != [] ==> CwdStateId(done + 1) in after.graph.nodes
    requires CwdMutations(batch) != [] && request.can.cwd ==>
               after.summary.cwd == Some(Cwd(CwdMutations(batch)[0].path, done + 1, CwdMutations(batch)[0].cwdSource))
    ensures WritesAfter(s, after, request.can.cwd, CheckWrite(Checked(done + 1, true), batch))
  {
    CwdInvAfterCommit(s, after, request.can.cwd, done + 1, CwdMutations(batch));
  }

  lemma WhenCommitted(s: Session, sessionId: string, done: nat, allowed: set<nat>, request: Request, verdict: Verdict)
    requires Ready(s, sessionId, done, allowed, request, verdict) && verdict.allow && Check(s, request, verdict).1.None?
    ensures WritesAfter(s, Check(s, request, verdict).0, request.can.cwd,
                          CheckWrite(Checked(done + 1, true), verdict.batch))
  {
    CommitWrites(s, done, request, verdict.batch);
  }

  lemma CheckWrites(prepared: Session, sessionId: string, done: nat, allowed: set<nat>, request: RuntimeRequest,
                    verdict: Verdict)
    requires Ready(prepared, sessionId, done, allowed, Numbered(request, done + 1), verdict)
    ensures var (after, outcome) := CheckNumbered(prepared, request, verdict);
            WritesAfter(prepared, after, request.can.cwd, CheckWrite(outcome, verdict.batch))
  {
    var numbered := Numbered(request, done + 1);
    CheckNumberedIs(prepared, request, verdict, done + 1);
    if !verdict.allow {
      WhenDenied(prepared, sessionId, done, allowed, numbered, verdict);
    } else if Check(prepared, numbered, verdict).1.Some? {
      WhenFailed(prepared, sessionId, done, allowed, numbered, verdict);
    } else {
      WhenCommitted(prepared, sessionId, done, allowed, numbered, verdict);
    }
  }

  lemma DeniedNoWrites(prepared: Session, sessionId: string, done: nat, allowed: set<nat>, request: Request,
                       batch: seq<Mutation>)
    requires Inv(prepared, sessionId, done, allowed) && Prepared(prepared.summary, request.can)
    requires request.sequenceNo == done + 1 && CwdInv(prepared, request.can.cwd)
    ensures var after := Check(prepared, request, Verdict(false, batch)).0;
            CwdInv(after, request.can.cwd) && after.graph == prepared.graph
  {
    DeniedKeeps(prepared, sessionId, done, allowed, request, batch);
    CwdInvWithoutCommit(prepared, Check(prepared, request, Verdict(false, batch)).0, request.can.cwd, done);
  }

  lemma FailureNoWrites(prepared: Session, sessionId: string, done: nat, allowed: set<nat>, request: Request,
                        batch: seq<Mutation>)
    requires Inv(prepared, sessionId, done, allowed) && Prepared(prepared.summary, request.can)
    requires request.sequenceNo == done + 1 && request.sessionId == sessionId && Honest(Verdict(true, batch), request)
    requires CwdInv(prepared, request.can.cwd) && CommitAllowed(prepared, batch, request).1.Some?
    ensures var after := CommitAllowed(prepared, batch, request).0;
            CwdInv(after, request.can.cwd) && after.graph == prepared.graph
  {
    var after := CommitAllowed(prepared, batch, request).0;
    FailureKeeps(prepared, sessionId, done, allowed, request, batch);
    FailedCommit(prepared, batch, request);
    SeededCwdInv(prepared, after, done, request);
  }

  lemma SeededCwdInv(session: Session, after: Session, done: nat, request: Request)
    requires Valid(session.summary) && Counted(session.summary, done) && Prepared(session.summary, request.can)
    requires CwdInv(session, request.can.cwd)
    requires after.graph == session.graph && after.summary == SeedBefore(session.summary, request)
    ensures CwdInv(after, request.can.cwd)
  {
    SeededKeeps(session.summary, done, request);
    CwdInvWithoutCommit(session, after, request.can.cwd, done);
  }

  lemma FreshTwice(a: Nodes, b: Nodes, c: Nodes, v: seq<SequenceNo>,
                   w: seq<SequenceNo>)
    requires FreshWrites(a, b, v) && FreshWrites(b, c, w)
    ensures FreshWrites(a, c, v + w)
  {
    assert forall i | 0 <= i < |v| :: v[i] in v;
    assert forall i | 0 <= i < |w| :: w[i] in w;
  }

  lemma StepWritesFresh(session: Session, sessionId: string, done: nat, allowed: set<nat>, request: RuntimeRequest,
                        parse: Parser, verdict: Verdict)
    requires Inv(session, sessionId, done, allowed) && request.sessionId == sessionId
    requires Honest(verdict, Numbered(request, done + 1))
    requires CwdInv(session, request.can.cwd) && (verdict.allow ==> CwdHonest(verdict.batch, done + 1))
    ensures var after := CheckRuntime(session, request, parse, verdict).0;
            && CwdInv(after, request.can.cwd)
            && FreshWrites(session.graph.nodes, after.graph.nodes, StepWrites(session, request, parse, verdict))
  {
    var (prepared, failed) := ReconcileBefore(session, request, parse);
    ReconcileKeeps(session, sessionId, done, allowed, request, parse);
    ReconcileWrites(session, request, parse);
    if failed.None? {
      var (after, outcome) := CheckNumbered(prepared, request, verdict);
      CheckWrites(prepared, sessionId, done, allowed, request, verdict);
      FreshTwice(session.graph.nodes, prepared.graph.nodes, after.graph.nodes, ReconcileWrite(session, request, parse),
                 CheckWrite(outcome, verdict.batch));
    } else {
      ReconcileExact(session, request, parse);
    }
  }

  /** Verdicts are honest about directories too, and the runtime does not change its mind about persisting them. */
  ghost predicate HonestCwdRun(events: seq<Event>, persists: bool, parse: Parser) {
    events != [] ==>
      var front, last := events[..|events| - 1], events[|events| - 1];
      && HonestCwdRun(front, persists, parse)
      && last.request.can.cwd == persists
      && (last.verdict.allow ==> CwdHonest(last.verdict.batch, |Numbers(Run(front, parse).1)| + 1))
  }

  /** In every such run no number gets two directory states. */
  lemma {:induction false} CwdWrittenOnce(sessionId: string, events: seq<Event>, persists: bool, parse: Parser)
    requires HonestRun(sessionId, events, parse) && HonestCwdRun(events, persists, parse)
    ensures CwdInv(Run(events, parse).0, persists)
    ensures FreshWrites(NEW_SESSION.graph.nodes, Run(events, parse).0.graph.nodes, RunWrites(events, parse))
  {
    if events != [] {
      var front, last := events[..|events| - 1], events[|events| - 1];
      CwdWrittenOnce(sessionId, front, persists, parse);
      RunKeeps(sessionId, front, parse);
      var (before, earlier) := Run(front, parse);
      StepWritesFresh(before, sessionId, |Numbers(earlier)|, AllowedNumbers(earlier), last.request, parse, last.verdict);
      FreshTwice(NEW_SESSION.graph.nodes, before.graph.nodes, Run(events, parse).0.graph.nodes, RunWrites(front, parse),
                 StepWrites(before, last.request, parse, last.verdict));
    }
  }

  /** Right after a check that set the directory by static analysis, the shell's own directory does not overrule it. */
  lemma StaticCwdBlocks(session: Session, batch: seq<Mutation>, request: Request, done: nat, next: RuntimeRequest,
                        parse: Parser)
    requires WellIndexed(session.graph) && Valid(session.summary) && Counted(session.summary, done)
    requires Prepared(session.summary, request.can) && request.sequenceNo == done + 1
    requires Timely(batch, request.can, done + 1) && CwdHonest(batch, done + 1)
    requires CwdMutations(batch) != [] && CwdMutations(batch)[0].cwdSource == StaticAnalysis
    requires CommitAllowed(session, batch, request).1.None?
    requires next.sessionId == request.sessionId && next.can == request.can
    ensures DeltaBefore(CommitAllowed(session, batch, request).0, next, parse).cwdAfter.None?
  {
    var after := CommitAllowed(session, batch, request).0;
    SuccessfulCommit(session, batch, request);
    CommitEffects(session, done, request, batch);
    StaticAnalysisHasTheSay(after, next, parse, AnchorNode(request));
  }

  lemma StaticAnalysisHasTheSay(session: Session, next: RuntimeRequest, parse: Parser, anchor: GraphNode)
    requires session.summary.lastSequenceNo.Some? && anchor.kind.RequestAnchor?
    requires anchor.id == RequestAnchorId(next.sessionId, session.summary.lastSequenceNo.value)
    requires anchor.id in session.graph.nodes && session.graph.nodes[anchor.id] == anchor
    requires next.can.cwd ==>
               session.summary.cwd.Some? && session.summary.cwd.value.source == StaticAnalysis
               && Some(session.summary.cwd.value.observedAt) == session.summary.lastSequenceNo
    ensures DeltaBefore(session, next, parse).cwdAfter.None?
  {
  }

  // What the passes stage.

  /** Ids of facts and payloads begin with words like `artifact`, `derived`, `nested` or `resolved-path`. */
  predicate PlainId(id: NodeId) {
    |id| > 1 && id[1] !in "ohw"
  }

  /** Nodes under the ids made for them, and observations about the request itself. */
  predicate Usual(m: Mutation, request: Request) {
    match m
    case AddRequestAnchor(_, _, _, _, _, _) => Steps(m) == [Put(AnchorNode(request))]
    case AddTopLevelCommandInvocation(id, s, n, index, _, _, _) => id == TopLevelCommandId(s, n, index)
    case AddShellStateReconciliationAnchor(_, _) => false
    case AddFact(_, fact, _, _) => PlainId(fact.id)
    case AddNestedPayload(payload, _, _, _) => PlainId(payload.id)
    case SetCurrentWorkingDirectory(_, n, _) => n == request.sequenceNo
    case _ => ObservedAt(m) <= request.sequenceNo
  }

  lemma CommandIdShape(sessionId: string, n: SequenceNo, index: nat)
    ensures |TopLevelCommandId(sessionId, n, index)| > 7 && TopLevelCommandId(sessionId, n, index)[1] == 'o'
    ensures TopLevelCommandId(sessionId, n, index)[7] == ':'
    ensures |RequestAnchorId(sessionId, n)| > 7 && RequestAnchorId(sessionId, n)[7] == '-'
  {
  }

  /** No id of a usual mutation is taken for another's. */
  lemma UsualStep(m: Mutation, request: Request, node: GraphNode, k: SequenceNo)
    requires Usual(m, request) && Put(node) in Steps(m)
    ensures node.id == RequestAnchorId(request.sessionId, k) ==> node == AnchorNode(request)
    ensures node.id != ReconciliationAnchorId(request.sessionId, k)
    ensures node.id == CwdStateId(k) ==> m.SetCurrentWorkingDirectory?
  {
    AnchorIdShape(request.sessionId, k);
    ReconciliationIdShape(request.sessionId, k);
    CwdIdShape(k);
    match m {
      case AddRequestAnchor(_, _, _, _, _, _) => AnchorIdShape(request.sessionId, request.sequenceNo);
      case AddTopLevelCommandInvocation(_, s, n, index, _, _, _) =>
        CommandIdShape(s, n, index);
        CommandIdShape(request.sessionId, k, 0);
      case SetCurrentWorkingDirectory(_, n, _) => CwdIdShape(n);
      case UpsertAliasBinding(b) => AliasIdShape(b);
      case UpsertFunctionBinding(b) => FunctionIdShape(b.name, b.observedAt);
      case UnsetAliasBinding(name, n) => AliasUnsetIdShape(name, n);
      case _ =>
    }
  }

  lemma UsualAnchor(m: Mutation, request: Request, p: GraphNode)
    requires Usual(m, request) && Put(p) in Steps(m)
    ensures OwnAnchor(p, request)
  {
    forall k: SequenceNo
      ensures p.id == RequestAnchorId(request.sessionId, k) ==> p == AnchorNode(request)
      ensures p.id != ReconciliationAnchorId(request.sessionId, k)
    {
      UsualStep(m, request, p, k);
    }
  }

  lemma UsualAnchors(batch: seq<Mutation>, request: Request)
    requires forall m | m in batch :: Usual(m, request)
    ensures OwnAnchors(batch, request)
  {
    forall p | Put(p) in AllSteps(batch) ensures OwnAnchor(p, request) {
      var m := StepOrigin(batch, Put(p));
      UsualAnchor(m, request, p);
    }
  }

  /** What is relied on in a run can be seen from each mutation alone, and the count of directory changes. */
  lemma UsualBatchIsHonest(batch: seq<Mutation>, request: Request)
    requires forall m | m in batch :: Usual(m, request)
    ensures Honest(Verdict(true, batch), request)
    ensures |CwdMutations(batch)| <= 1 ==> CwdHonest(batch, request.sequenceNo)
  {
    UsualAnchors(batch, request);
    forall m, node, k: SequenceNo | m in batch && Put(node) in Steps(m) && node.id == CwdStateId(k)
      ensures m.SetCurrentWorkingDirectory?
    {
      UsualStep(m, request, node, k);
    }
  }
}
