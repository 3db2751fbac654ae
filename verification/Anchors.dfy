/** Each synthetic anchor is added once, however often it is staged. */
module AnchorsOnce {
  import opened GraphTypes
  import opened GraphIndex
  import opened SessionSummary
  import opened Mutations
  import opened Batches
  import opened Sessions
  import opened CoreRuns
  import opened RunProperties

  /** Of the anchors that stand in for requests, exactly those of the given numbers are new, and none is lost. */
  ghost predicate AnchorsAdded(before: Nodes, after: Nodes, sessionId: string, added: seq<SequenceNo>) {
    && NoDuplicates(added)
    && (forall k | k in added :: ReconciliationAnchorId(sessionId, k) !in before)
    && (forall k: SequenceNo :: ReconciliationAnchorId(sessionId, k) in after <==>
          ReconciliationAnchorId(sessionId, k) in before || k in added)
  }

  lemma AddedTwice(a: Nodes, b: Nodes, c: Nodes, sessionId: string, v: seq<SequenceNo>, w: seq<SequenceNo>)
    requires AnchorsAdded(a, b, sessionId, v) && AnchorsAdded(b, c, sessionId, w)
    ensures AnchorsAdded(a, c, sessionId, v + w)
  {
    assert forall i | 0 <= i < |v| :: v[i] in v;
    assert forall i | 0 <= i < |w| :: w[i] in w;
  }

  /** The number whose anchor is new after reconciliation, if any. */
  function ReconcileAnchor(session: Session, request: RuntimeRequest, parse: Parser): seq<SequenceNo>
    requires WellIndexed(session.graph)
  {
    if session.summary.lastSequenceNo.None? then []
    else
      var at := session.summary.lastSequenceNo.value;
      var id := ReconciliationAnchorId(request.sessionId, at);
      if id !in session.graph.nodes && id in ReconcileBefore(session, request, parse).0.graph.nodes then [at] else []
  }

  lemma ReconcileKeepsNodes(session: Session, request: RuntimeRequest, parse: Parser, id: NodeId)
    requires WellIndexed(session.graph) && id in session.graph.nodes
    ensures id in ReconcileBefore(session, request, parse).0.graph.nodes
  {
    var delta := DeltaBefore(session, request, parse);
    if delta != Reconciliation.NO_CHANGE {
      var at := session.summary.lastSequenceNo.value;
      var batch := ReconcileBatch(session.graph.nodes, request.sessionId, at, delta);
      ObservedCommit(session, request.sessionId, at, request.can, batch);
      assert NodeKept(session.graph.nodes, ReconcileBefore(session, request, parse).0.graph.nodes, AllSteps(batch), id);
    }
  }

  lemma ReconcileAdds(session: Session, request: RuntimeRequest, parse: Parser)
    requires WellIndexed(session.graph) && Valid(session.summary)
    ensures AnchorsAdded(session.graph.nodes, ReconcileBefore(session, request, parse).0.graph.nodes, request.sessionId,
                         ReconcileAnchor(session, request, parse))
  {
    ReconcileExact(session, request, parse);
    var after := ReconcileBefore(session, request, parse).0;
    forall k: SequenceNo
      ensures ReconciliationAnchorId(request.sessionId, k) in session.graph.nodes ==>
                ReconciliationAnchorId(request.sessionId, k) in after.graph.nodes
    {
      if ReconciliationAnchorId(request.sessionId, k) in session.graph.nodes {
        ReconcileKeepsNodes(session, request, parse, ReconciliationAnchorId(request.sessionId, k));
      }
    }
    OnlyOwnAdded(session, after, request.sessionId, ReconcileAnchor(session, request, parse));
  }

  /** Where anchors are kept, and at most the last number's is new, that one is the one added. */
  lemma OnlyOwnAdded(before: Session, after: Session, sessionId: string, added: seq<SequenceNo>)
    requires forall k: SequenceNo :: AnchorsKept(before, after, sessionId, k)
    requires forall k: SequenceNo :: ReconciliationAnchorId(sessionId, k) in before.graph.nodes ==>
                                       ReconciliationAnchorId(sessionId, k) in after.graph.nodes
    requires added == match before.summary.lastSequenceNo
                      case None => []
                      case Some(at) =>
                        if ReconciliationAnchorId(sessionId, at) !in before.graph.nodes
                           && ReconciliationAnchorId(sessionId, at) in after.graph.nodes then [at] else []
    ensures AnchorsAdded(before.graph.nodes, after.graph.nodes, sessionId, added)
  {
    forall k: SequenceNo
      ensures ReconciliationAnchorId(sessionId, k) in after.graph.nodes <==>
              ReconciliationAnchorId(sessionId, k) in before.graph.nodes || k in added
    {
      assert AnchorsKept(before, after, sessionId, k);
    }
  }

  /** A commit adds no anchor but the request's own, and loses no node. */
  lemma CommitAddsNone(nodes: Nodes, after: Nodes, request: Request, batch: seq<Mutation>)
    requires OwnAnchors(batch, request)
    requires AllKept(nodes[AnchorNode(request).id := AnchorNode(request)], after, AllSteps(batch))
    ensures AnchorsAdded(nodes, after, request.sessionId, [])
  {
    forall k: SequenceNo
      ensures ReconciliationAnchorId(request.sessionId, k) in after <==> ReconciliationAnchorId(request.sessionId, k) in nodes
    {
      CommittedAnchorAt(nodes, request, batch, after, k);
      assert NodeKept(nodes[AnchorNode(request).id := AnchorNode(request)], after, AllSteps(batch),
                      ReconciliationAnchorId(request.sessionId, k));
    }
  }

  lemma CheckAddsNone(prepared: Session, sessionId: string, done: nat, allowed: set<nat>, request: RuntimeRequest,
                      verdict: Verdict)
    requires Inv(prepared, sessionId, done, allowed) && Prepared(prepared.summary, request.can)
    requires request.sessionId == sessionId && Honest(verdict, Numbered(request, done + 1))
    ensures AnchorsAdded(prepared.graph.nodes, CheckNumbered(prepared, request, verdict).0.graph.nodes, sessionId, [])
  {
    var numbered := Numbered(request, done + 1);
    CheckKeeps(prepared, sessionId, done, allowed, request, verdict);
    CheckNumberedIs(prepared, request, verdict, done + 1);
    var (after, outcome) := CheckNumbered(prepared, request, verdict);
    if outcome.Checked? && outcome.allowed {
      SuccessfulCommit(prepared, verdict.batch, numbered);
      CommitAddsNone(prepared.graph.nodes, after.graph.nodes, numbered, verdict.batch);
    }
  }

  lemma StepAdds(session: Session, sessionId: string, done: nat, allowed: set<nat>, request: RuntimeRequest,
                 parse: Parser, verdict: Verdict)
    requires Inv(session, sessionId, done, allowed) && request.sessionId == sessionId
    requires Honest(verdict, Numbered(request, done + 1))
    ensures AnchorsAdded(session.graph.nodes, CheckRuntime(session, request, parse, verdict).0.graph.nodes, sessionId,
                         ReconcileAnchor(session, request, parse))
  {
    var (prepared, failed) := ReconcileBefore(session, request, parse);
    ReconcileKeeps(session, sessionId, done, allowed, request, parse);
    ReconcileAdds(session, request, parse);
    if failed.None? {
      CheckAddsNone(prepared, sessionId, done, allowed, request, verdict);
      AddedTwice(session.graph.nodes, prepared.graph.nodes, CheckNumbered(prepared, request, verdict).0.graph.nodes, sessionId,
                 ReconcileAnchor(session, request, parse), []);
      assert ReconcileAnchor(session, request, parse) + [] == ReconcileAnchor(session, request, parse);
    }
  }

  /** The numbers whose synthetic anchors are new, step by step. */
  function RunAnchors(events: seq<Event>, parse: Parser): seq<SequenceNo> {
    if events == [] then []
    else
      var front, last := events[..|events| - 1], events[|events| - 1];
      RunAnchors(front, parse) + ReconcileAnchor(Run(front, parse).0, last.request, parse)
  }

  /** In every run the synthetic anchors in the graph are those added, each once and never lost. */
  lemma {:induction false} AnchorsAddedOnce(sessionId: string, events: seq<Event>, parse: Parser)
    requires HonestRun(sessionId, events, parse)
    ensures AnchorsAdded(map[], Run(events, parse).0.graph.nodes, sessionId, RunAnchors(events, parse))
  {
    if events != [] {
      var front, last := events[..|events| - 1], events[|events| - 1];
      AnchorsAddedOnce(sessionId, front, parse);
      RunKeeps(sessionId, front, parse);
      var (before, earlier) := Run(front, parse);
      NextAdds(before, earlier, sessionId, last, parse, RunAnchors(front, parse));
    }
  }

  lemma NextAdds(before: Session, earlier: seq<Outcome>, sessionId: string, last: Event, parse: Parser,
                 added: seq<SequenceNo>)
    requires Kept(sessionId, before, earlier) && AnchorsAdded(map[], before.graph.nodes, sessionId, added)
    requires last.request.sessionId == sessionId
    requires Honest(last.verdict, Numbered(last.request, |Numbers(earlier)| + 1))
    ensures AnchorsAdded(map[], CheckRuntime(before, last.request, parse, last.verdict).0.graph.nodes, sessionId,
                         added + ReconcileAnchor(before, last.request, parse))
  {
    StepAdds(before, sessionId, |Numbers(earlier)|, AllowedNumbers(earlier), last.request, parse, last.verdict);
    AddedTwice(map[], before.graph.nodes, CheckRuntime(before, last.request, parse, last.verdict).0.graph.nodes, sessionId,
               added, ReconcileAnchor(before, last.request, parse));
  }
}
