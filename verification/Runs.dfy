/** What every run of runtime checks keeps. */
module RunProperties {
  import opened Wrappers
  import opened GraphTypes
  import opened GraphIndex
  import opened ExecutionSemanticsIndex
  import opened SessionSummary
  import opened Mutations
  import opened Batches
  import opened Reconciliation
  import opened UpdateOrder
  import opened Sessions
  import opened CoreRuns

  // Sequence numbers.

  /** Nothing that the runtime persists claims to be observed after `n`. */
  ghost predicate Timely(batch: seq<Mutation>, can: Capabilities, n: SequenceNo) {
    forall m | m in batch && Effective(m, can) :: ObservedAt(m) <= n
  }

  predicate AtMost(last: Option<SequenceNo>, n: SequenceNo) {
    last.None? || last.value <= n
  }

  /** A batch moves the last number to the latest of what was there and what is persisted. */
  lemma {:induction false} LastAfterBatch(s: Summary, batch: seq<Mutation>, can: Capabilities, n: SequenceNo)
    ensures AtMost(ApplyAllLive(s, batch, can).lastSequenceNo, n) <==> AtMost(s.lastSequenceNo, n) && Timely(batch, can, n)
    decreases |batch|
  {
    if batch != [] {
      OthersOnTheirOwn(s, batch[0], can);
      LastAfterBatch(ApplyLive(s, batch[0], can), batch[1..], can, n);
      assert forall m :: m in batch <==> m == batch[0] || m in batch[1..];
    }
  }

  /** The request after a committed one gets the very next number exactly when the batch claims nothing later. */
  lemma NextNumberExactly(session: Session, batch: seq<Mutation>, request: Request)
    requires WellIndexed(session.graph) && CommitAllowed(session, batch, request).1.None?
    requires AtMost(SeedBefore(session.summary, request).lastSequenceNo, request.sequenceNo)
    ensures NextSequenceNo(CommitAllowed(session, batch, request).0.summary) == request.sequenceNo + 1
            <==> Timely(batch, request.can, request.sequenceNo)
  {
    SuccessfulCommit(session, batch, request);
    LastAfterBatch(SeedBefore(session.summary, request), batch, request.can, request.sequenceNo);
  }

  // Seeding a valid summary.

  /** Valid, and nothing observed after 0. */
  predicate Baseline(s: Summary) {
    Valid(s) && AtMost(s.lastSequenceNo, 0)
  }

  lemma {:induction false} EntriesBaseline(s: Summary, entries: seq<(string, Variable)>)
    requires Baseline(s)
    ensures Baseline(UpsertEntries(s, entries, 0))
  {
    if entries != [] {
      EntriesBaseline(s, entries[..|entries| - 1]);
    }
  }

  lemma {:induction false} AliasesBaseline(s: Summary, aliases: seq<ShellBody>)
    requires Baseline(s)
    ensures Baseline(UpsertAliases(s, aliases, 0))
  {
    if aliases != [] {
      AliasesBaseline(s, aliases[..|aliases| - 1]);
    }
  }

  lemma {:induction false} FunctionsBaseline(s: Summary, functions: seq<ShellBody>)
    requires Baseline(s)
    ensures Baseline(UpsertFunctions(s, functions, 0))
  {
    if functions != [] {
      FunctionsBaseline(s, functions[..|functions| - 1]);
    }
  }

  lemma VariablesBaseline(s: Summary, before: Snapshot, can: Capabilities)
    requires Baseline(s)
    ensures Baseline(SeedVariables(s, before, 0, can))
  {
    EntriesBaseline(s, PersistedEntries(before.variables, None, can));
    EntriesBaseline(s, ExportedEntries(before.variables, None));
  }

  lemma EndsBaseline(s: Summary, before: Snapshot, can: Capabilities)
    requires Baseline(s)
    ensures Baseline(SeedCwd(s, before, 0, can)) && Baseline(SeedPositionals(s, before, 0, can))
  {
  }

  lemma SeedBaseline(s: Summary, before: Snapshot, can: Capabilities)
    requires Baseline(s)
    ensures Baseline(Seed(s, before, 0, can))
  {
    var c := SeedCwd(s, before, 0, can);
    EndsBaseline(s, before, can);
    var v := SeedVariables(c, before, 0, can);
    VariablesBaseline(c, before, can);
    BodiesBaseline(v, before, can);
    EndsBaseline(SeedBodies(v, before, 0, can), before, can);
  }

  lemma BodiesBaseline(s: Summary, before: Snapshot, can: Capabilities)
    requires Baseline(s)
    ensures Baseline(SeedBodies(s, before, 0, can))
  {
    AliasesBaseline(s, before.aliases);
    FunctionsBaseline(s, before.functions);
    FunctionsBaseline(UpsertAliases(s, before.aliases, 0), before.functions);
  }

  // The invariant.

  /**
   * The batch puts, under ids that look like request or reconciliation anchors of the session, its own anchor at
   * most.
   */
  ghost predicate OwnAnchors(batch: seq<Mutation>, request: Request) {
    forall p | Put(p) in AllSteps(batch) :: OwnAnchor(p, request)
  }

  /** The node is the request's anchor, or no anchor of the session by its id. */
  ghost predicate OwnAnchor(p: GraphNode, request: Request) {
    forall k: SequenceNo ::
      && (p.id == RequestAnchorId(request.sessionId, k) ==> p == AnchorNode(request))
      && p.id != ReconciliationAnchorId(request.sessionId, k)
  }

  /** What the passes are relied on for: own anchors only, and observations no later than the request. */
  ghost predicate Honest(verdict: Verdict, request: Request) {
    verdict.allow ==> OwnAnchors(verdict.batch, request) && Timely(verdict.batch, request.can, request.sequenceNo)
  }

  /** After `done` checks the last number is `done`, or nothing later than the baseline if there were none. */
  predicate Counted(s: Summary, done: nat) {
    if done == 0 then AtMost(s.lastSequenceNo, 0) else s.lastSequenceNo == Some(done)
  }

  /** Request anchors are those of the allowed numbers; a reconciliation anchor stands in only for another. */
  ghost predicate AnchorsMatch(session: Session, sessionId: string, done: nat, allowed: set<nat>) {
    && (forall k | k in allowed :: 1 <= k <= done)
    && (forall k: nat :: RequestAnchorId(sessionId, k) in session.graph.nodes <==> k in allowed)
    && (forall k: nat :: ReconciliationAnchorId(sessionId, k) in session.graph.nodes ==> k <= done && k !in allowed)
  }

  ghost predicate Inv(session: Session, sessionId: string, done: nat, allowed: set<nat>) {
    && WellIndexed(session.graph) && SemanticsAgrees(session.graph)
    && Valid(session.summary) && Counted(session.summary, done)
    && AnchorsMatch(session, sessionId, done, allowed)
  }

  /** After reconciliation, seeding only ever concerns a session that knows nothing. */
  predicate Prepared(s: Summary, can: Capabilities) {
    s.lastSequenceNo.Some? && can.cwd ==> s.cwd.Some?
  }

  lemma ReconcileKeeps(session: Session, sessionId: string, done: nat, allowed: set<nat>, request: RuntimeRequest,
                       parse: Parser)
    requires Inv(session, sessionId, done, allowed) && request.sessionId == sessionId
    ensures var (after, error) := ReconcileBefore(session, request, parse);
            Inv(after, sessionId, done, allowed) && (error.None? ==> Prepared(after.summary, request.can))
  {
    ReconcileExact(session, request, parse);
    var after := ReconcileBefore(session, request, parse).0;
    forall k: nat
      ensures RequestAnchorId(sessionId, k) in after.graph.nodes <==> k in allowed
      ensures ReconciliationAnchorId(sessionId, k) in after.graph.nodes ==> k <= done && k !in allowed
    {
      assert AnchorsKept(session, after, sessionId, k);
    }
  }

  lemma SeededKeeps(s: Summary, done: nat, request: Request)
    requires Valid(s) && Counted(s, done) && Prepared(s, request.can)
    ensures Valid(SeedBefore(s, request)) && Counted(SeedBefore(s, request), done)
  {
    if s.lastSequenceNo.None? {
      SeedBaseline(s, request.before, request.can);
    }
  }

  /** A check that is denied leaves the graph alone and takes the next number. */
  lemma DeniedKeeps(session: Session, sessionId: string, done: nat, allowed: set<nat>, request: Request,
                    batch: seq<Mutation>)
    requires Inv(session, sessionId, done, allowed) && Prepared(session.summary, request.can)
    requires request.sequenceNo == done + 1
    ensures var (after, error) := Check(session, request, Verdict(false, batch));
            error.None? && after.graph == session.graph && Inv(after, sessionId, done + 1, allowed)
  {
    SeededKeeps(session.summary, done, request);
    var after := Check(session, request, Verdict(false, batch)).0;
    assert AnchorsMatch(after, sessionId, done + 1, allowed);
  }

  lemma OwnAnchorsAreOwn(batch: seq<Mutation>, request: Request)
    requires OwnAnchors(batch, request)
    ensures OnlyOwnAnchor(AllSteps(batch), AnchorNode(request))
  {
    var steps := AllSteps(batch);
    forall i | 0 <= i < |steps| && steps[i].Put? && steps[i].node.id == AnchorNode(request).id
      ensures steps[i].node == AnchorNode(request)
    {
      assert Put(steps[i].node) in steps && OwnAnchor(steps[i].node, request);
    }
  }

  lemma CommittedAnchors(session: Session, sessionId: string, done: nat, allowed: set<nat>, request: Request,
                         batch: seq<Mutation>, after: Session)
    requires AnchorsMatch(session, sessionId, done, allowed)
    requires request.sequenceNo == done + 1 && request.sessionId == sessionId && OwnAnchors(batch, request)
    requires AllKept(session.graph.nodes[AnchorNode(request).id := AnchorNode(request)], after.graph.nodes, AllSteps(batch))
    ensures AnchorsMatch(after, sessionId, done + 1, allowed + {done + 1})
  {
    forall k: nat
      ensures RequestAnchorId(sessionId, k) in after.graph.nodes <==> k in allowed + {done + 1}
      ensures ReconciliationAnchorId(sessionId, k) in after.graph.nodes ==> k <= done && k !in allowed
    {
      CommittedAnchorAt(session.graph.nodes, request, batch, after.graph.nodes, k);
    }
  }

  /** A commit adds the request's own anchor, and no other anchor of the session. */
  lemma CommittedAnchorAt(before: Nodes, request: Request, batch: seq<Mutation>,
                          after: Nodes, k: nat)
    requires OwnAnchors(batch, request)
    requires AllKept(before[AnchorNode(request).id := AnchorNode(request)], after, AllSteps(batch))
    ensures RequestAnchorId(request.sessionId, k) in after <==>
            RequestAnchorId(request.sessionId, k) in before || k == request.sequenceNo
    ensures ReconciliationAnchorId(request.sessionId, k) in after ==> ReconciliationAnchorId(request.sessionId, k) in before
  {
    var anchored, steps := before[AnchorNode(request).id := AnchorNode(request)], AllSteps(batch);
    var id, own := RequestAnchorId(request.sessionId, k), ReconciliationAnchorId(request.sessionId, k);
    AnchorIdShape(request.sessionId, request.sequenceNo);
    ReconciliationIdShape(request.sessionId, k);
    if id == AnchorNode(request).id {
      AnchorIdInjective(request.sessionId, k, request.sequenceNo);
    }
    assert NodeKept(anchored, after, steps, id) && NodeKept(anchored, after, steps, own);
    NothingElsePut(batch, request, k);
    forall node | PutBy(steps, node) ensures IsPut(steps, node.id) {
      PutByIsPut(steps, node);
    }
  }

  lemma NothingElsePut(batch: seq<Mutation>, request: Request, k: SequenceNo)
    requires OwnAnchors(batch, request)
    ensures IsPut(AllSteps(batch), RequestAnchorId(request.sessionId, k)) ==>
              RequestAnchorId(request.sessionId, k) == AnchorNode(request).id
    ensures !IsPut(AllSteps(batch), ReconciliationAnchorId(request.sessionId, k))
  {
    var steps := AllSteps(batch);
    forall i | 0 <= i < |steps| && steps[i].Put? ensures OwnAnchor(steps[i].node, request) {
      assert steps[i] == Put(steps[i].node);
    }
  }

  /** With the number due, the anchor is new, and an honest batch stages no other node under its id. */
  lemma AnchorIsNew(session: Session, sessionId: string, done: nat, allowed: set<nat>, request: Request,
                    batch: seq<Mutation>)
    requires Inv(session, sessionId, done, allowed)
    requires request.sequenceNo == done + 1 && request.sessionId == sessionId && OwnAnchors(batch, request)
    ensures !AnchorTaken(session, request) && OnlyOwnAnchor(AllSteps(batch), AnchorNode(request))
  {
    OwnAnchorsAreOwn(batch, request);
    assert RequestAnchorId(sessionId, done + 1) in session.graph.nodes <==> done + 1 in allowed;
  }

  /** An allowed check that commits takes the next number and leaves its anchor. */
  lemma CommitKeeps(session: Session, sessionId: string, done: nat, allowed: set<nat>, request: Request,
                    batch: seq<Mutation>)
    requires Inv(session, sessionId, done, allowed) && Prepared(session.summary, request.can)
    requires request.sequenceNo == done + 1 && request.sessionId == sessionId && Honest(Verdict(true, batch), request)
    requires CommitAllowed(session, batch, request).1.None?
    ensures Inv(CommitAllowed(session, batch, request).0, sessionId, done + 1, allowed + {done + 1})
  {
    var after := CommitAllowed(session, batch, request).0;
    SuccessfulCommit(session, batch, request);
    CommittedSummary(session.summary, done, request, batch);
    CommittedAnchors(session, sessionId, done, allowed, request, batch, after);
  }

  lemma CommittedSummary(s: Summary, done: nat, request: Request, batch: seq<Mutation>)
    requires Valid(s) && Counted(s, done) && Prepared(s, request.can) && request.sequenceNo == done + 1
    requires Timely(batch, request.can, done + 1)
    ensures var r := Observe(ApplyAllLive(SeedBefore(s, request), batch, request.can), done + 1);
            Valid(r) && Counted(r, done + 1)
  {
    var seeded := SeedBefore(s, request);
    SeededKeeps(s, done, request);
    AllValidKept(seeded, batch, request.can);
    LastAfterBatch(seeded, batch, request.can, done + 1);
  }

  /** One that fails leaves the graph alone and gives the number back. */
  lemma FailureKeeps(session: Session, sessionId: string, done: nat, allowed: set<nat>, request: Request,
                     batch: seq<Mutation>)
    requires Inv(session, sessionId, done, allowed) && Prepared(session.summary, request.can)
    requires request.sequenceNo == done + 1 && request.sessionId == sessionId && Honest(Verdict(true, batch), request)
    requires CommitAllowed(session, batch, request).1.Some?
    ensures var (after, error) := CommitAllowed(session, batch, request);
            error.value.MutationGraph? && after.graph == session.graph && Inv(after, sessionId, done, allowed)
  {
    AnchorIsNew(session, sessionId, done, allowed, request, batch);
    CommitSucceedsExactly(session, batch, request);
    FailedCommit(session, batch, request);
    SeededKeeps(session.summary, done, request);
    assert AnchorsMatch(CommitAllowed(session, batch, request).0, sessionId, done, allowed);
  }

  predicate GraphErrorOnly(outcome: Outcome) {
    (outcome.NotPrepared? || outcome.NotCommitted?) ==> outcome.error.MutationGraph?
  }

  /** The state after an outcome: one more number, and one more anchor if it was allowed; or the same as before. */
  ghost predicate Follows(after: Session, outcome: Outcome, sessionId: string, done: nat, allowed: set<nat>) {
    && GraphErrorOnly(outcome)
    && (outcome.Checked? ==>
          outcome.n == done + 1 && Inv(after, sessionId, done + 1, if outcome.allowed then allowed + {done + 1} else allowed))
    && (!outcome.Checked? ==> Inv(after, sessionId, done, allowed))
  }

  lemma CheckNumberedIs(prepared: Session, request: RuntimeRequest, verdict: Verdict, n: SequenceNo)
    requires WellIndexed(prepared.graph) && NextSequenceNo(prepared.summary) == n
    ensures var (after, error) := Check(prepared, Numbered(request, n), verdict);
            CheckNumbered(prepared, request, verdict)
            == (after, if error.Some? then NotCommitted(n, error.value) else Checked(n, verdict.allow))
  {
  }

  /** A check after reconciliation; unless it is allowed and commits, it leaves the graph alone. */
  lemma CheckKeeps(prepared: Session, sessionId: string, done: nat, allowed: set<nat>, request: RuntimeRequest,
                   verdict: Verdict)
    requires Inv(prepared, sessionId, done, allowed) && Prepared(prepared.summary, request.can)
    requires request.sessionId == sessionId && Honest(verdict, Numbered(request, done + 1))
    ensures var (after, outcome) := CheckNumbered(prepared, request, verdict);
            && Follows(after, outcome, sessionId, done, allowed)
            && !outcome.NotPrepared? && (outcome.Checked? ==> outcome.allowed == verdict.allow)
            && ((outcome.Checked? && outcome.allowed) || after.graph == prepared.graph)
  {
    var numbered := Numbered(request, done + 1);
    CheckNumberedIs(prepared, request, verdict, done + 1);
    if !verdict.allow {
      DeniedKeeps(prepared, sessionId, done, allowed, numbered, verdict.batch);
    } else if CommitAllowed(prepared, verdict.batch, numbered).1.None? {
      CommitKeeps(prepared, sessionId, done, allowed, numbered, verdict.batch);
    } else {
      FailureKeeps(prepared, sessionId, done, allowed, numbered, verdict.batch);
    }
  }

  /** One runtime check; unless it is allowed and commits, the graph is changed by reconciliation at most. */
  lemma StepKeeps(session: Session, sessionId: string, done: nat, allowed: set<nat>, request: RuntimeRequest,
                  parse: Parser,
                  verdict: Verdict)
    requires Inv(session, sessionId, done, allowed) && request.sessionId == sessionId
    requires Honest(verdict, Numbered(request, done + 1))
    ensures var (after, outcome) := CheckRuntime(session, request, parse, verdict);
            && Follows(after, outcome, sessionId, done, allowed)
            && (outcome.Checked? ==> outcome.allowed == verdict.allow)
            && ((outcome.Checked? && outcome.allowed)
                || after.graph == ReconcileBefore(session, request, parse).0.graph)
            && (outcome.NotPrepared? ==> after == session)
  {
    ReconcileKeeps(session, sessionId, done, allowed, request, parse);
    NoMissingAnchor(session, request, parse);
    ReconcileExact(session, request, parse);
    var (prepared, failed) := ReconcileBefore(session, request, parse);
    if failed.None? {
      CheckKeeps(prepared, sessionId, done, allowed, request, verdict);
    }
  }

  // Runs of one session.

  datatype Event = Event(request: RuntimeRequest, verdict: Verdict)

  function Run(events: seq<Event>, parse: Parser): (r: (Session, seq<Outcome>))
    ensures WellIndexed(r.0.graph) && |r.1| == |events|
  {
    if events == [] then
      EmptyIsWellIndexed();
      (NEW_SESSION, [])
    else
      var (session, outcomes) := Run(events[..|events| - 1], parse);
      var last := events[|events| - 1];
      var (after, outcome) := CheckRuntime(session, last.request, parse, last.verdict);
      (after, outcomes + [outcome])
  }

  /** The sequence numbers of the checks that went through, in order. */
  function Numbers(outcomes: seq<Outcome>): (r: seq<SequenceNo>)
    ensures |r| <= |outcomes|
  {
    if outcomes == [] then []
    else
      var last := outcomes[|outcomes| - 1];
      Numbers(outcomes[..|outcomes| - 1]) + (if last.Checked? then [last.n] else [])
  }

  function AllowedNumbers(outcomes: seq<Outcome>): set<SequenceNo> {
    set i | 0 <= i < |outcomes| && outcomes[i].Checked? && outcomes[i].allowed :: outcomes[i].n
  }

  /** Every verdict is honest about the request it is given for. */
  ghost predicate HonestRun(sessionId: string, events: seq<Event>, parse: Parser) {
    events != [] ==>
      var n, last := |events| - 1, events[|events| - 1];
      && HonestRun(sessionId, events[..n], parse)
      && last.request.sessionId == sessionId
      && Honest(last.verdict, Numbered(last.request, |Numbers(Run(events[..n], parse).1)| + 1))
  }

  lemma AllowedNext(outcomes: seq<Outcome>, last: Outcome)
    ensures AllowedNumbers(outcomes + [last])
         == AllowedNumbers(outcomes) + (if last.Checked? && last.allowed then {last.n} else {})
  {
    var all := outcomes + [last];
    forall n: SequenceNo
      ensures n in AllowedNumbers(all) <==> n in AllowedNumbers(outcomes) || (last.Checked? && last.allowed && n == last.n)
    {
      if n in AllowedNumbers(outcomes) {
        var i :| 0 <= i < |outcomes| && outcomes[i].Checked? && outcomes[i].allowed && outcomes[i].n == n;
        assert all[i] == outcomes[i];
      }
      if last.Checked? && last.allowed && n == last.n {
        assert all[|outcomes|] == last;
      }
    }
  }

  /** The numbers so far are 1, 2, 3, ...; the graph's request anchors are those of the allowed ones. */
  ghost predicate Kept(sessionId: string, session: Session, outcomes: seq<Outcome>) {
    && Inv(session, sessionId, |Numbers(outcomes)|, AllowedNumbers(outcomes))
    && (forall i | 0 <= i < |Numbers(outcomes)| :: Numbers(outcomes)[i] == i + 1)
    && (forall i | 0 <= i < |outcomes| :: GraphErrorOnly(outcomes[i]))
  }

  lemma OneMoreOutcome(sessionId: string, before: Session, earlier: seq<Outcome>, after: Session, outcome: Outcome)
    requires Kept(sessionId, before, earlier)
    requires Follows(after, outcome, sessionId, |Numbers(earlier)|, AllowedNumbers(earlier))
    ensures Kept(sessionId, after, earlier + [outcome])
  {
    NumbersNext(earlier, outcome);
    AllowedNext(earlier, outcome);
    assert AllowedNumbers(earlier) + {} == AllowedNumbers(earlier);
    assert forall i | 0 <= i < |earlier| :: (earlier + [outcome])[i] == earlier[i];
  }

  lemma NumbersNext(outcomes: seq<Outcome>, last: Outcome)
    ensures Numbers(outcomes + [last]) == Numbers(outcomes) + (if last.Checked? then [last.n] else [])
  {
    assert (outcomes + [last])[..|outcomes|] == outcomes;
  }

  /**
   * In every run: numbers are 1, 2, 3, ... without gap or repeat, whatever is denied or fails; the request anchors
   * in the graph are exactly those of the allowed numbers; indexes stay right; and neither a duplicate command
   * node nor a missing anchor is ever reported.
   */
  lemma {:induction false} RunKeeps(sessionId: string, events: seq<Event>, parse: Parser)
    requires HonestRun(sessionId, events, parse)
    ensures Kept(sessionId, Run(events, parse).0, Run(events, parse).1)
  {
    if events == [] {
      assert AllowedNumbers([]) == {};
      EmptySession(sessionId);
    } else {
      var front, last := events[..|events| - 1], events[|events| - 1];
      RunKeeps(sessionId, front, parse);
      var (before, earlier) := Run(front, parse);
      StepKeeps(before, sessionId, |Numbers(earlier)|, AllowedNumbers(earlier), last.request, parse, last.verdict);
      var (after, outcome) := CheckRuntime(before, last.request, parse, last.verdict);
      OneMoreOutcome(sessionId, before, earlier, after, outcome);
    }
  }

  lemma EmptySession(sessionId: string)
    ensures Inv(NEW_SESSION, sessionId, 0, {})
  {
    EmptyIsWellIndexed();
  }
}
