/** What a session takes over from the shell, told from the lists of the snapshot. */
module ShellTaken {
  import opened Wrappers
  import opened GraphTypes
  import opened GraphIndex
  import opened SessionSummary
  import opened Mutations
  import opened Reconciliation
  import opened Agreement
  import opened Sessions
  import opened CoreRuns
  import opened RunProperties
  import opened SeededBaseline

  // Entries of a snapshot.

  /** Variables are kept if all are, or if this one is exported and the environment is. */
  predicate Keeps(can: Capabilities, exported: bool) {
    can.variables || (exported && can.exportedEnvironment)
  }

  /** The last of the kept entries with its name. */
  predicate LastKept(variables: seq<ShellVariable>, i: nat, can: Capabilities) {
    && i < |variables| && Keeps(can, variables[i].exported)
    && forall j | i < j < |variables| && variables[j].name == variables[i].name :: !Keeps(can, variables[j].exported)
  }

  predicate Listed(variables: seq<ShellVariable>, name: string, can: Capabilities) {
    exists i | 0 <= i < |variables| :: variables[i].name == name && Keeps(can, variables[i].exported)
  }

  /** It begins like a path: from the root, from here, from above, or from home. */
  predicate PathText(text: string) {
    || (|text| >= 1 && text[0] == '/')
    || (|text| >= 2 && text[..2] in {"./", "~/"})
    || (|text| >= 3 && text[..3] == "../")
  }

  /** What the shell shows; but a text that the previous command produced by substitution counts as such. */
  predicate IsShown(c: Variable, v: ShellVariable, previous: Option<PreviousCommand>) {
    && c.exported == v.exported
    && (if v.value.ExactScalar? && previous.Some? && v.name in previous.value.mints
        then c.value == RuntimeProduced(v.value.text, if PathText(v.value.text) then PathKind else ScalarKind)
        else c.value == v.value)
  }

  lemma PathTextExactly(text: string)
    ensures LooksLikePath(text) <==> PathText(text)
  {
    assert |text| >= 1 ==> text[..1] == [text[0]];
    assert "/" <= text <==> |text| >= 1 && text[..1] == "/";
    assert "./" <= text <==> |text| >= 2 && text[..2] == "./";
    assert "~/" <= text <==> |text| >= 2 && text[..2] == "~/";
    assert "../" <= text <==> |text| >= 3 && text[..3] == "../";
  }

  lemma ObservedIsShown(v: ShellVariable, previous: Option<PreviousCommand>)
    ensures IsShown(Observed(v, previous), v, previous)
  {
    if v.value.ExactScalar? {
      PathTextExactly(v.value.text);
    }
  }

  /** Exactly the listed names are there, each with what its last kept entry shows. */
  predicate Stands(live: map<string, Variable>, variables: seq<ShellVariable>, previous: Option<PreviousCommand>,
                   can: Capabilities) {
    && (forall name | name in live :: Listed(variables, name, can))
    && (forall i | 0 <= i < |variables| && LastKept(variables, i, can) ::
          variables[i].name in live && IsShown(live[variables[i].name], variables[i], previous))
    && (forall i | 0 <= i < |variables| && Keeps(can, variables[i].exported) :: variables[i].name in live)
  }

  lemma StandsNext(live: map<string, Variable>, front: seq<ShellVariable>, last: ShellVariable,
                   previous: Option<PreviousCommand>, can: Capabilities)
    requires Stands(live, front, previous, can)
    ensures Stands(if Keeps(can, last.exported) then live[last.name := Observed(last, previous)] else live,
                   front + [last], previous, can)
  {
    var variables := front + [last];
    ObservedIsShown(last, previous);
    forall name | Listed(front, name, can) ensures Listed(variables, name, can) {
      var i :| 0 <= i < |front| && front[i].name == name && Keeps(can, front[i].exported);
      assert variables[i].name == name;
    }
    assert variables[|front|] == last;
    assert Keeps(can, last.exported) ==> Listed(variables, last.name, can);
    forall i | 0 <= i < |front| && LastKept(variables, i, can) ensures LastKept(front, i, can) {
      assert forall j | i < j < |front| :: front[j] == variables[j];
    }
  }

  lemma {:induction false} LastKeptStand(variables: seq<ShellVariable>, previous: Option<PreviousCommand>,
                                         can: Capabilities)
    ensures Stands(LastWins(PersistedEntries(variables, previous, can)), variables, previous, can)
  {
    if variables != [] {
      var n := |variables| - 1;
      var front, last := variables[..n], variables[n];
      LastKeptStand(front, previous, can);
      StandsNext(LastWins(PersistedEntries(front, previous, can)), front, last, previous, can);
      var entries := PersistedEntries(front, previous, can);
      assert (entries + [(last.name, Observed(last, previous))])[..|entries|] == entries && entries + [] == entries;
      assert variables == front + [last];
    }
  }

  const ENVIRONMENT: Capabilities := Capabilities(false, false, true, false, false, false)

  /** The exported entries are those that keeping the environment only would keep. */
  lemma {:induction false} ExportedAreKept(variables: seq<ShellVariable>, previous: Option<PreviousCommand>)
    ensures ExportedEntries(variables, previous) == PersistedEntries(variables, previous, ENVIRONMENT)
  {
    if variables != [] {
      ExportedAreKept(variables[..|variables| - 1], previous);
    }
  }

  predicate LastBody(bodies: seq<ShellBody>, i: nat) {
    i < |bodies| && forall j | i < j < |bodies| :: bodies[j].name != bodies[i].name
  }

  predicate HasBody(bodies: seq<ShellBody>, name: string) {
    exists i | 0 <= i < |bodies| :: bodies[i].name == name
  }

  predicate BodiesStand(live: map<string, string>, bodies: seq<ShellBody>) {
    && (forall name | name in live :: HasBody(bodies, name))
    && (forall i | 0 <= i < |bodies| :: bodies[i].name in live)
    && (forall i | 0 <= i < |bodies| && LastBody(bodies, i) :: live[bodies[i].name] == bodies[i].body)
  }

  lemma BodiesStandNext(live: map<string, string>, front: seq<ShellBody>, last: ShellBody)
    requires BodiesStand(live, front)
    ensures BodiesStand(live[last.name := last.body], front + [last])
  {
    var bodies := front + [last];
    forall name | HasBody(front, name) ensures HasBody(bodies, name) {
      var i :| 0 <= i < |front| && front[i].name == name;
      assert bodies[i].name == name;
    }
    assert bodies[|front|] == last;
    forall i | 0 <= i < |front| && LastBody(bodies, i) ensures LastBody(front, i) {
      assert forall j | i < j < |front| :: front[j] == bodies[j];
    }
  }

  lemma BodyEntriesNext(front: seq<ShellBody>, last: ShellBody)
    ensures LastWins(BodyEntries(front + [last])) == LastWins(BodyEntries(front))[last.name := last.body]
  {
    var entries := BodyEntries(front + [last]);
    assert entries[..|front|] == BodyEntries(front) && entries[|front|] == (last.name, last.body);
  }

  lemma {:induction false} LastBodiesStand(bodies: seq<ShellBody>)
    ensures BodiesStand(LastWins(BodyEntries(bodies)), bodies)
  {
    if bodies != [] {
      var n := |bodies| - 1;
      var front, last := bodies[..n], bodies[n];
      assert bodies == front + [last];
      LastBodiesStand(front);
      BodiesStandNext(LastWins(BodyEntries(front)), front, last);
      BodyEntriesNext(front, last);
    }
  }

  // Reconciling.

  /** All variables known: what is listed last is held, and of the rest only what is not kept stays, as it was. */
  predicate AllTaken(r: map<string, Binding<Variable>>, s: map<string, Binding<Variable>>,
                     variables: seq<ShellVariable>, previous: Option<PreviousCommand>, can: Capabilities) {
    && (forall i | 0 <= i < |variables| && LastKept(variables, i, can) ::
          variables[i].name in r && IsShown(r[variables[i].name].content, variables[i], previous))
    && (forall name | name in r && !Listed(variables, name, can) ::
          name in s && r[name] == s[name] && !Keeps(can, s[name].content.exported))
    && (forall name | name in s && name !in r ::
          !Listed(variables, name, can) && Keeps(can, s[name].content.exported))
  }

  /** No other exported entry has the name and shows something else. */
  predicate Unambiguous(variables: seq<ShellVariable>, i: nat) {
    && i < |variables| && variables[i].exported
    && forall j | 0 <= j < |variables| && variables[j].exported && variables[j].name == variables[i].name ::
         variables[j] == variables[i]
  }

  /** Exported variables known: each is held unless the list contradicts it; others stay, and none goes. */
  predicate ExportedTaken(r: map<string, Binding<Variable>>, s: map<string, Binding<Variable>>,
                          variables: seq<ShellVariable>, previous: Option<PreviousCommand>) {
    && (forall i | 0 <= i < |variables| && Unambiguous(variables, i) ::
          variables[i].name in r && IsShown(r[variables[i].name].content, variables[i], previous))
    && (forall name | name in s :: name in r)
    && (forall name | name in r && !Listed(variables, name, ENVIRONMENT) :: name in s && r[name] == s[name])
  }

  predicate VariablesTakenOver(r: map<string, Binding<Variable>>, s: map<string, Binding<Variable>>, before: Snapshot,
                               previous: Option<PreviousCommand>, can: Capabilities) {
    match before.variableKnowledge
    case Complete =>
      if can.variables || can.exportedEnvironment then AllTaken(r, s, before.variables, previous, can) else r == s
    case ExportedOnly =>
      if can.exportedEnvironment then ExportedTaken(r, s, before.variables, previous) else r == s
    case Unknown => r == s
  }

  /** All aliases or functions known: those listed last are held, and no others. */
  predicate BodiesTakenOver(r: map<string, Binding<string>>, s: map<string, Binding<string>>, bodies: seq<ShellBody>,
                            knowledge: Knowledge, persisted: bool) {
    if persisted && knowledge == Complete then
      && (forall i | 0 <= i < |bodies| && LastBody(bodies, i) ::
            bodies[i].name in r && r[bodies[i].name].content == bodies[i].body)
      && (forall name | name in r :: HasBody(bodies, name))
    else r == s
  }

  lemma AllAreTaken(r: map<string, Binding<Variable>>, s: map<string, Binding<Variable>>, live: map<string, Variable>,
                    variables: seq<ShellVariable>, previous: Option<PreviousCommand>, can: Capabilities)
    requires Stands(live, variables, previous, can)
    requires forall name :: AgreesAt(r, s, live, Persisted(can), name)
    ensures AllTaken(r, s, variables, previous, can)
  {
    forall i | 0 <= i < |variables| && LastKept(variables, i, can)
      ensures variables[i].name in r && IsShown(r[variables[i].name].content, variables[i], previous)
    {
      assert AgreesAt(r, s, live, Persisted(can), variables[i].name);
    }
    forall name | name in r && !Listed(variables, name, can)
      ensures name in s && r[name] == s[name] && !Keeps(can, s[name].content.exported)
    {
      assert AgreesAt(r, s, live, Persisted(can), name) && name !in live;
    }
    forall name | name in s && name !in r
      ensures !Listed(variables, name, can) && Keeps(can, s[name].content.exported)
    {
      assert AgreesAt(r, s, live, Persisted(can), name);
    }
  }

  lemma BodiesAreTaken(r: map<string, Binding<string>>, s: map<string, Binding<string>>, bodies: seq<ShellBody>,
                       live: map<string, string>)
    requires BodiesStand(live, bodies) && forall name :: AgreesAt(r, s, live, Anything(), name)
    ensures BodiesTakenOver(r, s, bodies, Complete, true)
  {
    forall i | 0 <= i < |bodies| && LastBody(bodies, i)
      ensures bodies[i].name in r && r[bodies[i].name].content == bodies[i].body
    {
      assert AgreesAt(r, s, live, Anything(), bodies[i].name);
    }
    forall name | name in r ensures HasBody(bodies, name) {
      assert AgreesAt(r, s, live, Anything(), name);
    }
  }

  /** The entry is that of an exported variable. */
  predicate EntryOf(variables: seq<ShellVariable>, previous: Option<PreviousCommand>, e: (string, Variable)) {
    exists j | 0 <= j < |variables| ::
      variables[j].exported && e == (variables[j].name, Observed(variables[j], previous))
  }

  lemma {:induction false} ExportedEntriesExactly(variables: seq<ShellVariable>, previous: Option<PreviousCommand>)
    ensures forall e :: e in ExportedEntries(variables, previous) <==> EntryOf(variables, previous, e)
  {
    if variables != [] {
      var n := |variables| - 1;
      ExportedEntriesExactly(variables[..n], previous);
      forall e
        ensures EntryOf(variables, previous, e) <==>
                EntryOf(variables[..n], previous, e)
                || (variables[n].exported && e == (variables[n].name, Observed(variables[n], previous)))
      {
        EntryNext(variables, previous, e);
      }
    }
  }

  lemma EntryNext(variables: seq<ShellVariable>, previous: Option<PreviousCommand>, e: (string, Variable))
    requires variables != []
    ensures var n := |variables| - 1;
            EntryOf(variables, previous, e) <==>
            EntryOf(variables[..n], previous, e)
            || (variables[n].exported && e == (variables[n].name, Observed(variables[n], previous)))
  {
    var n := |variables| - 1;
    if j :| 0 <= j < n && variables[j].exported && e == (variables[j].name, Observed(variables[j], previous)) {
      assert variables[..n][j] == variables[j];
    }
    if EntryOf(variables[..n], previous, e) {
      var j :| 0 <= j < n && variables[..n][j].exported
               && e == (variables[..n][j].name, Observed(variables[..n][j], previous));
      assert variables[j] == variables[..n][j];
    }
  }

  lemma UnambiguousIsHeld(s: map<string, Binding<Variable>>, variables: seq<ShellVariable>, at: SequenceNo,
                          previous: Option<PreviousCommand>, i: nat)
    requires Filed(s, at) && Unambiguous(variables, i)
    ensures var r := UpsertedAll(s, Mismatched(s, ExportedEntries(variables, previous), at));
            variables[i].name in r && IsShown(r[variables[i].name].content, variables[i], previous)
  {
    var entries, entry := ExportedEntries(variables, previous), (variables[i].name, Observed(variables[i], previous));
    ExportedEntriesExactly(variables, previous);
    ObservedIsShown(variables[i], previous);
    assert EntryOf(variables, previous, entry);
    var k :| 0 <= k < |entries| && entries[k] == entry;
    forall j | 0 <= j < |entries| && entries[j].0 == entries[k].0 ensures entries[j] == entries[k] {
      assert entries[j] in entries;
      var l :| 0 <= l < |variables| && variables[l].exported
               && entries[j] == (variables[l].name, Observed(variables[l], previous));
    }
    HeldWhenConsistent(s, entries, at, k);
  }

  lemma ExportedAreTaken(s: map<string, Binding<Variable>>, variables: seq<ShellVariable>, at: SequenceNo,
                         previous: Option<PreviousCommand>)
    requires Filed(s, at)
    ensures ExportedTaken(UpsertedAll(s, Mismatched(s, ExportedEntries(variables, previous), at)), s, variables,
                          previous)
  {
    var entries := ExportedEntries(variables, previous);
    var r := UpsertedAll(s, Mismatched(s, entries, at));
    ExportedAgrees(s, entries, at);
    ExportedEntriesExactly(variables, previous);
    forall i | 0 <= i < |variables| && Unambiguous(variables, i)
      ensures variables[i].name in r && IsShown(r[variables[i].name].content, variables[i], previous)
    {
      UnambiguousIsHeld(s, variables, at, previous, i);
    }
    forall name | name in r && !Listed(variables, name, ENVIRONMENT) ensures name in s && r[name] == s[name] {
      forall i | 0 <= i < |entries| ensures entries[i].0 != name {
        assert entries[i] in entries && EntryOf(variables, previous, entries[i]);
      }
    }
  }

  // The whole summary.

  /** What a summary is after the shell was taken over, component by component. */
  predicate TakenOver(r: Summary, s: Summary, before: Snapshot, at: SequenceNo, previous: Option<PreviousCommand>,
                      can: Capabilities) {
    && VariablesTakenOver(r.variables, s.variables, before, previous, can)
    && BodiesTakenOver(r.aliases, s.aliases, before.aliases, before.aliasKnowledge, can.aliases)
    && BodiesTakenOver(r.functions, s.functions, before.functions, before.functionKnowledge, can.functions)
    && PositionalsAgree(r, s, before, can) && CwdAgrees(r, s, before, at, previous, can)
  }

  lemma VariablesAreTaken(s: Summary, before: Snapshot, at: SequenceNo, previous: Option<PreviousCommand>,
                          can: Capabilities)
    requires Valid(s) && s.lastSequenceNo == Some(at)
    ensures VariablesTakenOver(Reconciled(s, before, at, previous, can).variables, s.variables, before, previous, can)
  {
    var delta := Reconcile(s, before, at, previous, can);
    ReconcilePermitted(s, before, at, previous, can);
    DeltaApplies(s, delta, at, can);
    ReconcileAgrees(s, before, at, previous, can);
    match before.variableKnowledge {
      case Complete =>
        LastKeptStand(before.variables, previous, can);
        if can.variables || can.exportedEnvironment {
          AllAreTaken(Reconciled(s, before, at, previous, can).variables, s.variables,
                      LiveVariables(before, previous, can), before.variables, previous, can);
        }
      case ExportedOnly => ExportedAreTaken(s.variables, before.variables, at, previous);
      case Unknown =>
    }
  }

  /** Reconciling takes over what the snapshot lists, as it lists it, and leaves the rest. */
  lemma ReconcileTakesOver(s: Summary, before: Snapshot, at: SequenceNo, previous: Option<PreviousCommand>,
                           can: Capabilities)
    requires Valid(s) && s.lastSequenceNo == Some(at)
    ensures TakenOver(Reconciled(s, before, at, previous, can), s, before, at, previous, can)
  {
    var r := Reconciled(s, before, at, previous, can);
    VariablesAreTaken(s, before, at, previous, can);
    ReconcileAgrees(s, before, at, previous, can);
    LastBodiesStand(before.aliases);
    LastBodiesStand(before.functions);
    if can.aliases && before.aliasKnowledge == Complete {
      BodiesAreTaken(r.aliases, s.aliases, before.aliases, LastWins(BodyEntries(before.aliases)));
    }
    if can.functions && before.functionKnowledge == Complete {
      BodiesAreTaken(r.functions, s.functions, before.functions, LastWins(BodyEntries(before.functions)));
    }
  }

  /** Preparing a request does that to the session, with what the parser says of the last request's command. */
  lemma PreparingTakesOver(session: Session, request: RuntimeRequest, parse: Parser, at: SequenceNo)
    requires WellIndexed(session.graph) && Valid(session.summary) && session.summary.lastSequenceNo == Some(at)
    requires ReconcileBefore(session, request, parse).1.None?
    ensures TakenOver(ReconcileBefore(session, request, parse).0.summary, session.summary, request.before, at,
                      PreviousContext(session.graph.nodes, RequestAnchorId(request.sessionId, at), parse), request.can)
  {
    var previous := PreviousContext(session.graph.nodes, RequestAnchorId(request.sessionId, at), parse);
    var delta := DeltaBefore(session, request, parse);
    ReconcileTakesOver(session.summary, request.before, at, previous, request.can);
    ReconcileBatchExact(session.graph.nodes, request.sessionId, at, delta, session.summary, request.can);
    ObservedCommit(session, request.sessionId, at, request.can,
                   ReconcileBatch(session.graph.nodes, request.sessionId, at, delta));
    if delta == NO_CHANGE {
      assert SummaryMutations(NO_CHANGE, at) == [];
    }
  }

  // A new session.

  /** What is seeded: each variable as its last kept entry shows it, all of one moment. */
  predicate SeededFrom(r: map<string, Binding<Variable>>, variables: seq<ShellVariable>, can: Capabilities) {
    && (forall name | name in r :: Listed(variables, name, can) && r[name].name == name && r[name].observedAt == 0)
    && (forall i | 0 <= i < |variables| && LastKept(variables, i, can) ::
          variables[i].name in r && r[variables[i].name].content == Variable(variables[i].value, variables[i].exported))
  }

  predicate BodiesSeededFrom(r: map<string, Binding<string>>, bodies: seq<ShellBody>) {
    && (forall name | name in r :: HasBody(bodies, name) && r[name].name == name && r[name].observedAt == 0)
    && (forall i | 0 <= i < |bodies| && LastBody(bodies, i) ::
          bodies[i].name in r && r[bodies[i].name].content == bodies[i].body)
  }

  predicate VariablesSeededBy(r: map<string, Binding<Variable>>, before: Snapshot, can: Capabilities) {
    match before.variableKnowledge
    case Complete => SeededFrom(r, before.variables, can)
    case ExportedOnly =>
      if can.exportedEnvironment then SeededFrom(r, before.variables, ENVIRONMENT) else r == map[]
    case Unknown => r == map[]
  }

  /** A new session has what is persisted, known and not cut off by a partial environment that is not kept. */
  predicate SeededBy(r: Summary, before: Snapshot, can: Capabilities) {
    var cut := before.variableKnowledge == ExportedOnly && !can.exportedEnvironment;
    && r.cwd == (if can.cwd then Some(Cwd(before.cwd, 0, RuntimeSnapshot)) else None)
    && VariablesSeededBy(r.variables, before, can)
    && (if can.aliases && before.aliasKnowledge == Complete && !cut then BodiesSeededFrom(r.aliases, before.aliases)
        else r.aliases == map[])
    && (if can.functions && before.functionKnowledge == Complete && !cut
        then BodiesSeededFrom(r.functions, before.functions) else r.functions == map[])
    && r.positionals == (if can.positionals && before.positionalKnowledge == Complete && !cut
                         then Some(Positionals(before.positionals, 0)) else None)
  }

  lemma KnownAreSeeded(before: Snapshot, can: Capabilities)
    ensures VariablesSeededBy(Bound(KnownVariables(before, None, can), 0), before, can)
  {
    LastKeptStand(before.variables, None, can);
    LastKeptStand(before.variables, None, ENVIRONMENT);
    ExportedAreKept(before.variables, None);
  }

  lemma BodiesAreSeeded(bodies: seq<ShellBody>)
    ensures BodiesSeededFrom(SeededBodies(bodies, Complete, true), bodies)
  {
    LastBodiesStand(bodies);
  }

  lemma SeedingSeeds(before: Snapshot, can: Capabilities)
    ensures SeededBy(Seed(SessionSummary.EMPTY, before, 0, can), before, can)
  {
    SeededSummary(before, can);
    KnownAreSeeded(before, can);
    BodiesAreSeeded(before.aliases);
    BodiesAreSeeded(before.functions);
  }

  lemma ObservingKeepsSeed(r: Summary, before: Snapshot, can: Capabilities, n: SequenceNo)
    requires SeededBy(r, before, can)
    ensures SeededBy(Observe(r, n), before, can)
  {
  }

  lemma DenialObserves(request: Request, batch: seq<Mutation>)
    ensures WellIndexed(NEW_SESSION.graph)
    ensures Check(NEW_SESSION, request, Verdict(false, batch)).0.summary
         == Observe(Seed(SessionSummary.EMPTY, request.before, 0, request.can), request.sequenceNo)
  {
    EmptyIsWellIndexed();
  }

  lemma ObservedNumber(r: Summary, n: SequenceNo)
    requires Baseline(r)
    ensures Observe(r, n).lastSequenceNo == Some(n)
  {
  }

  /** The first request of a session, if it is denied, leaves its shell at 0 and its number. */
  lemma FirstDenialSeeds(request: Request, batch: seq<Mutation>)
    ensures WellIndexed(NEW_SESSION.graph)
    ensures var r := Check(NEW_SESSION, request, Verdict(false, batch)).0.summary;
            SeededBy(r, request.before, request.can) && r.lastSequenceNo == Some(request.sequenceNo)
  {
    var seeded := Seed(SessionSummary.EMPTY, request.before, 0, request.can);
    DenialObserves(request, batch);
    SeedingSeeds(request.before, request.can);
    ObservingKeepsSeed(seeded, request.before, request.can, request.sequenceNo);
    SeedBaseline(SessionSummary.EMPTY, request.before, request.can);
    ObservedNumber(seeded, request.sequenceNo);
  }
}
